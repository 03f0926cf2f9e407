// Definitions shared by the models of the separate components.

module Common {
  datatype Option<+T> = None | Some(value: T)

  /// Per-character case folding. One character may fold to several, never to none.
  /// Nothing else is assumed about it.
  type Fold = f: char -> seq<char> | forall c :: f(c) != [] witness (c: char) => [c]

  /// The folded copy of a whole string.
  function FoldAll(fold: Fold, s: string): (r: string)
    ensures |r| >= |s|
  {
    if s == [] then [] else fold(s[0]) + FoldAll(fold, s[1..])
  }

  lemma {:induction false} FoldAllConcat(fold: Fold, a: string, b: string)
    ensures FoldAll(fold, a + b) == FoldAll(fold, a) + FoldAll(fold, b)
  {
    if a == [] {
      assert a + b == b;
    } else {
      assert (a + b)[1..] == a[1..] + b;
      calc {
        FoldAll(fold, a + b);
        fold(a[0]) + FoldAll(fold, a[1..] + b);
        { FoldAllConcat(fold, a[1..], b); }
        fold(a[0]) + (FoldAll(fold, a[1..]) + FoldAll(fold, b));
        FoldAll(fold, a) + FoldAll(fold, b);
      }
    }
  }

  /// Chunks put together again.
  function Flatten<T>(chunks: seq<seq<T>>): seq<T>
    decreases |chunks|
  {
    if chunks == [] then [] else Flatten(chunks[..|chunks| - 1]) + chunks[|chunks| - 1]
  }
}
