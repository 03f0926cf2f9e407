// String similarity (crates/config/src/fuzzy.rs): optimal-string-alignment distance by dynamic
// programming, the consonant code, and the scores and suggestions built on them.

module Fuzzy {
  import opened Common

  // ------------------------------------------------------------- alignment scripts

  /// One column of an alignment, read left to right. A swap turns xy into yx; since every column
  /// consumes its characters, no region is edited twice.
  datatype Edit = Keep | Substitute | Insert | Delete | Swap

  /// The script turns the first i characters of a into the first j of b.
  ghost predicate AlignsTo(ops: seq<Edit>, a: string, i: nat, b: string, j: nat)
    requires i <= |a| && j <= |b|
    decreases |ops|
  {
    if ops == [] then i == 0 && j == 0
    else
      var rest := ops[..|ops| - 1];
      match ops[|ops| - 1]
      case Keep => i > 0 && j > 0 && a[i - 1] == b[j - 1] && AlignsTo(rest, a, i - 1, b, j - 1)
      case Substitute => i > 0 && j > 0 && a[i - 1] != b[j - 1] && AlignsTo(rest, a, i - 1, b, j - 1)
      case Insert => j > 0 && AlignsTo(rest, a, i, b, j - 1)
      case Delete => i > 0 && AlignsTo(rest, a, i - 1, b, j)
      case Swap => Crossed(a, i, b, j) && AlignsTo(rest, a, i - 2, b, j - 2)
  }

  /// The two characters before i are the two before j, the other way round.
  predicate Crossed(a: string, i: nat, b: string, j: nat)
    requires i <= |a| && j <= |b|
  {
    i > 1 && j > 1 && a[i - 1] == b[j - 2] && a[i - 2] == b[j - 1]
  }

  ghost predicate Aligns(ops: seq<Edit>, a: string, b: string)
  {
    AlignsTo(ops, a, |a|, b, |b|)
  }

  ghost function Cost(ops: seq<Edit>): nat
    decreases |ops|
  {
    if ops == [] then 0
    else Cost(ops[..|ops| - 1]) + if ops[|ops| - 1] == Keep then 0 else 1
  }

  /// d is the least cost of any script turning a into b.
  ghost predicate IsDistance(d: nat, a: string, b: string)
  {
    && (exists ops :: Aligns(ops, a, b) && Cost(ops) == d)
    && (forall ops :: Aligns(ops, a, b) ==> d <= Cost(ops))
  }

  // --------------------------------------------------------------- the recurrence

  function Min(x: nat, y: nat): nat { if x < y then x else y }

  function Max(x: nat, y: nat): nat { if x < y then y else x }

  function Recurrence(a: string, i: nat, b: string, j: nat): nat
    requires i <= |a| && j <= |b|
    decreases i + j
  {
    if i == 0 then j
    else if j == 0 then i
    else
      var cost := if a[i - 1] == b[j - 1] then 0 else 1;
      var best := Min(Min(Recurrence(a, i - 1, b, j) + 1, Recurrence(a, i, b, j - 1) + 1),
                      Recurrence(a, i - 1, b, j - 1) + cost);
      if Crossed(a, i, b, j) then Min(best, Recurrence(a, i - 2, b, j - 2) + 1) else best
  }

  /// The distance between the first i characters of a and the first j of b. (The recurrence under a
  /// name of its own, so that it is not unfolded wherever it is mentioned.)
  function DistTo(a: string, i: nat, b: string, j: nat): nat
    requires i <= |a| && j <= |b|
  {
    Recurrence(a, i, b, j)
  }

  function Dist(a: string, b: string): nat
  {
    DistTo(a, |a|, b, |b|)
  }

  lemma {:induction false} DistIsLowerBound(ops: seq<Edit>, a: string, i: nat, b: string, j: nat)
    requires i <= |a| && j <= |b| && AlignsTo(ops, a, i, b, j)
    ensures DistTo(a, i, b, j) <= Cost(ops)
    decreases |ops|
  {
    if ops != [] {
      var rest := ops[..|ops| - 1];
      match ops[|ops| - 1]
      case Keep => DistIsLowerBound(rest, a, i - 1, b, j - 1);
      case Substitute => DistIsLowerBound(rest, a, i - 1, b, j - 1);
      case Insert => DistIsLowerBound(rest, a, i, b, j - 1);
      case Delete => DistIsLowerBound(rest, a, i - 1, b, j);
      case Swap => DistIsLowerBound(rest, a, i - 2, b, j - 2);
    }
  }

  lemma {:induction false} BestScript(a: string, i: nat, b: string, j: nat) returns (ops: seq<Edit>)
    requires i <= |a| && j <= |b|
    ensures AlignsTo(ops, a, i, b, j) && Cost(ops) == DistTo(a, i, b, j)
    decreases i + j
  {
    if i == 0 && j == 0 {
      return [];
    }
    var rest: seq<Edit>, last: Edit;
    if i == 0 || (j > 0 && DistTo(a, i, b, j) == DistTo(a, i, b, j - 1) + 1) {
      rest := BestScript(a, i, b, j - 1); last := Insert;
    } else if j == 0 || DistTo(a, i, b, j) == DistTo(a, i - 1, b, j) + 1 {
      rest := BestScript(a, i - 1, b, j); last := Delete;
    } else if a[i - 1] == b[j - 1] && DistTo(a, i, b, j) == DistTo(a, i - 1, b, j - 1) {
      rest := BestScript(a, i - 1, b, j - 1); last := Keep;
    } else if a[i - 1] != b[j - 1] && DistTo(a, i, b, j) == DistTo(a, i - 1, b, j - 1) + 1 {
      rest := BestScript(a, i - 1, b, j - 1); last := Substitute;
    } else {
      rest := BestScript(a, i - 2, b, j - 2); last := Swap;
    }
    ops := rest + [last];
    assert ops[..|ops| - 1] == rest;
  }

  /// The recurrence computes the optimal-string-alignment distance.
  lemma {:induction false} DistIsDistance(a: string, b: string)
    ensures IsDistance(Dist(a, b), a, b)
  {
    var ops := BestScript(a, |a|, b, |b|);
    assert Aligns(ops, a, b);
    forall ops | Aligns(ops, a, b)
      ensures Dist(a, b) <= Cost(ops)
    {
      DistIsLowerBound(ops, a, |a|, b, |b|);
    }
  }

  // ------------------------------------------------------------------ the matrix

  method EditDistance(a: string, b: string) returns (r: nat)
    ensures IsDistance(r, a, b)
    ensures r == Dist(a, b)
  {
    DistIsDistance(a, b);
    var n, m := |a|, |b|;
    if n == 0 {
      return m;
    }
    if m == 0 {
      return n;
    }
    var d := new nat[n + 1, m + 1];
    for i := 0 to n + 1
      invariant forall x :: 0 <= x < i ==> d[x, 0] == x
    {
      d[i, 0] := i;
    }
    for j := 0 to m + 1
      invariant forall x :: 0 <= x <= n ==> d[x, 0] == x
      invariant forall y :: 0 <= y < j ==> d[0, y] == y
    {
      d[0, j] := j;
    }
    for i := 1 to n + 1
      invariant Filled(d, a, b, i)
      invariant forall x :: 0 <= x <= n ==> d[x, 0] == x
    {
      for j := 1 to m + 1
        invariant Filled(d, a, b, i)
        invariant forall x :: 0 <= x <= n ==> d[x, 0] == x
        invariant forall y :: 0 <= y < j ==> d[i, y] == DistTo(a, i, b, y)
      {
        d[i, j] := CellValue(d, a, b, i, j);
      }
    }
    return d[n, m];
  }

  /// The minimum the inner loop takes over the neighbours already filled in.
  function CellValue(d: array2<nat>, a: string, b: string, i: nat, j: nat): (best: nat)
    requires d.Length0 == |a| + 1 && d.Length1 == |b| + 1 && 0 < i <= |a| && 0 < j <= |b|
    reads d
    ensures d[i - 1, j] == DistTo(a, i - 1, b, j) && d[i, j - 1] == DistTo(a, i, b, j - 1)
            && d[i - 1, j - 1] == DistTo(a, i - 1, b, j - 1)
            && (Crossed(a, i, b, j) ==> d[i - 2, j - 2] == DistTo(a, i - 2, b, j - 2))
            ==> best == DistTo(a, i, b, j)
  {
    var cost := if a[i - 1] != b[j - 1] then 1 else 0;
    var best := Min(Min(d[i - 1, j] + 1, d[i, j - 1] + 1), d[i - 1, j - 1] + cost);
    Cell(a, i, b, j);
    if Crossed(a, i, b, j) then Min(best, d[i - 2, j - 2] + 1) else best
  }

  lemma {:induction false} Cell(a: string, i: nat, b: string, j: nat)
    requires 0 < i <= |a| && 0 < j <= |b|
    ensures var best := Min(Min(DistTo(a, i - 1, b, j) + 1, DistTo(a, i, b, j - 1) + 1),
                            DistTo(a, i - 1, b, j - 1) + if a[i - 1] != b[j - 1] then 1 else 0);
            DistTo(a, i, b, j) == if Crossed(a, i, b, j) then Min(best, DistTo(a, i - 2, b, j - 2) + 1) else best
  {
  }

  ghost predicate Filled(d: array2<nat>, a: string, b: string, rows: nat)
    requires d.Length0 == |a| + 1 && d.Length1 == |b| + 1 && rows <= d.Length0
    reads d
  {
    forall x, y :: 0 <= x < rows && 0 <= y <= |b| ==> d[x, y] == DistTo(a, x, b, y)
  }

  // ------------------------------------------------------------ what kind of metric

  function Undo(op: Edit): Edit
  {
    match op case Insert => Delete case Delete => Insert case _ => op
  }

  ghost function Inverse(ops: seq<Edit>): seq<Edit>
  {
    seq(|ops|, k requires 0 <= k < |ops| => Undo(ops[k]))
  }

  lemma {:induction false} InverseAligns(ops: seq<Edit>, a: string, i: nat, b: string, j: nat)
    requires i <= |a| && j <= |b| && AlignsTo(ops, a, i, b, j)
    ensures AlignsTo(Inverse(ops), b, j, a, i) && Cost(Inverse(ops)) == Cost(ops)
    decreases |ops|
  {
    if ops != [] {
      var rest := ops[..|ops| - 1];
      assert Inverse(ops)[..|ops| - 1] == Inverse(rest);
      match ops[|ops| - 1]
      case Keep => InverseAligns(rest, a, i - 1, b, j - 1);
      case Substitute => InverseAligns(rest, a, i - 1, b, j - 1);
      case Insert => InverseAligns(rest, a, i, b, j - 1);
      case Delete => InverseAligns(rest, a, i - 1, b, j);
      case Swap => InverseAligns(rest, a, i - 2, b, j - 2);
    }
  }

  lemma {:induction false} Symmetric(a: string, b: string)
    ensures Dist(a, b) == Dist(b, a)
  {
    var there := BestScript(a, |a|, b, |b|);
    var back := BestScript(b, |b|, a, |a|);
    InverseAligns(there, a, |a|, b, |b|);
    InverseAligns(back, b, |b|, a, |a|);
    DistIsLowerBound(Inverse(there), b, |b|, a, |a|);
    DistIsLowerBound(Inverse(back), a, |a|, b, |b|);
  }

  /// A script pays for every difference in length, and a free one only keeps.
  lemma {:induction false} ScriptPays(ops: seq<Edit>, a: string, i: nat, b: string, j: nat)
    requires i <= |a| && j <= |b| && AlignsTo(ops, a, i, b, j)
    ensures i <= j + Cost(ops) && j <= i + Cost(ops)
    ensures Cost(ops) == 0 ==> i == j && forall k :: 0 <= k < i ==> a[k] == b[k]
    decreases |ops|
  {
    if ops != [] {
      var rest := ops[..|ops| - 1];
      match ops[|ops| - 1]
      case Keep => ScriptPays(rest, a, i - 1, b, j - 1);
      case Substitute => ScriptPays(rest, a, i - 1, b, j - 1);
      case Insert => ScriptPays(rest, a, i, b, j - 1);
      case Delete => ScriptPays(rest, a, i - 1, b, j);
      case Swap => ScriptPays(rest, a, i - 2, b, j - 2);
    }
  }

  lemma {:induction false} AtMostLonger(a: string, i: nat, b: string, j: nat)
    requires i <= |a| && j <= |b|
    ensures DistTo(a, i, b, j) <= Max(i, j)
    ensures a == b && i == j ==> DistTo(a, i, b, j) == 0
    decreases i
  {
    if i > 0 && j > 0 {
      AtMostLonger(a, i - 1, b, j - 1);
    }
  }

  lemma {:induction false} Bounds(a: string, b: string)
    ensures Dist(a, b) == 0 <==> a == b
    ensures Max(|a|, |b|) - Min(|a|, |b|) <= Dist(a, b) <= Max(|a|, |b|)
  {
    var ops := BestScript(a, |a|, b, |b|);
    ScriptPays(ops, a, |a|, b, |b|);
    AtMostLonger(a, |a|, b, |b|);
  }

  /// Charging a swap once, and never editing a region twice, costs the triangle inequality.
  lemma {:induction false} TriangleFails()
    ensures Dist("ca", "ac") == 1 && Dist("ac", "abc") == 1 && Dist("ca", "abc") == 3
  {
    assert Dist("ca", "ac") == 1 by { Bounds("ca", "ac"); Cell("ca", 2, "ac", 2); }
    OneEditApart();
    ThreeEditsApart();
  }

  lemma {:induction false} OneEditApart()
    ensures Dist("ac", "abc") == 1
  {
    var b, c := "ac", "abc";
    assert DistTo(b, 1, c, 2) <= 1 by { Cell(b, 1, c, 1); Cell(b, 1, c, 2); }
    Bounds(b, c);
    Cell(b, 2, c, 3);
  }

  lemma {:induction false} ThreeEditsApart()
    ensures Dist("ca", "abc") == 3
  {
    var a, c := "ca", "abc";
    assert DistTo(a, 1, c, 2) == 2 && DistTo(a, 1, c, 3) == 2 by {
      Cell(a, 1, c, 1); Cell(a, 1, c, 2); Cell(a, 1, c, 3);
    }
    assert DistTo(a, 2, c, 2) == 2 by {
      Cell(a, 1, c, 1); Cell(a, 2, c, 1); Cell(a, 2, c, 2);
    }
    Cell(a, 2, c, 3);
  }

  // -------------------------------------------------------------- consonant code

  /// The sound class of a (lowercased) character; `first` says nothing came before it.
  function SoundClass(c: char, first: bool): Option<char>
  {
    if c in {'k', 'c', 'q', 'g'} then Some('K')
    else if c in {'s', 'z', 'x', 'j'} then Some('S')
    else if c in {'d', 't'} then Some('T')
    else if c in {'b', 'p'} then Some('P')
    else if c in {'f', 'v', 'w'} then Some('F')
    else if c in {'m', 'n'} then Some('M')
    else if c == 'l' then Some('L')
    else if c == 'r' then Some('R')
    else if c in {'a', 'e', 'i', 'o', 'u'} then if first then Some('A') else None
    else if '0' <= c <= '9' then Some(c)
    else None
  }

  /// The letters of each class; a vowel counts only where it comes first.
  predicate Sounds(c: char, first: bool, class_: char)
  {
    match class_
    case 'K' => c in "kcqg"
    case 'S' => c in "szxj"
    case 'T' => c in "dt"
    case 'P' => c in "bp"
    case 'F' => c in "fvw"
    case 'M' => c in "mn"
    case 'L' => c == 'l'
    case 'R' => c == 'r'
    case 'A' => first && c in "aeiou"
    case _ => '0' <= c <= '9' && c == class_
  }

  lemma {:induction false} SoundClassIs(c: char, first: bool, class_: char)
    ensures SoundClass(c, first) == Some(class_) <==> Sounds(c, first, class_)
  {
  }

  /// The code of an already lowercased string.
  function CodeOf(low: string): string
  {
    if low == [] then []
    else
      var before := CodeOf(low[..|low| - 1]);
      var mapped := SoundClass(low[|low| - 1], |low| == 1);
      if mapped.None? || (before != [] && before[|before| - 1] == mapped.value) then before
      else before + [mapped.value]
  }

  method Phonetic(fold: Fold, s: string) returns (out: string)
    ensures out == CodeOf(FoldAll(fold, s))
  {
    var low := FoldAll(fold, s);
    out := [];
    var first := true;
    for i := 0 to |low|
      invariant out == CodeOf(low[..i])
      invariant first <==> i == 0
    {
      assert low[..i + 1][..i] == low[..i];
      var mapped := SoundClass(low[i], first);
      first := false;
      if mapped.Some? && !(out != [] && out[|out| - 1] == mapped.value) {
        out := out + [mapped.value];
      }
    }
    assert low[..|low|] == low;
  }

  const CODE_LETTERS := {'K', 'S', 'T', 'P', 'F', 'M', 'L', 'R'}

  ghost predicate IsCode(out: string)
  {
    && (forall i :: 0 <= i < |out| ==> out[i] in CODE_LETTERS || '0' <= out[i] <= '9' || (i == 0 && out[i] == 'A'))
    && (forall i :: 0 < i < |out| ==> out[i] != out[i - 1])
  }

  /// Runs are collapsed, and a vowel survives only at the front.
  lemma {:induction false} CodeShape(low: string)
    ensures IsCode(CodeOf(low)) && |CodeOf(low)| <= |low|
  {
    if low != [] {
      CodeShape(low[..|low| - 1]);
    }
  }

  /// The sound of each character, if it has one.
  function Classes(low: string): (c: seq<Option<char>>)
    ensures |c| == |low| && forall p :: 0 <= p < |low| ==> c[p] == SoundClass(low[p], p == 0)
  {
    seq(|low|, p requires 0 <= p < |low| => SoundClass(low[p], p == 0))
  }

  /// Letter k of the code is the sound at place at[k]; the places rise, and letters side by side differ.
  ghost predicate Traces(c: seq<Option<char>>, code: string, at: seq<nat>)
  {
    && |at| == |code|
    && (forall k :: 0 <= k < |at| ==> TakenAt(c, at[k], code[k]))
    && (forall k :: 0 < k < |at| ==> at[k - 1] < at[k] && code[k - 1] != code[k])
  }

  ghost predicate TakenAt(c: seq<Option<char>>, p: int, x: char) { 0 <= p < |c| && c[p] == Some(x) }

  /// The last letter taken at or before place p is letter k, x.
  ghost predicate LastAt(code: string, at: seq<nat>, p: int, x: char, k: int)
  {
    0 <= k < |at| == |code| && at[k] <= p && (k + 1 < |at| ==> p < at[k + 1]) && code[k] == x
  }

  ghost predicate LastIs(code: string, at: seq<nat>, p: int, x: char) { exists k :: LastAt(code, at, p, x, k) }

  /// Every sound is that of the last letter taken at or before its place.
  ghost predicate Covers(c: seq<Option<char>>, code: string, at: seq<nat>)
  {
    forall p, x :: TakenAt(c, p, x) ==> LastIs(code, at, p, x)
  }

  /// The code is the sequence of the sounds with runs made single.
  lemma {:induction false} CodeTraces(low: string) returns (at: seq<nat>)
    ensures Traces(Classes(low), CodeOf(low), at) && Covers(Classes(low), CodeOf(low), at)
  {
    if low == [] {
      return [];
    }
    var (init, c) := (low[..|low| - 1], Classes(low[..|low| - 1]));
    at := CodeTraces(init);
    var (mapped, before) := (SoundClass(low[|low| - 1], |low| == 1), CodeOf(init));
    assert Classes(low) == c + [mapped];
    if mapped.Some? && (before == [] || before[|before| - 1] != mapped.value) {
      at := TraceOn(c, before, at, mapped.value);
    } else {
      TraceStays(c, before, at, mapped);
    }
  }

  /// One more letter, taken from the last place.
  lemma {:induction false} TraceOn(c: seq<Option<char>>, code: string, at: seq<nat>, x: char) returns (more: seq<nat>)
    requires Traces(c, code, at) && Covers(c, code, at) && (code == [] || code[|code| - 1] != x)
    ensures Traces(c + [Some(x)], code + [x], more) && Covers(c + [Some(x)], code + [x], more)
  {
    more := at + [|c|];
    TracesOn(c, code, at, x);
    forall p, y | TakenAt(c + [Some(x)], p, y) ensures LastIs(code + [x], more, p, y) {
      if p < |c| {
        LastKept(c, code, at, x, p, y);
      } else {
        assert LastAt(code + [x], more, p, y, |at|);
      }
    }
  }

  lemma {:induction false} TracesOn(c: seq<Option<char>>, code: string, at: seq<nat>, x: char)
    requires Traces(c, code, at) && (code == [] || code[|code| - 1] != x)
    ensures Traces(c + [Some(x)], code + [x], at + [|c|])
  {
    var (more, longer) := (at + [|c|], code + [x]);
    forall k | 0 <= k < |more| ensures TakenAt(c + [Some(x)], more[k], longer[k]) {
      if k < |at| { assert TakenAt(c, at[k], code[k]); }
    }
    forall k | 0 < k < |more| ensures more[k - 1] < more[k] && longer[k - 1] != longer[k] {
      assert TakenAt(c, at[k - 1], code[k - 1]);
    }
  }

  lemma {:induction false} LastKept(c: seq<Option<char>>, code: string, at: seq<nat>, x: char, p: int, y: char)
    requires Covers(c, code, at) && TakenAt(c, p, y) && |at| == |code|
    ensures LastIs(code + [x], at + [|c|], p, y)
  {
    assert LastIs(code, at, p, y);
    var k :| LastAt(code, at, p, y, k);
    assert LastAt(code + [x], at + [|c|], p, y, k);
  }

  /// No letter taken from the last place: it has no sound, or that of the last letter.
  lemma {:induction false} TraceStays(c: seq<Option<char>>, code: string, at: seq<nat>, mapped: Option<char>)
    requires Traces(c, code, at) && Covers(c, code, at)
    requires mapped.Some? ==> code != [] && code[|code| - 1] == mapped.value
    ensures Traces(c + [mapped], code, at) && Covers(c + [mapped], code, at)
  {
    forall k | 0 <= k < |at| ensures TakenAt(c + [mapped], at[k], code[k]) { assert TakenAt(c, at[k], code[k]); }
    forall p, y | TakenAt(c + [mapped], p, y) ensures LastIs(code, at, p, y) {
      if p < |c| {
        assert TakenAt(c, p, y);
      } else {
        LastAgain(c, code, at, y);
      }
    }
  }

  lemma {:induction false} LastAgain(c: seq<Option<char>>, code: string, at: seq<nat>, y: char)
    requires Traces(c, code, at) && code != [] && code[|code| - 1] == y
    ensures LastIs(code, at, |c|, y)
  {
    assert TakenAt(c, at[|at| - 1], code[|at| - 1]);
    assert LastAt(code, at, |c|, y, |at| - 1);
  }

  ghost predicate SoundAt(low: string, p: nat, x: char)
    requires p < |low|
  {
    Sounds(low[p], p == 0, x)
  }

  /// Of a lower-cased text: letter k of the code sounds at place at[k], the places rise, letters side by
  /// side differ, and every sound is that of the last letter taken at or before its place; a vowel
  /// sounds in the first place only.
  lemma {:induction false} CodeIs(low: string) returns (at: seq<nat>)
    ensures |at| == |CodeOf(low)|
    ensures forall k :: 0 <= k < |at| ==> at[k] < |low| && SoundAt(low, at[k], CodeOf(low)[k])
    ensures forall k :: 0 < k < |at| ==> at[k - 1] < at[k] && CodeOf(low)[k - 1] != CodeOf(low)[k]
    ensures forall p, x :: 0 <= p < |low| && SoundAt(low, p, x) ==> LastIs(CodeOf(low), at, p, x)
  {
    at := CodeTraces(low);
    forall p, x | 0 <= p < |low| ensures SoundAt(low, p, x) <==> Classes(low)[p] == Some(x) {
      SoundClassIs(low[p], p == 0, x);
    }
    forall k | 0 <= k < |at| ensures at[k] < |low| && SoundAt(low, at[k], CodeOf(low)[k]) {
      assert TakenAt(Classes(low), at[k], CodeOf(low)[k]);
    }
    forall p, x | 0 <= p < |low| && SoundAt(low, p, x) ensures LastIs(CodeOf(low), at, p, x) {
      assert TakenAt(Classes(low), p, x);
    }
  }

  /// Lowercasing a code letter or a digit, which is all the code alphabet needs of `fold`.
  ghost predicate LowersCode(fold: Fold)
  {
    && fold('K') == "k" && fold('S') == "s" && fold('T') == "t" && fold('P') == "p" && fold('F') == "f"
    && fold('M') == "m" && fold('L') == "l" && fold('R') == "r" && fold('A') == "a"
    && forall c :: '0' <= c <= '9' ==> fold(c) == [c]
  }

  lemma {:induction false} SelfClass(fold: Fold, c: char, first: bool)
    requires LowersCode(fold)
    requires c in CODE_LETTERS || '0' <= c <= '9' || (first && c == 'A')
    ensures |fold(c)| == 1 && SoundClass(fold(c)[0], first) == Some(c)
  {
  }

  lemma {:induction false} FoldLast(fold: Fold, out: string)
    requires out != [] && |fold(out[|out| - 1])| == 1
    ensures FoldAll(fold, out) == FoldAll(fold, out[..|out| - 1]) + [fold(out[|out| - 1])[0]]
  {
    var before, c := out[..|out| - 1], out[|out| - 1];
    assert out == before + [c];
    FoldAllConcat(fold, before, [c]);
    assert FoldAll(fold, [c]) == fold(c) == [fold(c)[0]];
  }

  lemma {:induction false} AppendToCode(low: string, c: char)
    ensures var mapped, before := SoundClass(c, low == []), CodeOf(low);
            CodeOf(low + [c]) == if mapped.None? || (before != [] && before[|before| - 1] == mapped.value) then before
                                 else before + [mapped.value]
  {
    assert (low + [c])[..|low|] == low;
  }

  /// Coding is a projection: a code is its own code.
  lemma {:induction false} CodeOfCode(fold: Fold, out: string)
    requires LowersCode(fold) && IsCode(out)
    ensures CodeOf(FoldAll(fold, out)) == out && |FoldAll(fold, out)| == |out|
  {
    if out != [] {
      var before, c := out[..|out| - 1], out[|out| - 1];
      CodeOfCode(fold, before);
      SelfClass(fold, c, |out| == 1);
      FoldLast(fold, out);
      var low := FoldAll(fold, before);
      assert low == [] <==> |out| == 1;
      AppendToCode(low, fold(c)[0]);
      LettersDiffer(out);
    }
  }

  lemma {:induction false} LettersDiffer(out: string)
    requires IsCode(out) && out != []
    ensures var (before, c) := (out[..|out| - 1], out[|out| - 1]);
            (before == [] || before[|before| - 1] != c) && before + [c] == out
  {
  }

  lemma {:induction false} PhoneticIsProjection(fold: Fold, s: string)
    requires LowersCode(fold)
    ensures var code := CodeOf(FoldAll(fold, s)); CodeOf(FoldAll(fold, code)) == code
  {
    CodeShape(FoldAll(fold, s));
    CodeOfCode(fold, CodeOf(FoldAll(fold, s)));
  }

  // --------------------------------------------------------------------- scores

  function Normalized(a: string, b: string): real
  {
    var len := Max(|a|, |b|);
    if len == 0 then 1.0 else 1.0 - Dist(a, b) as real / len as real
  }

  function Similarity(fold: Fold, a: string, b: string): real
  {
    0.4 * Normalized(a, b) + 0.6 * Normalized(CodeOf(FoldAll(fold, a)), CodeOf(FoldAll(fold, b)))
  }

  lemma {:induction false} NormalizedRange(a: string, b: string)
    ensures 0.0 <= Normalized(a, b) <= 1.0
    ensures Normalized(a, b) == 1.0 <==> a == b
    ensures Normalized(a, b) == Normalized(b, a)
  {
    Bounds(a, b);
    Symmetric(a, b);
    var len := Max(|a|, |b|);
    if len > 0 {
      Quotient(Dist(a, b) as real, len as real);
    }
  }

  lemma {:induction false} Quotient(d: real, len: real)
    requires 0.0 <= d <= len && 0.0 < len
    ensures 0.0 <= d / len <= 1.0
    ensures d / len == 0.0 <==> d == 0.0
  {
    assert d == (d / len) * len;
  }

  /// A score in [0, 1], symmetric, and 1 for equal strings only.
  lemma {:induction false} SimilarityRange(fold: Fold, a: string, b: string)
    ensures 0.0 <= Similarity(fold, a, b) <= 1.0
    ensures Similarity(fold, a, b) == 1.0 <==> a == b
    ensures Similarity(fold, a, b) == Similarity(fold, b, a)
  {
    NormalizedRange(a, b);
    NormalizedRange(CodeOf(FoldAll(fold, a)), CodeOf(FoldAll(fold, b)));
  }

  /// Of texts that are not both empty, the share of the longer one that need not be edited.
  lemma {:induction false} NormalizedIs(a: string, b: string)
    requires a != "" || b != ""
    ensures Normalized(a, b) * Max(|a|, |b|) as real == (Max(|a|, |b|) - Dist(a, b)) as real
  {
    var (d, len) := (Dist(a, b), Max(|a|, |b|));
    Scaled(d as real, len as real);
    assert Normalized(a, b) == 1.0 - d as real / len as real;
  }

  lemma {:induction false} Scaled(d: real, len: real)
    requires len > 0.0
    ensures (1.0 - d / len) * len == len - d
  {
    assert d / len * len == d;
  }

  ghost predicate SoundAlike(fold: Fold, a: string, b: string) { CodeOf(FoldAll(fold, a)) == CodeOf(FoldAll(fold, b)) }

  /// Their codes have to be edited in every place.
  ghost predicate SoundApart(fold: Fold, a: string, b: string)
  {
    var (c, d) := (CodeOf(FoldAll(fold, a)), CodeOf(FoldAll(fold, b)));
    Dist(c, d) == Max(|c|, |d|) && (c != "" || d != "")
  }

  lemma {:induction false} AlikeScore(fold: Fold, a: string, b: string)
    requires SoundAlike(fold, a, b)
    ensures Similarity(fold, a, b) == 1.0 - 0.4 * (1.0 - Normalized(a, b))
  {
    NormalizedRange(CodeOf(FoldAll(fold, a)), CodeOf(FoldAll(fold, b)));
  }

  lemma {:induction false} ApartScore(fold: Fold, a: string, b: string)
    requires SoundApart(fold, a, b)
    ensures Similarity(fold, a, b) == 0.4 * Normalized(a, b)
  {
    var (x, y) := (CodeOf(FoldAll(fold, a)), CodeOf(FoldAll(fold, b)));
    NormalizedIs(x, y);
    NoneLeft(Normalized(x, y), Max(|x|, |y|) as real);
  }

  /// Words that sound alike lose four tenths of their difference in spelling, and words whose codes have
  /// nothing in common have four tenths of their likeness in spelling; so any two of the first kind
  /// score more than any two of the second, however they are spelt.
  lemma {:induction false} SoundOutweighsSpelling(fold: Fold, a: string, b: string, c: string, d: string)
    requires SoundAlike(fold, a, b) && SoundApart(fold, c, d)
    ensures Similarity(fold, a, b) == 1.0 - 0.4 * (1.0 - Normalized(a, b))
    ensures Similarity(fold, c, d) == 0.4 * Normalized(c, d)
    ensures Similarity(fold, a, b) > Similarity(fold, c, d)
  {
    NormalizedRange(a, b);
    NormalizedRange(c, d);
    AlikeScore(fold, a, b);
    ApartScore(fold, c, d);
  }

  lemma {:induction false} NoneLeft(n: real, len: real)
    requires n * len == 0.0 && len > 0.0
    ensures n == 0.0
  {
  }

  // ---------------------------------------------------------------- suggestions

  function Limit(input: string): nat
  {
    Max(2, Min(|input| / 2, 3))
  }

  function Gap(fold: Fold, input: string, cand: string): nat
  {
    Dist(FoldAll(fold, input), FoldAll(fold, cand))
  }

  /// Among the first n candidates, the k-th is nearest and none before it is as near.
  ghost predicate FirstNearest(fold: Fold, input: string, candidates: seq<string>, n: nat, k: nat)
    requires k < n <= |candidates|
  {
    forall j :: 0 <= j < n ==>
      if j < k then Gap(fold, input, candidates[k]) < Gap(fold, input, candidates[j])
      else Gap(fold, input, candidates[k]) <= Gap(fold, input, candidates[j])
  }

  /// The first of the nearest candidates, provided one is within the limit.
  method Closest(fold: Fold, input: string, candidates: seq<string>) returns (r: Option<string>)
    ensures r.Some? <==> exists c :: c in candidates && Gap(fold, input, c) <= Limit(input)
    ensures r.Some? ==> exists k :: 0 <= k < |candidates| && r.value == candidates[k]
                          && FirstNearest(fold, input, candidates, |candidates|, k)
  {
    var best: Option<(string, nat)> := None;
    ghost var at := 0;
    for i := 0 to |candidates|
      invariant i == 0 ==> best == None
      invariant i > 0 ==> 0 <= at < i && FirstNearest(fold, input, candidates, i, at)
      invariant i > 0 ==> best == Some((candidates[at], Gap(fold, input, candidates[at])))
    {
      var d := EditDistance(FoldAll(fold, input), FoldAll(fold, candidates[i]));
      if best.None? || d < best.value.1 {
        best := Some((candidates[i], d));
        at := i;
      }
    }
    if best.None? {
      return None;
    }
    assert candidates[at] in candidates;
    return if best.value.1 <= Limit(input) then Some(best.value.0) else None;
  }

  /// What the documentation of the limit promises of an accepted distance.
  predicate Documented(input: string, d: nat)
  {
    d <= 3 && 2 * d < |input|
  }

  /// The candidate is near enough for `Closest`.
  predicate Accepted(fold: Fold, input: string, cand: string)
  {
    Gap(fold, input, cand) <= Limit(input)
  }

  lemma {:induction false} SameToHere(a: string, e: string, i: nat)
    requires i <= |a|
    ensures DistTo(a, i, a + e, i) == 0
  {
    if i > 0 {
      SameToHere(a, e, i - 1);
      Cell(a, i, a + e, i);
    }
  }

  lemma {:induction false} InsertedAtEnd(a: string, e: string, k: nat)
    requires k <= |e|
    ensures DistTo(a, |a|, a + e, |a| + k) <= k
  {
    if k == 0 {
      SameToHere(a, e, |a|);
    } else if a != [] {
      InsertedAtEnd(a, e, k - 1);
      Cell(a, |a|, a + e, |a| + k);
    }
  }

  /// What has been added at the end is the distance.
  lemma {:induction false} AppendingCosts(a: string, e: string)
    ensures Dist(a, a + e) == |e|
  {
    InsertedAtEnd(a, e, |e|);
    Bounds(a, a + e);
  }

  /// n times c.
  function Repeated(c: char, n: nat): (r: string)
    ensures |r| == n
  {
    seq(n, _ => c)
  }

  lemma {:induction false} FoldOfRepeated(fold: Fold, c: char, n: nat)
    requires |fold(c)| == 1
    ensures |FoldAll(fold, Repeated(c, n))| == n
  {
    if n > 0 {
      assert Repeated(c, n)[1..] == Repeated(c, n - 1);
      FoldOfRepeated(fold, c, n - 1);
    }
  }

  /// A candidate at any distance: the input with so many more characters.
  lemma {:induction false} Padded(fold: Fold, input: string, c: char, n: nat)
    requires |fold(c)| == 1
    ensures Gap(fold, input, input + Repeated(c, n)) == n
  {
    FoldAllConcat(fold, input, Repeated(c, n));
    FoldOfRepeated(fold, c, n);
    AppendingCosts(FoldAll(fold, input), FoldAll(fold, Repeated(c, n)));
  }

  /// The code's limit is never below 2, so every candidate it accepts is as near as documented
  /// exactly for inputs of length 5 or above 6. (All that is asked of lower-casing is that some
  /// character lower-cases to one.)
  lemma {:induction false} LimitAgainstDocumentation(fold: Fold, input: string, c: char)
    requires |fold(c)| == 1
    ensures (forall cand :: Accepted(fold, input, cand) ==> Documented(input, Gap(fold, input, cand)))
            <==> |input| == 5 || |input| >= 7
  {
    var far := input + Repeated(c, Limit(input));
    Padded(fold, input, c, Limit(input));
    assert Accepted(fold, input, far);
    assert Documented(input, Limit(input)) <==> |input| == 5 || |input| >= 7;
  }

  /// One of the others: "xy" is offered for "ab", at a distance of twice the promised bound.
  lemma {:induction false} UnrelatedSuggestion(fold: Fold)
    requires fold('a') == "a" && fold('b') == "b" && fold('x') == "x" && fold('y') == "y"
    ensures Accepted(fold, "ab", "xy") && !Documented("ab", Gap(fold, "ab", "xy"))
  {
    Pair(fold, 'a', 'b');
    Pair(fold, 'x', 'y');
    Bounds("ab", "xy");
    assert "ab"[0] != "xy"[0];
  }

  lemma {:induction false} Pair(fold: Fold, x: char, y: char)
    requires fold(x) == [x] && fold(y) == [y]
    ensures FoldAll(fold, [x, y]) == [x, y]
  {
    assert [x, y][1..] == [y] && [y][1..] == [];
    assert FoldAll(fold, [y]) == fold(y) + FoldAll(fold, []);
  }

  /// So a one- or two-letter input is offered any candidate as short, however unrelated.
  lemma {:induction false} ShortInputAcceptsAnything(fold: Fold, input: string, cand: string)
    requires |FoldAll(fold, input)| <= 2 && |FoldAll(fold, cand)| <= 2
    ensures Gap(fold, input, cand) <= Limit(input)
  {
    Bounds(FoldAll(fold, input), FoldAll(fold, cand));
  }
}
