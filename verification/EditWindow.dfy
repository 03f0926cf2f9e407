// The changed window of an edit and the consistency check on it (crates/diag/src/replay.rs).

module EditWindow {
  datatype Window = Window(start: nat, removed: nat, inserted: nat)

  function Min(x: nat, y: nat): nat { if x < y then x else y }

  /// Length of the longest common prefix.
  function PrefixLen(b: string, a: string): (p: nat)
    ensures p <= |b| && p <= |a| && b[..p] == a[..p]
    ensures p < |b| && p < |a| ==> b[p] != a[p]
    decreases |b|
  {
    if b == [] || a == [] || b[0] != a[0] then 0 else 1 + PrefixLen(b[1..], a[1..])
  }

  /// How many of at most `most` characters agree, counted back from the two ends.
  function SuffixLen(b: string, a: string, most: nat): (s: nat)
    requires most <= |b| && most <= |a|
    ensures s <= most && b[|b| - s..] == a[|a| - s..]
    ensures s < most ==> b[|b| - s - 1] != a[|a| - s - 1]
    decreases most
  {
    if most == 0 || b[|b| - 1] != a[|a| - 1] then 0
    else
      var s := SuffixLen(b[..|b| - 1], a[..|a| - 1], most - 1);
      EndsWith(b, a, s);
      1 + s
  }

  lemma {:induction false} EndsWith(b: string, a: string, s: nat)
    requires b != [] && a != [] && s < |b| && s < |a| && b[|b| - 1] == a[|a| - 1]
    requires b[..|b| - 1][|b| - 1 - s..] == a[..|a| - 1][|a| - 1 - s..]
    ensures b[|b| - 1 - s..] == a[|a| - 1 - s..]
  {
    assert b[|b| - 1 - s..] == b[..|b| - 1][|b| - 1 - s..] + [b[|b| - 1]];
    assert a[|a| - 1 - s..] == a[..|a| - 1][|a| - 1 - s..] + [a[|a| - 1]];
  }

  function Suffix(before: string, after: string): (s: nat)
    ensures PrefixLen(before, after) + s <= Min(|before|, |after|)
  {
    SuffixLen(before, after, Min(|before|, |after|) - PrefixLen(before, after))
  }

  function EditWindow(before: string, after: string): Window
  {
    var prefix, suffix := PrefixLen(before, after), Suffix(before, after);
    Window(prefix, |before| - prefix - suffix, |after| - prefix - suffix)
  }

  /// before = prefix . removed . suffix and after = prefix . inserted . suffix.
  ghost predicate Splits(before: string, after: string, w: Window)
  {
    && w.start + w.removed <= |before| && w.start + w.inserted <= |after|
    && before[..w.start] == after[..w.start]
    && before[w.start + w.removed..] == after[w.start + w.inserted..]
  }

  lemma {:induction false} PrefixIsLongest(b: string, a: string, n: nat)
    requires n <= |b| && n <= |a| && b[..n] == a[..n]
    ensures n <= PrefixLen(b, a)
    decreases n
  {
    if n > 0 {
      assert b[0] == b[..n][0] && a[0] == a[..n][0];
      assert b[1..][..n - 1] == b[..n][1..] && a[1..][..n - 1] == a[..n][1..];
      PrefixIsLongest(b[1..], a[1..], n - 1);
    }
  }

  lemma {:induction false} SuffixIsLongest(b: string, a: string, most: nat, n: nat)
    requires n <= most <= |b| && most <= |a| && b[|b| - n..] == a[|a| - n..]
    ensures n <= SuffixLen(b, a, most)
    decreases n
  {
    if n > 0 {
      EndOf(b, n);
      EndOf(a, n);
      SuffixIsLongest(b[..|b| - 1], a[..|a| - 1], most - 1, n - 1);
    }
  }

  /// The last n characters are the last and the n - 1 before it.
  lemma {:induction false} EndOf(s: string, n: nat)
    requires 0 < n <= |s|
    ensures s[|s| - n..][n - 1] == s[|s| - 1]
    ensures var init := s[..|s| - 1]; init[|init| - (n - 1)..] == s[|s| - n..][..n - 1]
  {
  }

  lemma {:induction false} WindowSplits(before: string, after: string)
    ensures Splits(before, after, EditWindow(before, after))
  {
  }

  /// The window reconstructs the edit, and no window that does leaves more untouched at the front,
  /// nor, starting at the same place, more at the back.
  lemma {:induction false} WindowIsExact(before: string, after: string)
    ensures var w := EditWindow(before, after);
            && Splits(before, after, w)
            && after == before[..w.start] + after[w.start..w.start + w.inserted] + before[w.start + w.removed..]
            && (forall v: Window :: Splits(before, after, v) ==> v.start <= w.start)
            && (forall v: Window :: Splits(before, after, v) && v.start == w.start ==> w.removed <= v.removed)
  {
    var w := EditWindow(before, after);
    WindowSplits(before, after);
    Reconstructs(before, after, w);
    forall v: Window | Splits(before, after, v)
      ensures v.start <= w.start
    {
      PrefixIsLongest(before, after, v.start);
    }
    forall v: Window | Splits(before, after, v) && v.start == w.start
      ensures w.removed <= v.removed
    {
      LessIsRemoved(before, after, v);
    }
  }

  lemma {:induction false} Reconstructs(before: string, after: string, w: Window)
    requires Splits(before, after, w)
    ensures after == before[..w.start] + after[w.start..w.start + w.inserted] + before[w.start + w.removed..]
  {
  }

  lemma {:induction false} LessIsRemoved(before: string, after: string, v: Window)
    requires Splits(before, after, v) && v.start == PrefixLen(before, after)
    ensures EditWindow(before, after).removed <= v.removed
  {
    var kept, most := |before| - v.start - v.removed, Min(|before|, |after|) - v.start;
    assert |before[v.start + v.removed..]| == |after[v.start + v.inserted..]|;
    SuffixIsLongest(before, after, most, kept);
  }

  /// Nothing changed exactly when the window is empty on both sides, and then it stands at the end of
  /// the text. The documented window (0, 0, 0) is that of two empty texts only.
  lemma {:induction false} EmptyWindow(before: string, after: string)
    ensures before == after <==> EditWindow(before, after).removed == 0 && EditWindow(before, after).inserted == 0
    ensures before == after <==> EditWindow(before, after) == Window(|before|, 0, 0)
    ensures before == after ==> (EditWindow(before, after) == Window(0, 0, 0) <==> before == "")
    ensures EditWindow(before, after) == Window(0, 0, 0) ==> before == after == ""
  {
    WindowIsExact(before, after);
    if before == after {
      assert Splits(before, after, Window(|before|, 0, 0));
    }
  }

  // ------------------------------------------------------------- the consistency check

  // usize of a 64-bit build
  const LIMIT: nat := 0x1_0000_0000_0000_0000

  datatype Transform = Transform(beforeChars: nat, afterChars: nat, start: nat, removed: nat, inserted: nat)

  /// Subtraction that would go below zero, or an overflow, stops a checked build; an unchecked one
  /// wraps around.
  datatype Verdict = Consistent | Inconsistent | Overflowed

  function Checked(t: Transform): Verdict
  {
    if t.removed > t.beforeChars then Overflowed
    else if t.beforeChars - t.removed + t.inserted >= LIMIT then Overflowed
    else if t.beforeChars - t.removed + t.inserted != t.afterChars then Inconsistent
    else if t.start + t.removed >= LIMIT then Overflowed
    else if t.start + t.removed > t.beforeChars then Inconsistent
    else Consistent
  }

  function Wrapping(t: Transform): Verdict
  {
    if (t.beforeChars - t.removed + t.inserted) % LIMIT != t.afterChars then Inconsistent
    else if (t.start + t.removed) % LIMIT > t.beforeChars then Inconsistent
    else Consistent
  }

  function RecordTransform(before: string, after: string): Transform
  {
    var w := EditWindow(before, after);
    Transform(|before|, |after|, w.start, w.removed, w.inserted)
  }

  /// Every transform recorded from two real texts passes, in both kinds of build.
  lemma {:induction false} RecordedIsConsistent(before: string, after: string)
    requires |before| < LIMIT && |after| < LIMIT
    ensures Checked(RecordTransform(before, after)) == Consistent
    ensures Wrapping(RecordTransform(before, after)) == Consistent
  {
    var t := RecordTransform(before, after);
    WindowSplits(before, after);
    Wrapped(t.beforeChars - t.removed + t.inserted);
    Wrapped(t.start + t.removed);
  }

  /// A geometry that the record of some edit has.
  ghost predicate Possible(t: Transform)
  {
    exists before, after :: RecordTransform(before, after) == t
  }

  /// The window lies in the text, and the lengths add up.
  predicate Adds(t: Transform)
  {
    t.start + t.removed <= t.beforeChars && t.beforeChars - t.removed + t.inserted == t.afterChars
  }

  /// A window of nothing, somewhere before the end.
  predicate Idle(t: Transform) { t.removed == 0 && t.inserted == 0 && t.start < t.beforeChars }

  predicate Fits(t: Transform)
  {
    t.beforeChars < LIMIT && t.afterChars < LIMIT && t.start < LIMIT && t.removed < LIMIT && t.inserted < LIMIT
  }

  lemma {:induction false} PrefixIs(b: string, a: string, n: nat)
    requires n <= |b| && n <= |a| && b[..n] == a[..n] && (n == |b| || n == |a| || b[n] != a[n])
    ensures PrefixLen(b, a) == n
  {
    PrefixIsLongest(b, a, n);
  }

  lemma {:induction false} SuffixIs(b: string, a: string, most: nat, n: nat)
    requires n <= most <= |b| && most <= |a| && b[|b| - n..] == a[|a| - n..]
    requires n == most || b[|b| - n - 1] != a[|a| - n - 1]
    ensures SuffixLen(b, a, most) == n
  {
    SuffixIsLongest(b, a, most, n);
  }

  lemma {:induction false} WindowIs(b: string, a: string, p: nat, n: nat)
    requires p + n <= |b| && p + n <= |a|
    requires b[..p] == a[..p] && (p == |b| || p == |a| || b[p] != a[p])
    requires b[|b| - n..] == a[|a| - n..]
    requires p + n == |b| || p + n == |a| || b[|b| - n - 1] != a[|a| - n - 1]
    ensures EditWindow(b, a) == Window(p, |b| - p - n, |a| - p - n)
  {
    PrefixIs(b, a, p);
    SuffixIs(b, a, Min(|b|, |a|) - p, n);
  }

  /// n characters: a's, then a middle of the given letter, then d's.
  function Sample(n: nat, start: nat, middle: nat, letter: char): (r: string)
    ensures |r| == n
    ensures forall i :: 0 <= i < n ==> r[i] == if i < start then 'a' else if i < start + middle then letter else 'd'
  {
    seq(n, i => if i < start then 'a' else if i < start + middle then letter else 'd')
  }

  /// Texts with a given geometry.
  lemma {:induction false} Witness(t: Transform)
    requires Adds(t) && !Idle(t)
    ensures Possible(t)
  {
    var before := Sample(t.beforeChars, t.start, t.removed, 'b');
    var after := Sample(t.afterChars, t.start, t.inserted, 'c');
    WindowIs(before, after, t.start, t.beforeChars - t.start - t.removed);
    assert RecordTransform(before, after) == t;
  }

  lemma {:induction false} RecordedAdds(before: string, after: string)
    ensures Adds(RecordTransform(before, after)) && !Idle(RecordTransform(before, after))
  {
    WindowSplits(before, after);
    EmptyWindow(before, after);
    if before == after {
      PrefixIs(before, after, |before|);
    }
  }

  /// Exactly the geometries that add up, except a window of nothing before the end.
  lemma {:induction false} PossibleIff(t: Transform)
    ensures Possible(t) <==> Adds(t) && !Idle(t)
  {
    if Possible(t) {
      var before, after :| RecordTransform(before, after) == t;
      RecordedAdds(before, after);
    }
    if Adds(t) && !Idle(t) {
      Witness(t);
    }
  }

  /// The test, where overflow stops it, accepts the record of every edit; and besides those only a
  /// window of nothing in the wrong place.
  lemma {:induction false} CheckIsExact(t: Transform)
    requires Fits(t)
    ensures Checked(t) == Consistent <==> Possible(t) || (Idle(t) && t.beforeChars == t.afterChars)
  {
    PossibleIff(t);
  }

  predicate InRange(x: int) { 0 <= x < LIMIT }

  /// Where the checked build gets to an answer the unchecked one gives the same; it is stopped by the
  /// first sum if that is out of range, and else by the second if that is and the lengths add up.
  lemma {:induction false} BuildsAgree(t: Transform)
    requires Fits(t)
    ensures Checked(t) != Overflowed ==> Wrapping(t) == Checked(t)
    ensures Checked(t) == Overflowed <==>
              || t.removed > t.beforeChars || !InRange(t.beforeChars - t.removed + t.inserted)
              || (t.beforeChars + t.inserted == t.afterChars + t.removed && !InRange(t.start + t.removed))
  {
    Wrapped(t.beforeChars - t.removed + t.inserted);
    Wrapped(t.start + t.removed);
  }

  /// Two records of no edit: one is accepted, and one makes the test overflow before it has looked
  /// at the window.
  lemma {:induction false} ImpossibleRecords()
    ensures !Possible(Transform(5, 5, 0, 0, 0)) && Checked(Transform(5, 5, 0, 0, 0)) == Consistent
    ensures !Possible(Transform(0, 0, 0, 1, 1)) && Checked(Transform(0, 0, 0, 1, 1)) == Overflowed
  {
    PossibleIff(Transform(5, 5, 0, 0, 0));
    PossibleIff(Transform(0, 0, 0, 1, 1));
  }

  /// Where arithmetic wraps around, the test accepts the record of every edit too; and of the records
  /// it accepts, those of no edit are the windows of nothing in the wrong place and those for which
  /// one of the two sums wraps.
  lemma {:induction false} WrappingIsExact(t: Transform)
    requires Fits(t)
    ensures Possible(t) ==> Wrapping(t) == Consistent
    ensures Wrapping(t) == Consistent ==>
              (!Possible(t) <==> Idle(t) || t.start + t.removed >= LIMIT || t.beforeChars - t.removed + t.inserted >= LIMIT)
  {
    PossibleIff(t);
    Wrapped(t.beforeChars - t.removed + t.inserted);
    Wrapped(t.start + t.removed);
  }

  lemma {:induction false} Wrapped(x: int)
    requires 0 < x + LIMIT && x < 2 * LIMIT
    ensures x % LIMIT == if x < 0 then x + LIMIT else if x < LIMIT then x else x - LIMIT
  {
  }

  /// Such a record, accepted because its window wraps around.
  lemma {:induction false} WrappedWindowAccepted()
    ensures var t := Transform(5, 5, LIMIT - 1, 1, 1); Fits(t) && !Possible(t) && Wrapping(t) == Consistent
  {
    PossibleIff(Transform(5, 5, LIMIT - 1, 1, 1));
    Wrapped(5);
    Wrapped(LIMIT);
  }
}
