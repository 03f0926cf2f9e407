// What trimming leaves of a text when characters are added or taken away at its ends.

module Trimming {
  import opened Text

  /// s[a..b] is s without the white space around it.
  predicate Core(s: string, a: nat, b: nat)
  {
    && a <= b <= |s|
    && (forall i :: 0 <= i < a ==> IsSpace(s[i]))
    && (forall i :: b <= i < |s| ==> IsSpace(s[i]))
    && (a < b ==> !IsSpace(s[a]) && !IsSpace(s[b - 1]))
  }

  lemma {:induction false} SkipIs(s: string, i: nat, a: nat)
    requires i <= a <= |s| && (a < |s| ==> !IsSpace(s[a])) && forall k :: i <= k < a ==> IsSpace(s[k])
    ensures Skip(s, i) == a
    decreases a - i
  {
    if i < a { SkipIs(s, i + 1, a); }
  }

  lemma {:induction false} BackIs(s: string, from: nat, i: nat, b: nat)
    requires from <= b <= i <= |s| && (from < b ==> !IsSpace(s[b - 1])) && forall k :: b <= k < i ==> IsSpace(s[k])
    ensures Back(s, from, i) == b
  {
    if b < i { BackIs(s, from, i - 1, b); }
  }

  lemma {:induction false} CoreIsTrim(s: string, a: nat, b: nat)
    requires Core(s, a, b)
    ensures Trim(s) == s[a..b]
  {
    if a < b {
      SkipIs(s, 0, a);
      BackIs(s, a, |s|, b);
    } else {
      SkipIs(s, 0, |s|);
    }
  }

  lemma {:induction false} SkipSkips(s: string, i: nat)
    requires i <= |s|
    ensures forall k :: i <= k < Skip(s, i) ==> IsSpace(s[k])
    ensures Skip(s, i) < |s| ==> !IsSpace(s[Skip(s, i)])
    decreases |s| - i
  {
    if i < |s| && IsSpace(s[i]) { SkipSkips(s, i + 1); }
  }

  lemma {:induction false} BackSkips(s: string, from: nat, i: nat)
    requires from <= i <= |s|
    ensures forall k :: Back(s, from, i) <= k < i ==> IsSpace(s[k])
    ensures from < Back(s, from, i) ==> !IsSpace(s[Back(s, from, i) - 1])
  {
    if from < i && IsSpace(s[i - 1]) { BackSkips(s, from, i - 1); }
  }

  lemma {:induction false} TrimCore(s: string) returns (a: nat, b: nat)
    ensures Core(s, a, b) && Trim(s) == s[a..b]
  {
    a := Skip(s, 0);
    b := Back(s, a, |s|);
    SkipSkips(s, 0);
    BackSkips(s, a, |s|);
  }

  /// No white space at either end.
  predicate Trimmed(t: string) { t != [] ==> !IsSpace(t[0]) && !IsSpace(t[|t| - 1]) }

  lemma {:induction false} TrimTrims(u: string)
    ensures Trimmed(Trim(u))
  {
    var a, b := TrimCore(u);
  }

  lemma {:induction false} TrimmedStays(t: string)
    requires Trimmed(t)
    ensures Trim(t) == t
  {
    CoreIsTrim(t, 0, |t|);
  }

  /// More than white space added at the end changes what is left after trimming.
  lemma {:induction false} TailShows(x: string, w: string, k: nat)
    requires k < |w| && !IsSpace(w[k])
    ensures Trim(x + w) != Trim(x)
  {
    var s := x + w;
    var a, b := TrimCore(s);
    var c, d := TrimCore(x);
    assert !IsSpace(s[|x| + k]);
    assert b > |x| + k;
    if c < d {
      assert s[c] == x[c];
      assert a == c;
    }
  }

  lemma {:induction false} HeadShows(w: string, y: string, k: nat)
    requires k < |w| && !IsSpace(w[k])
    ensures Trim(w + y) != Trim(y)
  {
    var s := w + y;
    var a, b := TrimCore(s);
    var c, d := TrimCore(y);
    assert !IsSpace(s[k]);
    assert a <= k;
    if c < d {
      assert s[|w| + d - 1] == y[d - 1];
      assert b >= |w| + d;
    }
  }

  /// One character less at the end changes it, unless that character is white space.
  lemma {:induction false} LessAtEnd(x: string)
    requires x != []
    ensures Trim(x[..|x| - 1]) == Trim(x) <==> IsSpace(x[|x| - 1])
  {
    var rest, c := x[..|x| - 1], x[|x| - 1];
    assert x == rest + [c];
    if IsSpace(c) {
      var a, b := TrimCore(rest);
      MoreSpace(rest, c, a, b);
    } else {
      TailShows(rest, [c], 0);
    }
  }

  lemma {:induction false} MoreSpace(x: string, c: char, a: nat, b: nat)
    requires IsSpace(c) && Core(x, a, b)
    ensures Trim(x + [c]) == x[a..b]
  {
    if a == b {
      CoreIsTrim(x + [c], 0, 0);
    } else {
      CoreIsTrim(x + [c], a, b);
      assert (x + [c])[a..b] == x[a..b];
    }
  }

  lemma {:induction false} LessAtStart(y: string)
    requires y != []
    ensures Trim(y[1..]) == Trim(y) <==> IsSpace(y[0])
  {
    var rest, c := y[1..], y[0];
    assert y == [c] + rest;
    if IsSpace(c) {
      var a, b := TrimCore(rest);
      SpaceBefore(rest, c, a, b);
    } else {
      HeadShows([c], rest, 0);
    }
  }

  lemma {:induction false} SpaceBefore(y: string, c: char, a: nat, b: nat)
    requires IsSpace(c) && Core(y, a, b)
    ensures Trim([c] + y) == y[a..b]
  {
    var s := [c] + y;
    forall i | 0 <= i < a + 1 ensures IsSpace(s[i]) {
      if i > 0 { assert s[i] == y[i - 1]; }
    }
    forall i | b + 1 <= i < |s| ensures IsSpace(s[i]) { assert s[i] == y[i - 1]; }
    CoreIsTrim(s, a + 1, b + 1);
    assert s[1..] == y;
    assert s[1..][a..b] == s[a + 1..b + 1];
  }

  /// A text that does not end in white space is cut short by any cut.
  lemma {:induction false} CutShows(y: string, n: nat)
    requires n < |y| && !IsSpace(y[|y| - 1])
    ensures Trim(y[..n]) != Trim(y)
  {
    assert y == y[..n] + y[n..];
    assert y[n..][|y| - 1 - n] == y[|y| - 1];
    TailShows(y[..n], y[n..], |y| - 1 - n);
  }
}
