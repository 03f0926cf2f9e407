// Tidying up after a deletion (`collapse_spaces` in crates/edit-intent/src/lib.rs).

module CollapseSpaces {
  import opened Common
  import opened Text
  import opened Trimming
  import FoldReplace

  /// Runs of spaces made single.
  function Squeeze(s: string): string
  {
    if |s| < 2 then s
    else
      var init := s[..|s| - 1];
      if s[|s| - 1] == ' ' && s[|s| - 2] == ' ' then Squeeze(init) else Squeeze(init) + [s[|s| - 1]]
  }

  /// `replace` of a space before c by c alone.
  function Drop(s: string, c: char): string
  {
    if |s| < 2 then s
    else if s[0] == ' ' && s[1] == c then Drop(s[1..], c)
    else [s[0]] + Drop(s[1..], c)
  }

  /// The three passes before the trim.
  function Passes(s: string): string { Drop(Drop(Squeeze(s), ','), '.') }

  /// What `collapse_spaces` computes.
  function Collapse(s: string): string { Trim(Passes(s)) }

  method CollapseSpaces(text: string) returns (r: string)
    ensures r == Collapse(text)
  {
    var out := "";
    var lastWasSpace := false;
    for i := 0 to |text|
      invariant out == Squeeze(text[..i])
      invariant lastWasSpace <==> i > 0 && text[i - 1] == ' '
    {
      var isSpace := text[i] == ' ';
      assert text[..i + 1][..i] == text[..i];
      if !(isSpace && lastWasSpace) {
        out := out + [text[i]];
        lastWasSpace := isSpace;
      }
    }
    assert text[..|text|] == text;
    r := Trim(Drop(Drop(out, ','), '.'));
  }

  /// No space stands directly before c.
  predicate Free(s: string, c: char)
  {
    forall i :: 0 <= i < |s| - 1 ==> !(s[i] == ' ' && s[i + 1] == c)
  }

  /// Single spaces, none before a comma or a full stop, none at the ends.
  predicate Canonical(s: string)
  {
    Free(s, ' ') && Free(s, ',') && Free(s, '.') && Trim(s) == s
  }

  lemma {:induction false} SqueezeFrees(s: string)
    ensures Free(Squeeze(s), ' ')
    ensures s != [] ==> Squeeze(s) != [] && Squeeze(s)[|Squeeze(s)| - 1] == s[|s| - 1]
    ensures Free(s, ' ') ==> Squeeze(s) == s
    decreases |s|
  {
    if |s| >= 2 {
      var init := s[..|s| - 1];
      SqueezeFrees(init);
      assert s == init + [s[|s| - 1]];
      assert Free(s, ' ') ==> Free(init, ' ');
    }
  }

  lemma {:induction false} FreeTail(s: string, c: char)
    requires s != [] && Free(s, c)
    ensures Free(s[1..], c)
  {
  }

  lemma {:induction false} FreeCons(x: char, rest: string, c: char)
    requires Free(rest, c) && (rest != [] ==> !(x == ' ' && rest[0] == c))
    ensures Free([x] + rest, c)
  {
  }

  lemma {:induction false} DropFrees(s: string, c: char, d: char)
    requires Free(s, ' ') && c != ' '
    ensures var r := Drop(s, c);
            && Free(r, ' ') && Free(r, c) && (Free(s, d) ==> Free(r, d))
            && (s != [] ==> r != [] && (s[0] != ' ' ==> r[0] == s[0]))
    decreases |s|
  {
    if |s| >= 2 {
      var rest := s[1..];
      FreeTail(s, ' ');
      if Free(s, d) { FreeTail(s, d); }
      DropFrees(rest, c, d);
      if !(s[0] == ' ' && s[1] == c) {
        var r := Drop(rest, c);
        assert !(s[0] == ' ' && s[1] == ' ');
        FreeCons(s[0], r, ' ');
        FreeCons(s[0], r, c);
        if Free(s, d) {
          assert !(s[0] == ' ' && s[1] == d);
          FreeCons(s[0], r, d);
        }
      }
    }
  }

  lemma {:induction false} DropsNothing(s: string, c: char)
    requires Free(s, c)
    ensures Drop(s, c) == s
    decreases |s|
  {
    if |s| >= 2 {
      FreeTail(s, c);
      DropsNothing(s[1..], c);
      assert !(s[0] == ' ' && s[1] == c);
      assert s == [s[0]] + s[1..];
    }
  }

  lemma {:induction false} TrimFrees(s: string, c: char)
    requires Free(s, c)
    ensures Free(Trim(s), c)
  {
  }

  lemma {:induction false} TrimTwice(s: string)
    ensures Trim(Trim(s)) == Trim(s)
  {
    TrimTrims(s);
    TrimmedStays(Trim(s));
  }

  // ---- What goes ------------------------------------------------------------------------------------

  predicate AllSpace(s: string, i: nat, j: nat)
    requires i <= j <= |s|
  {
    forall k :: i <= k < j ==> IsSpace(s[k])
  }

  /// A space directly before a space, a comma or a full stop.
  predicate Spare(s: string, i: nat)
    requires i < |s|
  {
    s[i] == ' ' && i + 1 < |s| && (s[i + 1] == ' ' || s[i + 1] == ',' || s[i + 1] == '.')
  }

  /// What tidying takes away: spare spaces, and the white space at the two ends.
  predicate Gone(s: string, i: nat)
    requires i < |s|
  {
    Spare(s, i) || AllSpace(s, 0, i + 1) || AllSpace(s, i, |s|)
  }

  /// What is left of s[i..j].
  function Left(s: string, i: nat, j: nat): string
    requires i <= j <= |s|
  {
    if i == j then [] else Left(s, i, j - 1) + (if Gone(s, j - 1) then [] else [s[j - 1]])
  }

  /// What is left of s[i..j] when only spare spaces go.
  function Unspared(s: string, i: nat, j: nat): string
    requires i <= j <= |s|
  {
    if i == j then [] else Unspared(s, i, j - 1) + (if Spare(s, j - 1) then [] else [s[j - 1]])
  }

  lemma {:induction false} SqueezeCons(x: char, rest: string)
    requires rest != []
    ensures Squeeze([x] + rest) == if x == ' ' && rest[0] == ' ' then Squeeze(rest) else [x] + Squeeze(rest)
    decreases |rest|
  {
    var s := [x] + rest;
    var n := |rest| - 1;
    assert s[..|s| - 1] == [x] + rest[..n];
    if n > 0 {
      SqueezeCons(x, rest[..n]);
    } else {
      assert rest == [rest[0]] && [x] + rest[..n] == [x];
    }
  }

  /// The three passes, character by character.
  lemma {:induction false} PassesCons(x: char, rest: string)
    requires rest != []
    ensures Passes([x] + rest)
            == if x == ' ' && (rest[0] == ' ' || rest[0] == ',' || rest[0] == '.') then Passes(rest) else [x] + Passes(rest)
  {
    var squeezed := Squeeze(rest);
    var once := Drop(squeezed, ',');
    SqueezeCons(x, rest);
    SqueezeStarts(rest);
    SqueezeFrees(rest);
    DropStarts(squeezed, ',');
    DropCons(x, squeezed, ',');
    DropCons(x, once, '.');
  }

  lemma {:induction false} DropStarts(s: string, c: char)
    requires s != [] && Free(s, ' ') && c != ' '
    ensures Drop(s, c) != [] && (s[0] != ' ' ==> Drop(s, c)[0] == s[0])
  {
    DropFrees(s, c, c);
  }

  lemma {:induction false} SqueezeStarts(s: string)
    requires s != []
    ensures Squeeze(s) != [] && Squeeze(s)[0] == s[0]
    decreases |s|
  {
    if |s| >= 2 { SqueezeStarts(s[..|s| - 1]); }
  }

  lemma {:induction false} DropCons(x: char, t: string, c: char)
    requires t != []
    ensures Drop([x] + t, c) == if x == ' ' && t[0] == c then Drop(t, c) else [x] + Drop(t, c)
  {
    assert ([x] + t)[1..] == t;
  }

  lemma {:induction false} UnsparedSplits(s: string, i: nat, j: nat, k: nat)
    requires i <= j <= k <= |s|
    ensures Unspared(s, i, k) == Unspared(s, i, j) + Unspared(s, j, k)
    decreases k
  {
    if j < k {
      UnsparedSplits(s, i, j, k - 1);
    }
  }

  /// They take away exactly the spare spaces.
  lemma {:induction false} PassesLeave(s: string, i: nat)
    requires i <= |s|
    ensures Passes(s[i..]) == Unspared(s, i, |s|)
    decreases |s| - i
  {
    if i < |s| {
      var next := i + 1;
      PassesLeave(s, next);
      UnsparedCons(s, i, next);
      if next < |s| {
        assert s[i..] == [s[i]] + s[next..];
        PassesCons(s[i], s[next..]);
      } else {
        assert s[i..] == [s[i]];
      }
    }
  }

  lemma {:induction false} UnsparedCons(s: string, i: nat, next: nat)
    requires i < |s| && next == i + 1
    ensures Unspared(s, i, |s|) == (if Spare(s, i) then [] else [s[i]]) + Unspared(s, next, |s|)
  {
    UnsparedSplits(s, i, next, |s|);
    assert Unspared(s, i, next) == Unspared(s, i, i) + (if Spare(s, i) then [] else [s[i]]);
  }

  lemma {:induction false} SpaceLeft(s: string, i: nat, j: nat)
    requires i <= j <= |s| && AllSpace(s, i, j)
    ensures AllSpace(Unspared(s, i, j), 0, |Unspared(s, i, j)|)
  {
    if i < j { SpaceLeft(s, i, j - 1); }
  }

  lemma {:induction false} AroundCore(a: string, core: string, b: string)
    requires AllSpace(a, 0, |a|) && AllSpace(b, 0, |b|)
    requires core != [] ==> !IsSpace(core[0]) && !IsSpace(core[|core| - 1])
    ensures Trim(a + core + b) == core
  {
    var s := a + core + b;
    forall i | 0 <= i < |a| ensures IsSpace(s[i]) { assert s[i] == a[i]; }
    forall i | |a| + |core| <= i < |s| ensures IsSpace(s[i]) { assert s[i] == b[i - |a| - |core|]; }
    if core == [] {
      CoreIsTrim(s, 0, 0);
    } else {
      CoreIsTrim(s, |a|, |a| + |core|);
      assert s[|a|..|a| + |core|] == core;
    }
  }

  lemma {:induction false} SameLeft(s: string, i: nat, j: nat)
    requires i <= j <= |s| && forall k :: i <= k < j ==> (Gone(s, k) <==> Spare(s, k))
    ensures Left(s, i, j) == Unspared(s, i, j)
  {
    if i < j { SameLeft(s, i, j - 1); }
  }

  lemma {:induction false} NoneLeft(s: string, i: nat, j: nat)
    requires i <= j <= |s| && forall k :: i <= k < j ==> Gone(s, k)
    ensures Left(s, i, j) == []
  {
    if i < j { NoneLeft(s, i, j - 1); }
  }

  lemma {:induction false} LeftSplits(s: string, i: nat, j: nat, k: nat)
    requires i <= j <= k <= |s|
    ensures Left(s, i, k) == Left(s, i, j) + Left(s, j, k)
    decreases k
  {
    if j < k {
      LeftSplits(s, i, j, k - 1);
    }
  }

  lemma {:induction false} GoneIsSpace(s: string, i: nat)
    requires i < |s| && Gone(s, i)
    ensures IsSpace(s[i])
  {
  }

  /// Exactly that is taken away, and everything else stays, in order. It is all white space.
  lemma {:induction false} CollapseLeaves(s: string)
    ensures Collapse(s) == Left(s, 0, |s|)
    ensures forall i :: 0 <= i < |s| && Gone(s, i) ==> IsSpace(s[i])
  {
    PassesLeave(s, 0);
    assert s[0..] == s;
    TrimLeaves(s);
    forall i | 0 <= i < |s| && Gone(s, i) ensures IsSpace(s[i]) { GoneIsSpace(s, i); }
  }

  lemma {:induction false} TrimLeaves(s: string)
    ensures Trim(Unspared(s, 0, |s|)) == Left(s, 0, |s|)
  {
    var a := Skip(s, 0);
    var b := Back(s, a, |s|);
    SkipSkips(s, 0);
    BackSkips(s, a, |s|);
    Ends(s, a, b);
  }

  /// The middle from a to b begins and ends with other characters, or is empty.
  lemma {:induction false} Ends(s: string, a: nat, b: nat)
    requires a <= b <= |s| && AllSpace(s, 0, a) && AllSpace(s, b, |s|)
    requires a < |s| ==> !IsSpace(s[a])
    requires a < b ==> !IsSpace(s[b - 1])
    ensures Trim(Unspared(s, 0, |s|)) == Left(s, 0, |s|)
  {
    var lead, core, tail := Unspared(s, 0, a), Unspared(s, a, b), Unspared(s, b, |s|);
    UnsparedSplits(s, 0, a, |s|);
    UnsparedSplits(s, a, b, |s|);
    Regroup(lead, core, tail);
    SpaceLeft(s, 0, a);
    SpaceLeft(s, b, |s|);
    CoreEnds(s, a, b);
    AroundCore(lead, core, tail);
    MiddleLeft(s, a, b);
  }

  lemma {:induction false} MiddleLeft(s: string, a: nat, b: nat)
    requires a <= b <= |s| && AllSpace(s, 0, a) && AllSpace(s, b, |s|)
    requires a < b ==> !IsSpace(s[a]) && !IsSpace(s[b - 1])
    ensures Left(s, 0, |s|) == Unspared(s, a, b)
  {
    LeftSplits(s, 0, a, |s|);
    LeftSplits(s, a, b, |s|);
    NoneLeft(s, 0, a);
    NoneLeft(s, b, |s|);
    SameLeft(s, a, b);
  }

  lemma {:induction false} CoreEnds(s: string, a: nat, b: nat)
    requires a <= b <= |s| && (a < b ==> !IsSpace(s[a]) && !IsSpace(s[b - 1]))
    ensures var core := Unspared(s, a, b); core != [] ==> !IsSpace(core[0]) && !IsSpace(core[|core| - 1])
  {
    if a < b {
      UnsparedSplits(s, a, a + 1, b);
      assert Unspared(s, a, a + 1) == Unspared(s, a, a) + [s[a]];
    }
  }

  /// Tidied text is canonical; canonical text is left alone, and no other is.
  lemma {:induction false} CollapseIsProjection(s: string)
    ensures Canonical(Collapse(s))
    ensures Collapse(s) == s <==> Canonical(s)
    ensures Collapse(Collapse(s)) == Collapse(s)
  {
    Tidied(s);
    Untouched(Collapse(s));
    if Canonical(s) {
      Untouched(s);
    }
  }

  lemma {:induction false} Tidied(s: string)
    ensures Canonical(Collapse(s))
  {
    var squeezed := Squeeze(s);
    var once := Drop(squeezed, ',');
    var twice := Drop(once, '.');
    SqueezeFrees(s);
    DropFrees(squeezed, ',', ',');
    DropFrees(once, '.', ',');
    TrimFrees(twice, ' ');
    TrimFrees(twice, ',');
    TrimFrees(twice, '.');
    TrimTwice(twice);
  }

  lemma {:induction false} Untouched(s: string)
    requires Canonical(s)
    ensures Collapse(s) == s
  {
    SqueezeFrees(s);
    DropsNothing(s, ',');
    DropsNothing(s, '.');
  }

  lemma {:induction false} LeftIsAll(s: string, i: nat, j: nat)
    requires i <= j <= |s|
    ensures |Left(s, i, j)| <= j - i
    ensures |Left(s, i, j)| == j - i <==> forall k :: i <= k < j ==> !Gone(s, k)
    ensures |Left(s, i, j)| == j - i ==> Left(s, i, j) == s[i..j]
  {
    if i < j { LeftIsAll(s, i, j - 1); }
  }

  /// Canonical texts are those that lose nothing.
  lemma {:induction false} CanonicalIff(s: string)
    ensures Canonical(s) <==> forall i :: 0 <= i < |s| ==> !Gone(s, i)
  {
    CollapseIsProjection(s);
    CollapseLeaves(s);
    LeftIsAll(s, 0, |s|);
    assert s[0..|s|] == s;
  }

  // ---- Deletions -----------------------------------------------------------------------------------
  //
  // Between the matches that a deletion takes out of a text h lie the pieces that it keeps: one more
  // of them than of matches. rs are the matches.

  type Regions = seq<FoldReplace.Region>

  ghost function PieceStart(rs: Regions, i: nat): nat
    requires i <= |rs|
  {
    if i == 0 then 0 else rs[i - 1].end
  }

  ghost function PieceEnd(h: string, rs: Regions, i: nat): nat
    requires i <= |rs|
  {
    if i == |rs| then |h| else rs[i].start
  }

  lemma {:induction false} InOrderFrom(rs: Regions, from: nat, end: nat, i: nat)
    requires FoldReplace.InOrder(rs, from, end) && from <= end && i <= |rs|
    ensures var at := if i == 0 then from else rs[i - 1].end;
            at <= end && FoldReplace.InOrder(rs[i..], at, end) && (i < |rs| ==> at <= rs[i].start < rs[i].end <= end)
    decreases i
  {
    if i == 0 {
      assert rs[0..] == rs;
    } else {
      InOrderFrom(rs[1..], rs[0].end, end, i - 1);
      assert rs[1..][i - 1..] == rs[i..];
      if i > 1 {
        assert rs[1..][i - 2] == rs[i - 1];
      }
    }
  }

  ghost function Piece(h: string, rs: Regions, i: nat): string
    requires FoldReplace.InOrder(rs, 0, |h|) && i <= |rs|
  {
    InOrderFrom(rs, 0, |h|, i);
    h[PieceStart(rs, i)..PieceEnd(h, rs, i)]
  }

  /// Where piece i begins when the matches are gone.
  ghost function Offset(h: string, rs: Regions, i: nat): nat
    requires FoldReplace.InOrder(rs, 0, |h|) && i <= |rs|
  {
    if i == 0 then 0 else Offset(h, rs, i - 1) + |Piece(h, rs, i - 1)|
  }

  /// The text without the matches, around piece i.
  lemma {:induction false} Around(h: string, rs: Regions, i: nat) returns (a: string, b: string)
    requires FoldReplace.InOrder(rs, 0, |h|) && i <= |rs|
    ensures FoldReplace.Splice(h, 0, rs, "") == a + Piece(h, rs, i) + b
    ensures |a| == Offset(h, rs, i) && (i == |rs| ==> b == [])
  {
    var p := Piece(h, rs, i);
    a := SpliceFrom(h, rs, i);
    if i == |rs| {
      b := [];
      assert FoldReplace.Splice(h, PieceStart(rs, i), rs[i..], "") == p;
      assert p + b == p;
    } else {
      SpliceStep(h, rs, i, i + 1);
      b := FoldReplace.Splice(h, rs[i].end, rs[i + 1..], "");
    }
    Regroup(a, p, b);
  }

  lemma {:induction false} SpliceFrom(h: string, rs: Regions, i: nat) returns (a: string)
    requires FoldReplace.InOrder(rs, 0, |h|) && i <= |rs|
    ensures PieceStart(rs, i) <= |h| && FoldReplace.InOrder(rs[i..], PieceStart(rs, i), |h|)
    ensures |a| == Offset(h, rs, i)
    ensures FoldReplace.Splice(h, 0, rs, "") == a + FoldReplace.Splice(h, PieceStart(rs, i), rs[i..], "")
    decreases i
  {
    InOrderFrom(rs, 0, |h|, i);
    if i == 0 {
      a := [];
      assert rs[0..] == rs;
    } else {
      var last := i - 1;
      var before := SpliceFrom(h, rs, last);
      var p := Piece(h, rs, last);
      a := before + p;
      SpliceStep(h, rs, last, i);
      Regroup(before, p, FoldReplace.Splice(h, rs[last].end, rs[i..], ""));
    }
  }

  lemma {:induction false} Regroup(a: string, b: string, c: string)
    ensures a + (b + c) == (a + b) + c
  {
  }

  lemma {:induction false} SpliceStep(h: string, rs: Regions, i: nat, next: nat)
    requires FoldReplace.InOrder(rs, 0, |h|) && i < |rs| && next == i + 1
    requires PieceStart(rs, i) <= |h| && FoldReplace.InOrder(rs[i..], PieceStart(rs, i), |h|)
    ensures rs[i].end <= |h| && FoldReplace.InOrder(rs[next..], rs[i].end, |h|)
    ensures FoldReplace.Splice(h, PieceStart(rs, i), rs[i..], "")
            == Piece(h, rs, i) + FoldReplace.Splice(h, rs[i].end, rs[next..], "")
  {
    InOrderFrom(rs, 0, |h|, i);
    var here := rs[i..];
    assert here[0] == rs[i] && here[1..] == rs[next..];
    assert h[PieceStart(rs, i)..rs[i].start] + "" == h[PieceStart(rs, i)..rs[i].start];
  }

  /// Only white space stands between character j of piece i and a match.
  ghost predicate NearCut(h: string, rs: Regions, i: nat, j: nat)
    requires FoldReplace.InOrder(rs, 0, |h|) && i <= |rs| && j < |Piece(h, rs, i)|
  {
    var p := Piece(h, rs, i);
    (i > 0 && AllSpace(p, 0, j + 1)) || (i < |rs| && AllSpace(p, j, |p|))
  }

  /// A character that is not at the edge of p by white space goes or stays whatever stands around p.
  lemma {:induction false} Inside(a: string, p: string, b: string, j: nat)
    requires j < |p| && (a == [] || !AllSpace(p, 0, j + 1)) && (b == [] || !AllSpace(p, j, |p|))
    ensures Gone(a + p + b, |a| + j) <==> Gone(p, j)
  {
    var s := a + p + b;
    assert forall k :: 0 <= k < |p| ==> s[|a| + k] == p[k];
    SpareInside(a, p, b, j);
    if a == [] {
      assert AllSpace(s, 0, |a| + j + 1) <==> AllSpace(p, 0, j + 1);
    } else {
      var k :| 0 <= k < j + 1 && !IsSpace(p[k]);
      assert !IsSpace(s[|a| + k]);
    }
    if b == [] {
      EndInside(a, p, j);
    } else {
      var k :| j <= k < |p| && !IsSpace(p[k]);
      assert !IsSpace(s[|a| + k]);
    }
  }

  lemma {:induction false} SpareInside(a: string, p: string, b: string, j: nat)
    requires j < |p| && (b == [] || !AllSpace(p, j, |p|))
    ensures Spare(a + p + b, |a| + j) <==> Spare(p, j)
  {
    var s := a + p + b;
    assert s[|a| + j] == p[j];
    if j + 1 < |p| {
      assert s[|a| + j + 1] == p[j + 1];
    }
  }

  lemma {:induction false} EndInside(a: string, p: string, j: nat)
    requires j < |p|
    ensures AllSpace(a + p + [], |a| + j, |a + p + []|) <==> AllSpace(p, j, |p|)
  {
    var s := a + p + [];
    assert forall k :: j <= k < |p| ==> s[|a| + k] == p[k];
    if AllSpace(s, |a| + j, |s|) {
      forall k | j <= k < |p| ensures IsSpace(p[k]) { assert IsSpace(s[|a| + k]); }
    }
  }

  lemma {:induction false} FarAfter(h: string, rs: Regions, i: nat, j: nat)
    requires FoldReplace.InOrder(rs, 0, |h|) && i <= |rs| && j < |Piece(h, rs, i)| && !NearCut(h, rs, i, j)
    ensures var removed := FoldReplace.Splice(h, 0, rs, "");
            && Offset(h, rs, i) + j < |removed|
            && (Gone(removed, Offset(h, rs, i) + j) <==> Gone(Piece(h, rs, i), j))
  {
    var a, b := Around(h, rs, i);
    Inside(a, Piece(h, rs, i), b, j);
  }

  lemma {:induction false} FarBefore(h: string, rs: Regions, i: nat, j: nat)
    requires FoldReplace.InOrder(rs, 0, |h|) && i <= |rs| && j < |Piece(h, rs, i)| && !NearCut(h, rs, i, j)
    ensures PieceStart(rs, i) + j < |h| && (Gone(h, PieceStart(rs, i) + j) <==> Gone(Piece(h, rs, i), j))
  {
    InOrderFrom(rs, 0, |h|, i);
    InsideSlice(h, PieceStart(rs, i), PieceEnd(h, rs, i), j);
  }

  lemma {:induction false} InsideSlice(h: string, start: nat, end: nat, j: nat)
    requires start <= end <= |h| && j < end - start
    requires start == 0 || !AllSpace(h[start..end], 0, j + 1)
    requires end == |h| || !AllSpace(h[start..end], j, end - start)
    ensures Gone(h, start + j) <==> Gone(h[start..end], j)
  {
    var a, p, b := h[..start], h[start..end], h[end..];
    ThreeParts(h, start, end);
    Inside(a, p, b, j);
  }

  lemma {:induction false} ThreeParts(h: string, i: nat, j: nat)
    requires i <= j <= |h|
    ensures h == h[..i] + h[i..j] + h[j..]
  {
  }

  /// Tidying the text without the matches takes character j of piece i.
  ghost predicate GoneAfter(h: string, rs: Regions, i: nat, j: nat)
    requires FoldReplace.InOrder(rs, 0, |h|) && i <= |rs| && j < |Piece(h, rs, i)| && !NearCut(h, rs, i, j)
  {
    FarAfter(h, rs, i, j);
    Gone(FoldReplace.Splice(h, 0, rs, ""), Offset(h, rs, i) + j)
  }

  /// Tidying the text as it is would take it.
  ghost predicate GoneBefore(h: string, rs: Regions, i: nat, j: nat)
    requires FoldReplace.InOrder(rs, 0, |h|) && i <= |rs| && j < |Piece(h, rs, i)| && !NearCut(h, rs, i, j)
  {
    FarBefore(h, rs, i, j);
    Gone(h, PieceStart(rs, i) + j)
  }

  /// Away from the matches the two are the same.
  lemma {:induction false} FarFromCuts(h: string, rs: Regions, i: nat, j: nat)
    requires FoldReplace.InOrder(rs, 0, |h|) && i <= |rs| && j < |Piece(h, rs, i)| && !NearCut(h, rs, i, j)
    ensures GoneAfter(h, rs, i, j) <==> GoneBefore(h, rs, i, j)
  {
    FarAfter(h, rs, i, j);
    FarBefore(h, rs, i, j);
  }

  /// Tidying after the deletion takes nothing but white space beside a match.
  ghost predicate Local(h: string, rs: Regions)
    requires FoldReplace.InOrder(rs, 0, |h|)
  {
    forall i: nat, j: nat :: i <= |rs| && j < |Piece(h, rs, i)| && !NearCut(h, rs, i, j) ==> !GoneAfter(h, rs, i, j)
  }

  /// The text before the deletion has nothing to tidy but beside a match.
  ghost predicate TidyElsewhere(h: string, rs: Regions)
    requires FoldReplace.InOrder(rs, 0, |h|)
  {
    forall i: nat, j: nat :: i <= |rs| && j < |Piece(h, rs, i)| && !NearCut(h, rs, i, j) ==> !GoneBefore(h, rs, i, j)
  }

  lemma {:induction false} LocalIffTidyElsewhere(h: string, rs: Regions)
    requires FoldReplace.InOrder(rs, 0, |h|)
    ensures Local(h, rs) <==> TidyElsewhere(h, rs)
  {
    forall i: nat, j: nat | i <= |rs| && j < |Piece(h, rs, i)| && !NearCut(h, rs, i, j)
      ensures GoneAfter(h, rs, i, j) <==> GoneBefore(h, rs, i, j)
    {
      FarFromCuts(h, rs, i, j);
    }
  }

  lemma {:induction false} CanonicalIsTidy(h: string, rs: Regions)
    requires FoldReplace.InOrder(rs, 0, |h|) && Canonical(h)
    ensures TidyElsewhere(h, rs)
  {
    CanonicalIff(h);
    forall i: nat, j: nat | i <= |rs| && j < |Piece(h, rs, i)| && !NearCut(h, rs, i, j)
      ensures !GoneBefore(h, rs, i, j)
    {
      FarBefore(h, rs, i, j);
    }
  }

  /// A deletion changes nothing but its matches and the white space beside them exactly when the text
  /// has nothing to tidy elsewhere; in particular when it is canonical.
  lemma {:induction false} DeleteIsLocalIff(fold: Fold, target: string, text: string)
    requires FoldReplace.ReplaceSpec(fold, target, text, "").Some?
    ensures var rs := FoldReplace.Regions(fold, target, text, 0);
            && FoldReplace.InOrder(rs, 0, |target|)
            && FoldReplace.ReplaceSpec(fold, target, text, "") == Some(FoldReplace.Splice(target, 0, rs, ""))
            && (Local(target, rs) <==> TidyElsewhere(target, rs))
            && (Canonical(target) ==> Local(target, rs))
  {
    var rs := FoldReplace.Regions(fold, target, text, 0);
    FoldReplace.RegionsInOrder(fold, target, text, 0);
    LocalIffTidyElsewhere(target, rs);
    if Canonical(target) {
      CanonicalIsTidy(target, rs);
    }
  }

  // ---- A deletion that reaches further -------------------------------------------------------------

  lemma {:induction false} PlainFold(fold: Fold, s: string)
    requires forall c :: c in s ==> fold(c) == [c]
    ensures FoldAll(fold, s) == s
  {
    if s != [] {
      PlainFold(fold, s[1..]);
      assert s == [s[0]] + s[1..];
    }
  }

  lemma {:induction false} OccursOnceAt(fold: Fold, h: string, c: char, i: nat)
    requires forall x :: x in h ==> fold(x) == [x]
    requires i < |h| && h[i] == c && forall k :: 0 <= k < |h| && k != i ==> h[k] != c
    ensures FoldReplace.Regions(fold, h, [c], 0) == [FoldReplace.Region(i, i + 1)]
  {
    assert c in h;
    PlainFold(fold, [c]);
    forall j, k | FoldReplace.Occurs(fold, h, [c], j, k) ensures j == i && k == i + 1 {
      PlainFold(fold, h[j..k]);
      assert h[j..k] == [c] && h[j] == h[j..k][0];
    }
    PlainFold(fold, h[i..i + 1]);
    assert h[i..i + 1] == [c];
    assert FoldReplace.Occurs(fold, h, [c], i, i + 1);
    FoldReplace.SkipTo(fold, h, [c], 0, i);
    FoldReplace.SkipTo(fold, h, [c], i + 1, |h|);
  }

  lemma {:induction false} Stays(s: string, i: nat, k: nat, m: nat)
    requires k <= i <= m < |s| && !IsSpace(s[k]) && !IsSpace(s[m]) && !Spare(s, i)
    ensures !Gone(s, i) && Left(s, 0, i + 1) == Left(s, 0, i) + [s[i]]
  {
  }

  lemma {:induction false} Goes(s: string, i: nat)
    requires i < |s| && Gone(s, i)
    ensures Left(s, 0, i + 1) == Left(s, 0, i)
  {
  }

  /// A letter, two spaces, a letter and a space.
  predicate TwoWords(s: string)
  {
    |s| == 5 && s[1] == s[2] == s[4] == ' ' && s[0] == 'a' && s[3] == 'b'
  }

  lemma {:induction false} LeftOfTwoWords(s: string)
    requires TwoWords(s)
    ensures Left(s, 0, 5) == ['a', ' ', 'b']
  {
    assert Spare(s, 1) && AllSpace(s, 4, 5);
    Stays(s, 0, 0, 3);
    assert Left(s, 0, 1) == [] + ['a'];
    Goes(s, 1);
    Stays(s, 2, 0, 3);
    assert Left(s, 0, 3) == ['a'] + [' '];
    Stays(s, 3, 0, 3);
    assert Left(s, 0, 4) == ['a', ' '] + ['b'];
    Goes(s, 4);
  }

  lemma {:induction false} Tidied5(s: string)
    requires TwoWords(s)
    ensures Gone(s, 1) && Collapse(s) == "a b"
  {
    CollapseLeaves(s);
    LeftOfTwoWords(s);
    assert Spare(s, 1);
  }

  /// The last letter of six, deleted.
  lemma {:induction false} LastCut(h: string, rs: Regions)
    requires |h| == 6 && h[1] == h[2] == h[4] == ' ' && h[0] == 'a' && h[3] == 'b'
    requires rs == [FoldReplace.Region(5, 6)]
    ensures FoldReplace.InOrder(rs, 0, |h|)
    ensures Collapse(FoldReplace.Splice(h, 0, rs, "")) == "a b"
    ensures 1 < |Piece(h, rs, 0)| && !NearCut(h, rs, 0, 1) && GoneAfter(h, rs, 0, 1)
  {
    assert rs[1..] == [];
    var kept := h[..5];
    assert FoldReplace.Splice(h, 6, [], "") == [];
    assert FoldReplace.Splice(h, 0, rs, "") == h[0..5] + "" + [] == kept;
    Tidied5(kept);
    assert Piece(h, rs, 0) == kept && !IsSpace(kept[3]);
    FarAfter(h, rs, 0, 1);
  }

  /// Deleting the last letter of "a  b c" also takes one of the two spaces after the first.
  lemma {:induction false} FarSpacesGo(fold: Fold)
    requires fold('a') == "a" && fold('b') == "b" && fold('c') == "c" && fold(' ') == " "
    ensures var target := "a  b c";
            var rs := FoldReplace.Regions(fold, target, "c", 0);
            && FoldReplace.InOrder(rs, 0, |target|) && |rs| == 1
            && Collapse(FoldReplace.Splice(target, 0, rs, "")) == "a b"
            && 1 < |Piece(target, rs, 0)| && !NearCut(target, rs, 0, 1) && GoneAfter(target, rs, 0, 1)
  {
    OccursOnceAt(fold, "a  b c", 'c', 5);
    LastCut("a  b c", [FoldReplace.Region(5, 6)]);
  }
}
