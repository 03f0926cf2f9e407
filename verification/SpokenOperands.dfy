// What a spoken replacement inserts: the operands are cut out of the utterance at byte offsets that
// were found in its lower-cased copy (crates/edit-intent/src/lib.rs).

module SpokenOperands {
  import opened Common
  import opened Text
  import opened SpokenGrammar
  import opened Trimming

  // ---- Lower-casing --------------------------------------------------------------------------------

  predicate Fixed(fold: Fold, c: char) { fold(c) == [c] }

  /// What is assumed of lower-casing: white space stays as it is and nothing becomes white space, and
  /// what is lower-case is not changed again. Sizes may change.
  ghost predicate Sane(fold: Fold)
  {
    && (forall c :: IsSpace(c) ==> Fixed(fold, c))
    && (forall c, i :: 0 <= i < |fold(c)| ==> Fixed(fold, fold(c)[i]) && (IsSpace(fold(c)[i]) ==> IsSpace(c)))
  }

  type Lowering = f: Fold | Sane(f) witness (c: char) => [c]

  ghost predicate AllFixed(fold: Lowering, s: string) { forall i :: 0 <= i < |s| ==> Fixed(fold, s[i]) }

  lemma {:induction false} FixedStays(fold: Lowering, s: string)
    requires AllFixed(fold, s)
    ensures FoldAll(fold, s) == s
  {
    if s != [] {
      FixedStays(fold, s[1..]);
      assert s == [s[0]] + s[1..];
    }
  }

  lemma {:induction false} LoweredIsFixed(fold: Lowering, s: string)
    ensures AllFixed(fold, FoldAll(fold, s))
  {
    if s != [] {
      LoweredIsFixed(fold, s[1..]);
      var (first, rest) := (fold(s[0]), FoldAll(fold, s[1..]));
      forall i | 0 <= i < |first + rest| ensures Fixed(fold, (first + rest)[i]) {
        if i < |first| {
          assert (first + rest)[i] == first[i];
        } else {
          assert (first + rest)[i] == rest[i - |first|];
        }
      }
    }
  }

  /// A part of a lower-cased text whose trimming is that of s is there only if s is lower-case.
  lemma {:induction false} TrimmedAlike(fold: Lowering, s: string, p: string)
    requires AllFixed(fold, p) && Trim(p) == Trim(s)
    ensures FoldAll(fold, s) == s
  {
    var a, b := TrimCore(s);
    var c, d := TrimCore(p);
    forall i | 0 <= i < |s| ensures Fixed(fold, s[i]) {
      if a <= i < b {
        assert s[i] == s[a..b][i - a] == p[c..d][i - a] == p[c + (i - a)];
      }
    }
    FixedStays(fold, s);
  }

  /// The lower-cased copy of an operand whose size changes is never what was said.
  lemma {:induction false} LoweredShows(fold: Lowering, s: string)
    requires Size(FoldAll(fold, s)) != Size(s)
    ensures Trim(FoldAll(fold, s)) != Trim(s)
  {
    LoweredIsFixed(fold, s);
    if Trim(FoldAll(fold, s)) == Trim(s) {
      TrimmedAlike(fold, s, FoldAll(fold, s));
    }
  }

  lemma {:induction false} FirstLowered(fold: Lowering, t: string)
    requires t != []
    ensures FoldAll(fold, t)[0] == fold(t[0])[0]
  {
  }

  lemma {:induction false} LastLowered(fold: Lowering, t: string)
    requires t != []
    ensures var (low, c) := (FoldAll(fold, t), fold(t[|t| - 1])); low != [] && low[|low| - 1] == c[|c| - 1]
  {
    var front, c := t[..|t| - 1], t[|t| - 1];
    assert t == front + [c];
    FoldAllConcat(fold, front, [c]);
    assert FoldAll(fold, [c]) == fold(c);
  }

  lemma {:induction false} LoweredTrimmed(fold: Lowering, t: string)
    requires Trimmed(t)
    ensures Trimmed(FoldAll(fold, t))
  {
    if t != [] {
      FirstLowered(fold, t);
      LastLowered(fold, t);
      var c := fold(t[|t| - 1]);
      assert !IsSpace(c[|c| - 1]) && !IsSpace(fold(t[0])[0]);
    }
  }

  // ---- Byte ranges ---------------------------------------------------------------------------------

  lemma {:induction false} Range(s: string, i: nat, j: nat)
    requires i <= j <= |s|
    ensures GetBytes(s, SizeTo(s, i), SizeTo(s, j)) == Some(s[i..j])
  {
    ByteOf(s, 0, i);
    ByteOf(s, 0, j);
  }

  /// Where a byte that is the beginning of a character lies between two characters.
  lemma {:induction false} Lies(s: string, b: nat, k: nat)
    requires k <= |s| && AtByte(s, b, 0).Some?
    ensures AtByte(s, b, 0).value < k <==> b < SizeTo(s, k)
    ensures AtByte(s, b, 0).value == k <==> b == SizeTo(s, k)
  {
    var c := AtByte(s, b, 0).value;
    AtByteIs(s, b, 0);
    if c < k {
      SizesRise(s, c, k);
    } else if k < c {
      SizesRise(s, k, c);
    }
  }

  /// No character begins inside another.
  lemma {:induction false} Inside(s: string, k: nat, b: nat)
    requires k < |s| && SizeTo(s, k) < b < SizeTo(s, k + 1)
    ensures AtByte(s, b, 0).None?
  {
    if AtByte(s, b, 0).Some? {
      Lies(s, b, k);
      Lies(s, b, k + 1);
    }
  }

  /// The four pieces of an utterance: verb, first operand, joiner, second operand.
  function Whole(h: string, x: string, j: string, y: string): string { h + x + j + y }

  lemma {:induction false} FrontSize(a: string, b: string, n: nat)
    requires n <= |a|
    ensures SizeTo(a + b, n) == SizeTo(a, n)
  {
    SizeToOfConcat(a, b, n);
  }

  /// The joints of the pieces, in characters and in bytes.
  lemma {:induction false} Joints(h: string, x: string, j: string, y: string)
    ensures var (t, p, q, r) := (Whole(h, x, j, y), |h|, |h| + |x|, |h| + |x| + |j|);
            && |t| == r + |y|
            && SizeTo(t, p) == Size(h) && SizeTo(t, q) == Size(h) + Size(x)
            && SizeTo(t, r) == Size(h) + Size(x) + Size(j) && Size(t) == Size(h) + Size(x) + Size(j) + Size(y)
  {
    var (a, b, c) := (h, h + x, h + x + j);
    FrontSize(a, x, |a|);
    FrontSize(b, j, |a|);
    FrontSize(b, j, |b|);
    FrontSize(c, y, |a|);
    FrontSize(c, y, |b|);
    FrontSize(c, y, |c|);
    SizeOfConcat(a, x);
    SizeOfConcat(b, j);
    SizeOfConcat(c, y);
  }

  lemma {:induction false} PieceTexts(h: string, x: string, j: string, y: string)
    ensures var (t, p, q, r) := (Whole(h, x, j, y), |h|, |h| + |x|, |h| + |x| + |j|);
            |t| == r + |y| && t[..p] == h && t[p..q] == x && t[q..r] == j && t[r..] == y
  {
  }

  lemma {:induction false} LoweredPieces(fold: Lowering, h: string, x: string, j: string, y: string)
    ensures FoldAll(fold, Whole(h, x, j, y))
            == Whole(FoldAll(fold, h), FoldAll(fold, x), FoldAll(fold, j), FoldAll(fold, y))
  {
    FoldAllConcat(fold, h + x + j, y);
    FoldAllConcat(fold, h + x, j);
    FoldAllConcat(fold, h, x);
  }

  // ---- Slices of an utterance t and its copy -------------------------------------------------------

  lemma {:induction false} SliceOfCopy(t: string, lower: string, i: nat, k: nat)
    requires Size(lower) != Size(t) && i <= k <= |lower|
    ensures SliceOriginal(t, lower, SizeTo(lower, i), SizeTo(lower, k)) == lower[i..k]
  {
    Range(lower, i, k);
  }

  /// Past the end of the copy there is nothing to slice, and the whole copy is taken.
  lemma {:induction false} SliceOfShorter(t: string, lower: string, from: nat)
    requires Size(lower) < Size(t)
    ensures SliceOriginal(t, lower, from, Size(t)) == lower
  {
    if AtByte(lower, Size(t), 0).Some? {
      Lies(lower, Size(t), |lower|);
    }
  }

  /// A longer copy is cut where the original ends, or taken whole.
  lemma {:induction false} SliceOfLonger(t: string, lower: string, r: nat) returns (n: nat)
    requires Size(lower) > Size(t) && r < |lower|
    ensures n < |lower| - r
    ensures SliceOriginal(t, lower, SizeTo(lower, r), Size(t)) in [lower, lower[r..][..n]]
  {
    ByteOf(lower, 0, r);
    var end := AtByte(lower, Size(t), 0);
    n := 0;
    if end.Some? {
      Lies(lower, Size(t), |lower|);
      if r <= end.value {
        n := end.value - r;
        assert lower[r..end.value] == lower[r..][..n];
      }
    }
  }

  lemma {:induction false} SliceOfOriginal(t: string, lower: string, i: nat, k: nat)
    requires Size(lower) == Size(t) && i <= k <= |t|
    ensures SizeTo(t, i) <= SizeTo(t, k)
    ensures SliceOriginal(t, lower, SizeTo(t, i), SizeTo(t, k)) == t[i..k]
  {
    Range(t, i, k);
    if i < k { SizesRise(t, i, k); }
  }

  /// An end or a start inside a character: the copy is sliced instead.
  lemma {:induction false} SliceMissed(t: string, lower: string, i: nat, k: nat)
    requires Size(lower) == Size(t) && i <= k <= |lower|
    requires AtByte(t, SizeTo(lower, i), 0).None? || AtByte(t, SizeTo(lower, k), 0).None?
    ensures SizeTo(lower, i) <= SizeTo(lower, k)
    ensures SliceOriginal(t, lower, SizeTo(lower, i), SizeTo(lower, k)) == lower[i..k]
  {
    Range(lower, i, k);
    if i < k { SizesRise(lower, i, k); }
  }

  // ---- Sizes that differ ---------------------------------------------------------------------------

  /// When the copy differs in size, what is inserted is never the operand that was said.
  lemma {:induction false} UnequalShows(fold: Lowering, t: string, lower: string, r: nat, y: string)
    requires Trimmed(t) && y != [] && !IsSpace(y[|y| - 1]) && |y| < |t|
    requires lower == FoldAll(fold, t) && Size(lower) != Size(t) && r < |lower| && lower[r..] == FoldAll(fold, y)
    ensures Onward(t, lower, r) != Trim(y)
  {
    WholeShows(fold, t, y);
    if Size(lower) < Size(t) {
      SliceOfShorter(t, lower, SizeTo(lower, r));
    } else {
      var n := SliceOfLonger(t, lower, r);
      CutCopyShows(fold, y, n);
    }
  }

  lemma {:induction false} WholeShows(fold: Lowering, t: string, y: string)
    requires Trimmed(t) && |y| < |t|
    ensures Trim(FoldAll(fold, t)) != Trim(y)
  {
    LoweredTrimmed(fold, t);
    TrimmedStays(FoldAll(fold, t));
  }

  lemma {:induction false} CutCopyShows(fold: Lowering, y: string, n: nat)
    requires y != [] && !IsSpace(y[|y| - 1]) && n < |FoldAll(fold, y)|
    ensures Trim(FoldAll(fold, y)[..n]) != Trim(y)
  {
    var p := FoldAll(fold, y)[..n];
    LoweredIsFixed(fold, y);
    if Trim(p) == Trim(y) {
      TrimmedAlike(fold, y, p);
      CutShows(y, n);
    }
  }

  // ---- Sizes that agree ----------------------------------------------------------------------------

  predicate NarrowSpace(c: char) { IsSpace(c) && Width(c) == 1 }

  predicate NarrowLetter(c: char) { !IsSpace(c) && Width(c) == 1 }

  /// An utterance cut at p, q and r and its copy at lp, lq and lr: before the first operand and inside
  /// the joiner, a word between two spaces, no size changes.
  predicate Joined(t: string, lower: string, p: nat, q: nat, r: nat, lp: nat, lq: nat, lr: nat)
  {
    && p <= q && q + 3 <= r <= |t| && lp <= lq <= lr <= |lower|
    && NarrowSpace(t[q]) && NarrowLetter(t[q + 1]) && NarrowLetter(t[r - 2]) && NarrowSpace(t[r - 1])
    && SizeTo(t, p) == SizeTo(lower, lp)
    && SizeTo(lower, lr) - SizeTo(t, r) == SizeTo(lower, lq) - SizeTo(t, q)
  }

  predicate Aligned(t: string, lower: string, p: nat, q: nat, r: nat, lp: nat, lq: nat, lr: nat)
  {
    Joined(t, lower, p, q, r, lp, lq, lr) && Size(lower) == Size(t)
  }

  lemma {:induction false} Step(s: string, k: nat)
    requires k < |s|
    ensures SizeTo(s, k + 1) == SizeTo(s, k) + Width(s[k])
  {
  }

  lemma {:induction false} ByteBefore(s: string, k: nat)
    requires 0 < k <= |s|
    ensures SizeTo(s, k) > 0
    ensures AtByte(s, SizeTo(s, k) - 1, 0) == if Width(s[k - 1]) == 1 then Some(k - 1) else None
  {
    Step(s, k - 1);
    if Width(s[k - 1]) == 1 {
      ByteOf(s, 0, k - 1);
    } else {
      Inside(s, k - 1, SizeTo(s, k) - 1);
    }
  }

  lemma {:induction false} ByteAfter(s: string, k: nat)
    requires k < |s|
    ensures AtByte(s, SizeTo(s, k) + 1, 0) == if Width(s[k]) == 1 then Some(k + 1) else None
  {
    Step(s, k);
    if Width(s[k]) == 1 {
      ByteOf(s, 0, k + 1);
    } else {
      Inside(s, k, SizeTo(s, k) + 1);
    }
  }

  lemma {:induction false} FromCut(t: string, lower: string, p: nat, lp: nat, lq: nat) returns (c: Option<nat>)
    requires p <= |t| && lp <= lq <= |lower| && Size(lower) == Size(t) && SizeTo(t, p) == SizeTo(lower, lp)
    ensures c == AtByte(t, SizeTo(lower, lq), 0) && SizeTo(lower, lp) <= SizeTo(lower, lq)
    ensures c.Some? ==> p <= c.value && SizeTo(t, c.value) == SizeTo(lower, lq)
    ensures SliceOriginal(t, lower, SizeTo(lower, lp), SizeTo(lower, lq))
            == if c.Some? then t[p..c.value] else lower[lp..lq]
  {
    c := AtByte(t, SizeTo(lower, lq), 0);
    if lp < lq { SizesRise(lower, lp, lq); }
    if c.Some? {
      AtByteIs(t, SizeTo(lower, lq), 0);
      Lies(t, SizeTo(lower, lq), p);
      SliceOfOriginal(t, lower, p, c.value);
    } else {
      SliceMissed(t, lower, lp, lq);
    }
  }

  lemma {:induction false} IntoCut(t: string, lower: string, lr: nat) returns (c: Option<nat>)
    requires lr <= |lower| && Size(lower) == Size(t)
    ensures c == AtByte(t, SizeTo(lower, lr), 0) && SizeTo(lower, lr) <= Size(t)
    ensures c.Some? ==> SizeTo(t, c.value) == SizeTo(lower, lr)
    ensures SliceOriginal(t, lower, SizeTo(lower, lr), Size(t)) == if c.Some? then t[c.value..] else lower[lr..]
  {
    c := AtByte(t, SizeTo(lower, lr), 0);
    if lr < |lower| { SizesRise(lower, lr, |lower|); }
    if c.Some? {
      AtByteIs(t, SizeTo(lower, lr), 0);
      SliceOfOriginal(t, lower, c.value, |t|);
    } else {
      SliceMissed(t, lower, lr, |lower|);
    }
  }

  /// The copy's first operand has d bytes more than was said.
  lemma {:induction false} FromKeptIff(t: string, lower: string, p: nat, q: nat, r: nat, lp: nat, lq: nat, lr: nat, d: int)
    requires Aligned(t, lower, p, q, r, lp, lq, lr) && d == SizeTo(lower, lq) - SizeTo(t, q)
    requires d != 0 ==> Trim(lower[lp..lq]) != Trim(t[p..q])
    ensures SizeTo(lower, lp) <= SizeTo(lower, lq)
    ensures var kept := Trim(SliceOriginal(t, lower, SizeTo(lower, lp), SizeTo(lower, lq))) == Trim(t[p..q]);
            && (d == 0 || d == 1 ==> kept) && (d > 1 ==> !kept)
            && (d == -1 ==> (kept <==> p < q && NarrowSpace(t[q - 1])))
  {
    var c := FromCut(t, lower, p, lp, lq);
    if d >= 0 {
      FromLonger(t, lower, p, q, r, lp, lq, lr, d, c);
    } else if d == -1 {
      FromShorter(t, lower, p, q, lp, lq, c);
    }
  }

  lemma {:induction false} FromLonger(t: string, lower: string, p: nat, q: nat, r: nat, lp: nat, lq: nat, lr: nat,
                                      d: nat, c: Option<nat>)
    requires Aligned(t, lower, p, q, r, lp, lq, lr) && d == SizeTo(lower, lq) - SizeTo(t, q)
    requires c == AtByte(t, SizeTo(lower, lq), 0) && (c.Some? ==> p <= c.value)
    requires d != 0 ==> Trim(lower[lp..lq]) != Trim(t[p..q])
    ensures Trim(if c.Some? then t[p..c.value] else lower[lp..lq]) == Trim(t[p..q]) <==> d <= 1
  {
    if d == 0 {
      ByteOf(t, 0, q);
    } else if d == 1 {
      ByteAfter(t, q);
      SpaceTaken(t, p, q);
    } else if c.Some? {
      PastTheJoiner(t, SizeTo(lower, lq), q, c.value);
      LetterTaken(t, p, q, c.value);
    }
  }

  lemma {:induction false} SpaceTaken(t: string, p: nat, q: nat)
    requires p <= q < |t| && IsSpace(t[q])
    ensures Trim(t[p..q + 1]) == Trim(t[p..q])
  {
    LessAtEnd(t[p..q + 1]);
    assert t[p..q + 1][..q - p] == t[p..q];
  }

  lemma {:induction false} LetterTaken(t: string, p: nat, q: nat, c: nat)
    requires p <= q && q + 2 <= c <= |t| && !IsSpace(t[q + 1])
    ensures Trim(t[p..c]) != Trim(t[p..q])
  {
    assert t[p..c] == t[p..q] + t[q..c];
    TailShows(t[p..q], t[q..c], 1);
  }

  lemma {:induction false} PastTheJoiner(t: string, b: nat, q: nat, c: nat)
    requires q + 2 <= |t| && Width(t[q]) == 1 && Width(t[q + 1]) == 1
    requires AtByte(t, b, 0) == Some(c) && b >= SizeTo(t, q) + 2
    ensures c >= q + 2
  {
    Step(t, q);
    Step(t, q + 1);
    Lies(t, b, q + 2);
  }

  lemma {:induction false} BeforeTheJoiner(t: string, b: nat, r: nat, c: nat)
    requires 2 <= r <= |t| && Width(t[r - 1]) == 1 && AtByte(t, b, 0) == Some(c) && b + 2 <= SizeTo(t, r)
    ensures c <= r - 2
  {
    Step(t, r - 1);
    Lies(t, b, r - 1);
  }

  lemma {:induction false} FromShorter(t: string, lower: string, p: nat, q: nat, lp: nat, lq: nat, c: Option<nat>)
    requires p <= q <= |t| && lp <= lq <= |lower| && SizeTo(t, p) == SizeTo(lower, lp) <= SizeTo(lower, lq)
    requires SizeTo(lower, lq) == SizeTo(t, q) - 1
    requires c == AtByte(t, SizeTo(lower, lq), 0)
    requires Trim(lower[lp..lq]) != Trim(t[p..q])
    ensures p < q && (c.Some? ==> p <= c.value)
    ensures Trim(if c.Some? then t[p..c.value] else lower[lp..lq]) == Trim(t[p..q]) <==> NarrowSpace(t[q - 1])
  {
    ByteBefore(t, q);
    LastTaken(t, p, q);
  }

  lemma {:induction false} LastTaken(t: string, p: nat, q: nat)
    requires p < q <= |t|
    ensures Trim(t[p..q - 1]) == Trim(t[p..q]) <==> IsSpace(t[q - 1])
  {
    LessAtEnd(t[p..q]);
    assert t[p..q][..q - p - 1] == t[p..q - 1];
  }

  lemma {:induction false} IntoKeptIff(t: string, lower: string, p: nat, q: nat, r: nat, lp: nat, lq: nat, lr: nat, d: int)
    requires Aligned(t, lower, p, q, r, lp, lq, lr) && d == SizeTo(lower, lr) - SizeTo(t, r)
    requires d != 0 ==> Trim(lower[lr..]) != Trim(t[r..])
    ensures SizeTo(lower, lr) <= Size(t)
    ensures var kept := Trim(SliceOriginal(t, lower, SizeTo(lower, lr), Size(t))) == Trim(t[r..]);
            && (d == 0 || d == -1 ==> kept) && (d < -1 ==> !kept)
            && (d == 1 ==> (kept <==> r < |t| && NarrowSpace(t[r])))
  {
    var c := IntoCut(t, lower, lr);
    if d <= 0 {
      IntoShorter(t, lower, p, q, r, lp, lq, lr, d, c);
    } else if d == 1 {
      IntoLonger(t, lower, r, lr, c);
    }
  }

  lemma {:induction false} IntoShorter(t: string, lower: string, p: nat, q: nat, r: nat, lp: nat, lq: nat, lr: nat,
                                       d: int, c: Option<nat>)
    requires Aligned(t, lower, p, q, r, lp, lq, lr) && d == SizeTo(lower, lr) - SizeTo(t, r) <= 0
    requires c == AtByte(t, SizeTo(lower, lr), 0)
    requires d != 0 ==> Trim(lower[lr..]) != Trim(t[r..])
    ensures Trim(if c.Some? then t[c.value..] else lower[lr..]) == Trim(t[r..]) <==> d >= -1
  {
    if d == 0 {
      ByteOf(t, 0, r);
    } else if d == -1 {
      ByteBefore(t, r);
      SpaceLed(t, r);
    } else if c.Some? {
      BeforeTheJoiner(t, SizeTo(lower, lr), r, c.value);
      LetterLed(t, r, c.value);
    }
  }

  lemma {:induction false} SpaceLed(t: string, r: nat)
    requires 0 < r <= |t| && IsSpace(t[r - 1])
    ensures Trim(t[r - 1..]) == Trim(t[r..])
  {
    LessAtStart(t[r - 1..]);
    assert t[r - 1..][1..] == t[r..];
  }

  lemma {:induction false} LetterLed(t: string, r: nat, c: nat)
    requires c + 2 <= r <= |t| && !IsSpace(t[r - 2])
    ensures Trim(t[c..]) != Trim(t[r..])
  {
    assert t[c..] == t[c..r] + t[r..];
    HeadShows(t[c..r], t[r..], r - 2 - c);
  }

  lemma {:induction false} IntoLonger(t: string, lower: string, r: nat, lr: nat, c: Option<nat>)
    requires r <= |t| && lr <= |lower| && Size(lower) == Size(t) && SizeTo(lower, lr) == SizeTo(t, r) + 1 <= Size(t)
    requires c == AtByte(t, SizeTo(lower, lr), 0)
    requires Trim(lower[lr..]) != Trim(t[r..])
    ensures r < |t|
    ensures Trim(if c.Some? then t[c.value..] else lower[lr..]) == Trim(t[r..]) <==> NarrowSpace(t[r])
  {
    ByteAfter(t, r);
    FirstTaken(t, r);
  }

  lemma {:induction false} FirstTaken(t: string, r: nat)
    requires r < |t|
    ensures Trim(t[r + 1..]) == Trim(t[r..]) <==> IsSpace(t[r])
  {
    LessAtStart(t[r..]);
    assert t[r..][1..] == t[r + 1..];
  }

  // ---- Operands that are kept ----------------------------------------------------------------------

  predicate AllNarrow(s: string) { forall i :: 0 <= i < |s| ==> Width(s[i]) == 1 }

  lemma {:induction false} NarrowSize(s: string, n: nat)
    requires n <= |s| && forall i :: 0 <= i < |s| ==> Width(s[i]) == 1
    ensures SizeTo(s, n) == n
  {
    if n > 0 { NarrowSize(s, n - 1); }
  }

  predicate BetweenSpaces(j: string)
  {
    && |j| >= 3 && AllNarrow(j)
    && IsSpace(j[0]) && !IsSpace(j[1]) && !IsSpace(j[|j| - 2]) && IsSpace(j[|j| - 1])
  }

  lemma {:induction false} JoinerStands(t: string, j: string, q: nat)
    requires BetweenSpaces(j) && q + |j| <= |t| && t[q..q + |j|] == j
    ensures NarrowSpace(t[q]) && NarrowLetter(t[q + 1])
    ensures NarrowLetter(t[q + |j| - 2]) && NarrowSpace(t[q + |j| - 1])
  {
    assert t[q] == j[0] && t[q + 1] == j[1] && t[q + |j| - 2] == j[|j| - 2] && t[q + |j| - 1] == j[|j| - 1];
  }

  /// The operands found at lower[p..cut] and from lower[resume] on are x and y.
  predicate Kept(t: string, lower: string, p: nat, cut: nat, resume: nat, x: string, y: string)
  {
    p <= cut <= resume <= |lower| && Between(t, lower, p, cut) == Trim(x) && Onward(t, lower, resume) == Trim(y)
  }

  /// A gain of d bytes that a space of one byte beside the joiner makes up for, or none.
  predicate MadeUp(t: string, p: nat, q: nat, r: nat, d: int)
    requires p <= q <= r <= |t|
  {
    d == 0 || (d == 1 && r < |t| && NarrowSpace(t[r])) || (d == -1 && p < q && NarrowSpace(t[q - 1]))
  }

  lemma {:induction false} AlignedKeepsIff(t: string, lower: string, p: nat, q: nat, r: nat, lp: nat, lq: nat, lr: nat, d: int)
    requires Aligned(t, lower, p, q, r, lp, lq, lr) && d == SizeTo(lower, lq) - SizeTo(t, q)
    requires d != 0 ==> Trim(lower[lp..lq]) != Trim(t[p..q]) && Trim(lower[lr..]) != Trim(t[r..])
    ensures Kept(t, lower, lp, lq, lr, t[p..q], t[r..]) <==> MadeUp(t, p, q, r, d)
  {
    FromKeptIff(t, lower, p, q, r, lp, lq, lr, d);
    IntoKeptIff(t, lower, p, q, r, lp, lq, lr, d);
  }

  lemma {:induction false} SizeOfSlice(s: string, i: nat, k: nat)
    requires i <= k <= |s|
    ensures Size(s[i..k]) == SizeTo(s, k) - SizeTo(s, i)
  {
    assert s[..k] == s[..i] + s[i..k] && s == s[..i] + s[i..] && s == s[..k] + s[k..];
    SizeOfConcat(s[..i], s[i..k]);
    FrontSize(s[..i], s[i..], i);
    FrontSize(s[..k], s[k..], k);
  }

  lemma {:induction false} GainShows(fold: Lowering, t: string, lower: string, i: nat, k: nat, li: nat, lk: nat)
    requires i <= k <= |t| && li <= lk <= |lower| && lower[li..lk] == FoldAll(fold, t[i..k])
    requires SizeTo(lower, lk) - SizeTo(lower, li) != SizeTo(t, k) - SizeTo(t, i)
    ensures Trim(lower[li..lk]) != Trim(t[i..k])
  {
    SizeOfSlice(t, i, k);
    SizeOfSlice(lower, li, lk);
    LoweredShows(fold, t[i..k]);
  }

  /// The operands of the copy are the lower-cased operands of t, and t ends in the second one.
  ghost predicate Copied(fold: Fold, t: string, lower: string, p: nat, q: nat, r: nat, lp: nat, lq: nat, lr: nat)
  {
    && Joined(t, lower, p, q, r, lp, lq, lr) && Trimmed(t) && r < |t| && lower == FoldAll(fold, t)
    && lower[lp..lq] == FoldAll(fold, t[p..q]) && lower[lr..] == FoldAll(fold, t[r..])
  }

  lemma {:induction false} EqualKeepsIff(fold: Lowering, t: string, lower: string, p: nat, q: nat, r: nat,
                                         lp: nat, lq: nat, lr: nat, d: int)
    requires Copied(fold, t, lower, p, q, r, lp, lq, lr) && Size(lower) == Size(t)
    requires d == SizeTo(lower, lq) - SizeTo(t, q)
    ensures Kept(t, lower, lp, lq, lr, t[p..q], t[r..]) <==> MadeUp(t, p, q, r, d)
  {
    if d != 0 {
      GainShows(fold, t, lower, p, q, lp, lq);
      assert t[r..|t|] == t[r..] && lower[lr..|lower|] == lower[lr..];
      GainShows(fold, t, lower, r, |t|, lr, |lower|);
    }
    AlignedKeepsIff(t, lower, p, q, r, lp, lq, lr, d);
  }

  lemma {:induction false} UnequalLoses(fold: Lowering, t: string, lower: string, p: nat, q: nat, r: nat,
                                        lp: nat, lq: nat, lr: nat)
    requires Copied(fold, t, lower, p, q, r, lp, lq, lr) && Size(lower) != Size(t)
    ensures !Kept(t, lower, lp, lq, lr, t[p..q], t[r..])
  {
    var y := t[r..];
    assert y[|y| - 1] == t[|t| - 1];
    UnequalShows(fold, t, lower, lr, y);
  }

  /// Both operands are as said exactly when the sizes agree and the first one's gain is made up for.
  lemma {:induction false} CutsKeepIff(fold: Lowering, t: string, lower: string, p: nat, q: nat, r: nat,
                                       lp: nat, lq: nat, lr: nat, d: int)
    requires Copied(fold, t, lower, p, q, r, lp, lq, lr) && d == SizeTo(lower, lq) - SizeTo(t, q)
    ensures Kept(t, lower, lp, lq, lr, t[p..q], t[r..]) <==> Size(lower) == Size(t) && MadeUp(t, p, q, r, d)
  {
    if Size(lower) == Size(t) {
      EqualKeepsIff(fold, t, lower, p, q, r, lp, lq, lr, d);
    } else {
      UnequalLoses(fold, t, lower, p, q, r, lp, lq, lr);
    }
  }

  // ---- A spoken replacement ------------------------------------------------------------------------

  const VERBS: seq<(string, string)> := [("change", "to"), ("replace", "with"), ("make", "into"), ("swap", "for")]

  function Utter(v: string, x: string, w: string, y: string): string { Whole(v + " ", x, " " + w + " ", y) }

  function Head(verb: string): string { verb + " " }

  function Joiner(word: string): string { " " + word + " " }

  /// t is a verb, an operand, a joining word and an operand, split at the last joiner.
  predicate Spoken(fold: Fold, t: string, verb: string, word: string, v: string, x: string, w: string, y: string)
  {
    && t == Utter(v, x, w, y) && FoldAll(fold, v) == verb && FoldAll(fold, w) == word
    && LastFind(FoldAll(fold, x) + (Joiner(word) + FoldAll(fold, y)), Joiner(word), 0) == Some(|FoldAll(fold, x)|)
  }

  lemma {:induction false} JoinerAt(lower: string, head: string, joiner: string, rest: string, cut: nat, resume: nat)
    requires lower == head + rest && |head| <= cut && resume == cut + |joiner|
    requires LastFind(rest, joiner, 0) == Some(cut - |head|)
    ensures JoinerIn(lower, head, joiner) == Some(Span(cut, resume))
  {
    assert lower[|head|..] == rest;
  }

  lemma {:induction false} LoweredVerb(fold: Lowering, v: string)
    ensures FoldAll(fold, v + " ") == FoldAll(fold, v) + " "
  {
    assert IsSpace(' ') && Fixed(fold, ' ');
    FoldAllConcat(fold, v, " ");
  }

  lemma {:induction false} LoweredJoiner(fold: Lowering, w: string)
    ensures FoldAll(fold, " " + w + " ") == " " + FoldAll(fold, w) + " "
  {
    assert IsSpace(' ') && Fixed(fold, ' ');
    LoweredVerb(fold, " " + w);
    FoldAllConcat(fold, " ", w);
  }

  lemma {:induction false} SpokenLowered(fold: Lowering, t: string, verb: string, word: string,
                                         v: string, x: string, w: string, y: string)
    requires Spoken(fold, t, verb, word, v, x, w, y)
    ensures FoldAll(fold, t) == Whole(Head(verb), FoldAll(fold, x), Joiner(word), FoldAll(fold, y))
  {
    LoweredPieces(fold, v + " ", x, " " + w + " ", y);
    LoweredVerb(fold, v);
    LoweredJoiner(fold, w);
  }

  lemma {:induction false} SpokenJoiner(fold: Lowering, t: string, verb: string, word: string,
                                        v: string, x: string, w: string, y: string, cut: nat, resume: nat)
    requires Spoken(fold, t, verb, word, v, x, w, y)
    requires cut == |Head(verb)| + |FoldAll(fold, x)| && resume == cut + |Joiner(word)|
    ensures JoinerIn(FoldAll(fold, t), Head(verb), Joiner(word)) == Some(Span(cut, resume))
  {
    var (head, joiner, lx, ly) := (Head(verb), Joiner(word), FoldAll(fold, x), FoldAll(fold, y));
    SpokenLowered(fold, t, verb, word, v, x, w, y);
    Regrouped(head, lx, joiner, ly);
    JoinerAt(FoldAll(fold, t), head, joiner, lx + (joiner + ly), cut, resume);
  }

  lemma {:induction false} Regrouped(a: string, b: string, c: string, d: string)
    ensures Whole(a, b, c, d) == a + (b + (c + d))
  {
  }

  /// A word of one-byte letters, and what it is the lower case of, letter by letter.
  predicate PlainWord(word: string) { word != [] && AllNarrow(word) && forall i :: 0 <= i < |word| ==> !IsSpace(word[i]) }

  predicate PlainlySaid(s: string, word: string) { |s| == |word| && AllNarrow(s) }

  lemma {:induction false} NoSpaceSaid(fold: Lowering, s: string)
    requires forall i :: 0 <= i < |FoldAll(fold, s)| ==> !IsSpace(FoldAll(fold, s)[i])
    ensures forall i :: 0 <= i < |s| ==> !IsSpace(s[i])
  {
    if s != [] {
      var (first, rest) := (fold(s[0]), FoldAll(fold, s[1..]));
      assert FoldAll(fold, s)[0] == first[0];
      assert IsSpace(s[0]) ==> Fixed(fold, s[0]);
      forall i | 0 <= i < |rest| ensures !IsSpace(rest[i]) { assert rest[i] == FoldAll(fold, s)[|first| + i]; }
      NoSpaceSaid(fold, s[1..]);
      forall i | 0 <= i < |s| ensures !IsSpace(s[i]) {
        if i > 0 { assert s[i] == s[1..][i - 1]; }
      }
    }
  }

  lemma {:induction false} JoinerSaid(fold: Lowering, w: string, word: string)
    requires PlainWord(word) && FoldAll(fold, w) == word && PlainlySaid(w, word)
    ensures BetweenSpaces(" " + w + " ") && AllNarrow(Joiner(word)) && |" " + w + " "| == |Joiner(word)|
  {
    NoSpaceSaid(fold, w);
    var j := " " + w + " ";
    assert j[1] == w[0] && j[|j| - 2] == w[|w| - 1];
  }

  lemma {:induction false} WholeCuts(t: string, h: string, x: string, j: string, y: string, p: nat, q: nat, r: nat)
    requires t == Whole(h, x, j, y) && AllNarrow(h) && AllNarrow(j) && p == |h| && q == p + |x| && r == q + |j|
    ensures |t| == r + |y| && t[p..q] == x && t[q..r] == j && t[r..] == y
    ensures SizeTo(t, p) == p && SizeTo(t, q) == p + Size(x) && SizeTo(t, r) == SizeTo(t, q) + |j|
  {
    NarrowSize(h, |h|);
    NarrowSize(j, |j|);
    Joints(h, x, j, y);
    PieceTexts(h, x, j, y);
  }

  lemma {:induction false} CopyCuts(fold: Lowering, t: string, lower: string, verb: string, word: string,
                                    v: string, x: string, w: string, y: string, p: nat, lq: nat, lr: nat)
    requires lower == FoldAll(fold, t) && Spoken(fold, t, verb, word, v, x, w, y) && AllNarrow(verb) && AllNarrow(word)
    requires p == |Head(verb)| && lq == p + |FoldAll(fold, x)| && lr == lq + |Joiner(word)|
    ensures lr <= |lower| && lower[p..lq] == FoldAll(fold, x) && lower[lr..] == FoldAll(fold, y)
    ensures SizeTo(lower, p) == p && SizeTo(lower, lq) == p + Size(FoldAll(fold, x))
    ensures SizeTo(lower, lr) == SizeTo(lower, lq) + |Joiner(word)|
  {
    var (head, joiner) := (Head(verb), Joiner(word));
    assert AllNarrow(head) && AllNarrow(joiner);
    SpokenLowered(fold, t, verb, word, v, x, w, y);
    WholeCuts(lower, head, FoldAll(fold, x), joiner, FoldAll(fold, y), p, lq, lr);
  }

  /// The cuts of a spoken replacement and of its copy.
  lemma {:induction false} SpokenCopied(fold: Lowering, t: string, lower: string, verb: string, word: string,
                                        v: string, x: string, w: string, y: string,
                                        p: nat, q: nat, r: nat, lq: nat, lr: nat)
    requires lower == FoldAll(fold, t) && Spoken(fold, t, verb, word, v, x, w, y) && PlainWord(verb) && PlainWord(word)
    requires PlainlySaid(v, verb) && PlainlySaid(w, word) && Trimmed(t) && y != []
    requires p == |Head(verb)| && q == p + |x| && r == q + |Joiner(word)|
    requires lq == p + |FoldAll(fold, x)| && lr == lq + |Joiner(word)|
    ensures Copied(fold, t, lower, p, q, r, p, lq, lr) && t[p..q] == x && t[r..] == y
    ensures SizeTo(lower, lq) - SizeTo(t, q) == Size(FoldAll(fold, x)) - Size(x)
  {
    var j := " " + w + " ";
    JoinerSaid(fold, w, word);
    CopyCuts(fold, t, lower, verb, word, v, x, w, y, p, lq, lr);
    WholeCuts(t, v + " ", x, j, y, p, q, r);
    JoinerStands(t, j, q);
  }

  predicate IsVerb(verb: string, word: string) { (verb, word) in VERBS }

  lemma {:induction false} VerbLetters(verb: string, word: string)
    requires IsVerb(verb, word)
    ensures PlainWord(verb) && PlainWord(word)
  {
  }

  lemma {:induction false} Heads()
    ensures Head("change") == "change " && Head("replace") == "replace " && Head("make") == "make " && Head("swap") == "swap "
    ensures Joiner("to") == " to " && Joiner("with") == " with " && Joiner("into") == " into " && Joiner("for") == " for "
  {
  }

  lemma {:induction false} OneVerb(lower: string, verb: string, word: string, other: string, word2: string)
    requires IsVerb(verb, word) && IsVerb(other, word2) && Head(verb) <= lower && Head(other) <= lower
    ensures verb == other && word == word2
  {
    assert Head(verb)[0] == lower[0] == Head(other)[0];
    assert verb[0] == lower[0] == other[0];
  }

  /// What follows another verb is not looked at.
  lemma {:induction false} OthersPass(t: string, lower: string, verb: string, word: string, other: string, word2: string)
    requires IsVerb(verb, word) && IsVerb(other, word2) && Head(verb) <= lower && verb != other
    ensures ReplaceVerb(t, lower, Head(other), Joiner(word2)).None?
  {
    if Head(other) <= lower { OneVerb(lower, verb, word, other, word2); }
  }

  lemma {:induction false} LiteralReads(t: string, lower: string, verb: string, word: string)
    requires IsVerb(verb, word) && Head(verb) <= lower
    ensures var r := ReplaceVerb(t, lower, Head(verb), Joiner(word));
            if r.Some? then Literal(t, lower) == r.value else !Literal(t, lower).Replace?
  {
    LiteralElse(t, lower, verb, word);
  }

  /// A verb reads x and y exactly when they are what stands around its joiner.
  lemma {:induction false} KeptIsRead(t: string, lower: string, head: string, joiner: string, x: string, y: string,
                                      p: nat, cut: nat, resume: nat)
    requires p == |head| && JoinerIn(lower, head, joiner) == Some(Span(cut, resume))
    ensures ReplaceVerb(t, lower, head, joiner) == Some(Replace(Trim(x), Trim(y)))
            <==> Kept(t, lower, p, cut, resume, x, y) && Trim(x) != [] && Trim(y) != []
  {
    assert ReplaceVerb(t, lower, head, joiner)
           == Substitution(Between(t, lower, p, cut), Onward(t, lower, resume));
  }

  lemma {:induction false} LiteralReadsAs(t: string, lower: string, verb: string, word: string, i: Intent)
    requires IsVerb(verb, word) && Head(verb) <= lower && i.Replace?
    ensures Literal(t, lower) == i <==> ReplaceVerb(t, lower, Head(verb), Joiner(word)) == Some(i)
  {
    LiteralReads(t, lower, verb, word);
  }

  /// No rule of the extended grammar claims the utterance.
  ghost predicate Unclaimed(fold: Fold, u: string) { Extended(fold, Trim(u), FoldAll(fold, Trim(u))).Pass? }

  lemma {:induction false} UnclaimedIsLiteral(fold: Lowering, u: string)
    requires Unclaimed(fold, u)
    ensures Parse(fold, u) == Literal(Trim(u), FoldAll(fold, Trim(u)))
  {
  }

  lemma {:induction false} EndsInSpace(v: string, x: string, w: string)
    ensures var t := Utter(v, x, w, ""); t != [] && IsSpace(t[|t| - 1])
  {
    PieceTexts(v + " ", x, " " + w + " ", "");
    var (t, r) := (Utter(v, x, w, ""), |v| + 1 + |x|);
    assert t[r..r + |w| + 2][|w| + 1] == t[|t| - 1];
  }

  lemma {:induction false} NotBlank(y: string)
    requires y != [] && !IsSpace(y[|y| - 1])
    ensures Trim(y) != []
  {
    var a, b := TrimCore(y);
  }

  /// An utterance has no white space at its end, so there is a second operand.
  lemma {:induction false} SecondOperand(fold: Fold, u: string, verb: string, word: string, v: string, x: string, w: string, y: string)
    requires Spoken(fold, Trim(u), verb, word, v, x, w, y)
    ensures Trimmed(Trim(u)) && y != [] && Trim(y) != []
  {
    var t := Trim(u);
    TrimTrims(u);
    PieceTexts(v + " ", x, " " + w + " ", y);
    if y == [] {
      EndsInSpace(v, x, w);
    } else {
      assert t[|t| - 1] == t[|t| - |y|..][|y| - 1];
      NotBlank(y);
    }
  }

  ghost predicate SameSize(fold: Fold, s: string) { Size(FoldAll(fold, s)) == Size(s) }

  /// How much longer, in bytes, the copy of an operand is.
  function Gain(fold: Fold, x: string): int { Size(FoldAll(fold, x)) - Size(x) }

  /// A gain of d bytes in the copy of the first operand does no harm: there is none, or one that a
  /// space of one byte beside the joiner makes up for.
  predicate Harmless(x: string, y: string, d: int)
  {
    || d == 0
    || (d == 1 && y != [] && NarrowSpace(y[0]))
    || (d == -1 && x != [] && NarrowSpace(x[|x| - 1]))
  }

  lemma {:induction false} HarmlessIff(t: string, p: nat, q: nat, r: nat, x: string, y: string, d: int)
    requires p <= q <= r <= |t| && t[p..q] == x && t[r..] == y
    ensures MadeUp(t, p, q, r, d) <==> Harmless(x, y, d)
  {
    if p < q { assert t[q - 1] == x[|x| - 1]; }
    if r < |t| { assert t[r] == y[0]; }
  }

  lemma {:induction false} SpokenKeptIff(fold: Lowering, t: string, lower: string, verb: string, word: string,
                                         v: string, x: string, w: string, y: string, p: nat, cut: nat, resume: nat)
    requires lower == FoldAll(fold, t) && Spoken(fold, t, verb, word, v, x, w, y) && PlainWord(verb) && PlainWord(word)
    requires PlainlySaid(v, verb) && PlainlySaid(w, word) && Trimmed(t) && y != []
    requires p == |Head(verb)| && cut == p + |FoldAll(fold, x)| && resume == cut + |Joiner(word)|
    ensures Kept(t, lower, p, cut, resume, x, y) <==> Size(lower) == Size(t) && Harmless(x, y, Gain(fold, x))
  {
    var q := p + |x|;
    var r := q + |Joiner(word)|;
    SpokenCopied(fold, t, lower, verb, word, v, x, w, y, p, q, r, cut, resume);
    CutsKeepIff(fold, t, lower, p, q, r, p, cut, resume, Gain(fold, x));
    HarmlessIff(t, p, q, r, x, y, Gain(fold, x));
  }

  lemma {:induction false} LiteralAsSaidIff(fold: Lowering, t: string, lower: string, verb: string, word: string,
                                            v: string, x: string, w: string, y: string)
    requires lower == FoldAll(fold, t) && Spoken(fold, t, verb, word, v, x, w, y) && IsVerb(verb, word)
    requires PlainlySaid(v, verb) && PlainlySaid(w, word) && Trimmed(t) && y != [] && Trim(y) != []
    ensures Literal(t, lower) == Replace(Trim(x), Trim(y))
            <==> Trim(x) != [] && Size(lower) == Size(t) && Harmless(x, y, Gain(fold, x))
  {
    var p := |Head(verb)|;
    var cut := p + |FoldAll(fold, x)|;
    var resume := cut + |Joiner(word)|;
    VerbLetters(verb, word);
    SpokenJoiner(fold, t, verb, word, v, x, w, y, cut, resume);
    SpokenKeptIff(fold, t, lower, verb, word, v, x, w, y, p, cut, resume);
    KeptIsRead(t, lower, Head(verb), Joiner(word), x, y, p, cut, resume);
    LiteralReadsAs(t, lower, verb, word, Replace(Trim(x), Trim(y)));
  }

  /// A replacement has the operands that were said, cased as they were said, exactly when the
  /// lower-cased copy has the size of the utterance and the first operand gains nothing in it, or
  /// gains or loses one byte that a space beside the joiner makes up for.
  lemma {:induction false} ReplacedAsSaidIff(fold: Lowering, u: string, verb: string, word: string,
                                             v: string, x: string, w: string, y: string)
    requires IsVerb(verb, word) && Spoken(fold, Trim(u), verb, word, v, x, w, y) && Unclaimed(fold, u)
    requires PlainlySaid(v, verb) && PlainlySaid(w, word)
    ensures Parse(fold, u) == Replace(Trim(x), Trim(y))
            <==> Trim(x) != [] && SameSize(fold, Trim(u)) && Harmless(x, y, Gain(fold, x))
  {
    SecondOperand(fold, u, verb, word, v, x, w, y);
    UnclaimedIsLiteral(fold, u);
    LiteralAsSaidIff(fold, Trim(u), FoldAll(fold, Trim(u)), verb, word, v, x, w, y);
  }

  // ---- When the sizes differ -----------------------------------------------------------------------

  lemma {:induction false} SecondInCopy(fold: Lowering, t: string, lower: string, verb: string, word: string,
                                        v: string, x: string, w: string, y: string, p: nat, cut: nat, resume: nat)
    requires lower == FoldAll(fold, t) && Spoken(fold, t, verb, word, v, x, w, y)
    requires p == |Head(verb)| && cut == p + |FoldAll(fold, x)| && resume == cut + |Joiner(word)|
    ensures resume + |FoldAll(fold, y)| == |lower| && lower[p..cut] == FoldAll(fold, x) && lower[resume..] == FoldAll(fold, y)
  {
    SpokenLowered(fold, t, verb, word, v, x, w, y);
    PieceTexts(Head(verb), FoldAll(fold, x), Joiner(word), FoldAll(fold, y));
  }

  lemma {:induction false} UnequalNotKept(fold: Lowering, t: string, lower: string, verb: string, word: string,
                                          v: string, x: string, w: string, y: string, p: nat, cut: nat, resume: nat)
    requires lower == FoldAll(fold, t) && Spoken(fold, t, verb, word, v, x, w, y) && Size(lower) != Size(t)
    requires Trimmed(t) && y != []
    requires p == |Head(verb)| && cut == p + |FoldAll(fold, x)| && resume == cut + |Joiner(word)|
    ensures !Kept(t, lower, p, cut, resume, x, y)
  {
    SecondInCopy(fold, t, lower, verb, word, v, x, w, y, p, cut, resume);
    PieceTexts(v + " ", x, " " + w + " ", y);
    assert y[|y| - 1] == t[|t| - 1];
    UnequalShows(fold, t, lower, resume, y);
  }

  /// However the verb was said, when lower-casing changes the size of the utterance the operands of a
  /// replacement are not what was said.
  lemma {:induction false} UnequalNeverAsSaid(fold: Lowering, u: string, verb: string, word: string,
                                              v: string, x: string, w: string, y: string)
    requires IsVerb(verb, word) && Spoken(fold, Trim(u), verb, word, v, x, w, y) && Unclaimed(fold, u)
    requires !SameSize(fold, Trim(u))
    ensures Parse(fold, u) != Replace(Trim(x), Trim(y))
  {
    var (t, p) := (Trim(u), |Head(verb)|);
    var lower, cut := FoldAll(fold, t), p + |FoldAll(fold, x)|;
    var resume := cut + |Joiner(word)|;
    SecondOperand(fold, u, verb, word, v, x, w, y);
    UnclaimedIsLiteral(fold, u);
    SpokenJoiner(fold, t, verb, word, v, x, w, y, cut, resume);
    UnequalNotKept(fold, t, lower, verb, word, v, x, w, y, p, cut, resume);
    KeptIsRead(t, lower, Head(verb), Joiner(word), x, y, p, cut, resume);
    LiteralReadsAs(t, lower, verb, word, Replace(Trim(x), Trim(y)));
  }

  /// Where a byte of the second operand stands in the whole copy.
  lemma {:induction false} CutOfRest(lower: string, front: string, ly: string, b: nat)
    requires lower == front + ly
    ensures AtByte(lower, Size(front) + b, 0)
            == if AtByte(ly, b, 0).Some? then Some(|front| + AtByte(ly, b, 0).value) else None
  {
    var (e, n, m) := (Size(front) + b, AtByte(ly, b, 0), AtByte(lower, Size(front) + b, 0));
    if n.Some? {
      AtByteIs(ly, b, 0);
      SizeToOfConcat(front, ly, |front| + n.value);
      ByteOf(lower, 0, |front| + n.value);
    } else if m.Some? {
      AtByteIs(lower, e, 0);
      SizeToOfConcat(front, ly, m.value);
      if m.value < |front| { SizesRise(front, m.value, |front|); }
      ByteOf(ly, 0, m.value - |front|);
    }
  }

  /// A cut before the second operand is no cut of it.
  lemma {:induction false} CutBefore(lower: string, front: string, ly: string, e: nat)
    requires lower == front + ly && e < Size(front)
    ensures AtByte(lower, e, 0).Some? ==> AtByte(lower, e, 0).value < |front|
  {
    var m := AtByte(lower, e, 0);
    if m.Some? {
      AtByteIs(lower, e, 0);
      SizeToOfConcat(front, ly, m.value);
    }
  }

  /// What is inserted when the copy has d bytes more than the utterance, or fewer: its second operand
  /// without its last d bytes, if it has as many and no character is cut through; or else the whole copy.
  function Inserted(lower: string, ly: string, d: int): string
  {
    var n := if 0 < d <= Size(ly) then AtByte(ly, Size(ly) - d, 0) else None;
    if n.Some? then Trim(ly[..n.value]) else lower
  }

  lemma {:induction false} GrownSlice(t: string, lower: string, front: string, ly: string, resume: nat, d: nat)
    requires lower == front + ly && resume == |front| && 0 < d == Size(lower) - Size(t)
    ensures SliceOriginal(t, lower, SizeTo(lower, resume), Size(t))
            == var n := if d <= Size(ly) then AtByte(ly, Size(ly) - d, 0) else None;
               if n.Some? then ly[..n.value] else lower
  {
    SizeOfConcat(front, ly);
    ByteOf(lower, 0, resume);
    if d <= Size(ly) {
      CutOfRest(lower, front, ly, Size(ly) - d);
      var n := AtByte(ly, Size(ly) - d, 0);
      if n.Some? { assert lower[resume..resume + n.value] == ly[..n.value]; }
    } else {
      CutBefore(lower, front, ly, Size(t));
    }
  }

  lemma {:induction false} OnwardInserts(t: string, lower: string, front: string, ly: string, resume: nat)
    requires lower == front + ly && resume == |front| && Trimmed(lower) && Size(lower) != Size(t)
    ensures Onward(t, lower, resume) == Inserted(lower, ly, Size(lower) - Size(t))
  {
    TrimmedStays(lower);
    if Size(lower) < Size(t) {
      SliceOfShorter(t, lower, SizeTo(lower, resume));
    } else {
      GrownSlice(t, lower, front, ly, resume, Size(lower) - Size(t));
    }
  }

  /// Without a verb that reads it, the command is a change of case or nothing.
  function Unread(t: string, lower: string): Intent
  {
    if WholeCase(lower).Some? then Recase(WholeCase(lower).value) else Freeform(t)
  }

  /// Two words that do not begin with the same three letters.
  predicate Differ(a: string, b: string)
  {
    |a| > 2 && |b| > 2 && (a[0] != b[0] || a[1] != b[1] || a[2] != b[2])
  }

  lemma {:induction false} VerbsDiffer(verb: string, word: string)
    requires IsVerb(verb, word)
    ensures forall h :: h in ["delete ", "remove ", "get rid of ", "scratch "] ==> Differ(verb, h)
    ensures forall h :: h in ["append ", "add ", "also add "] ==> Differ(verb, h)
  {
  }

  lemma {:induction false} NotHeaded(lower: string, verb: string, h: string)
    requires Head(verb) <= lower && Differ(verb, h)
    ensures !(h <= lower)
  {
    assert lower[0] == verb[0] && lower[1] == verb[1] && lower[2] == verb[2];
  }

  lemma {:induction false} OthersUnread(t: string, lower: string, verb: string, word: string)
    requires IsVerb(verb, word) && Head(verb) <= lower
    ensures Operand(t, lower, ["delete ", "remove ", "get rid of ", "scratch "]).None?
    ensures Operand(t, lower, ["append ", "add ", "also add "]).None?
  {
    VerbsDiffer(verb, word);
    forall h | Differ(verb, h) ensures !(h <= lower) { NotHeaded(lower, verb, h); }
    NoOperand(t, lower, ["delete ", "remove ", "get rid of ", "scratch "]);
    NoOperand(t, lower, ["append ", "add ", "also add "]);
  }

  lemma {:induction false} LiteralElse(t: string, lower: string, verb: string, word: string)
    requires IsVerb(verb, word) && Head(verb) <= lower
    ensures var r := ReplaceVerb(t, lower, Head(verb), Joiner(word));
            Literal(t, lower) == if r.Some? then r.value else Unread(t, lower)
  {
    Heads();
    OthersUnread(t, lower, verb, word);
    if verb != "change" { OthersPass(t, lower, verb, word, "change", "to"); }
    if verb != "replace" { OthersPass(t, lower, verb, word, "replace", "with"); }
    if verb != "make" { OthersPass(t, lower, verb, word, "make", "into"); }
    if verb != "swap" { OthersPass(t, lower, verb, word, "swap", "for"); }
  }

  lemma {:induction false} VerbInserts(t: string, lower: string, head: string, joiner: string, p: nat, cut: nat, resume: nat,
                                       front: string, ly: string)
    requires p == |head| && JoinerIn(lower, head, joiner) == Some(Span(cut, resume)) && Size(lower) != Size(t)
    requires lower == front + ly && resume == |front| && Trimmed(lower)
    ensures ReplaceVerb(t, lower, head, joiner)
            == Substitution(Trim(lower[p..cut]), Inserted(lower, ly, Size(lower) - Size(t)))
  {
    SliceOfCopy(t, lower, p, cut);
    OnwardInserts(t, lower, front, ly, resume);
    assert ReplaceVerb(t, lower, head, joiner)
           == Substitution(Between(t, lower, p, cut), Onward(t, lower, resume));
  }

  lemma {:induction false} LiteralInserts(fold: Lowering, t: string, lower: string, verb: string, word: string,
                                          v: string, x: string, w: string, y: string, lx: string, ly: string)
    requires lower == FoldAll(fold, t) && lx == FoldAll(fold, x) && ly == FoldAll(fold, y) && Trimmed(t)
    requires IsVerb(verb, word) && Spoken(fold, t, verb, word, v, x, w, y) && Size(lower) != Size(t)
    ensures var inserted := Inserted(lower, ly, Size(lower) - Size(t));
            Literal(t, lower) == if Trim(lx) != [] && inserted != [] then Replace(Trim(lx), inserted) else Unread(t, lower)
  {
    var p := |Head(verb)|;
    var cut := p + |lx|;
    var resume := cut + |Joiner(word)|;
    LoweredTrimmed(fold, t);
    SpokenJoiner(fold, t, verb, word, v, x, w, y, cut, resume);
    SecondInCopy(fold, t, lower, verb, word, v, x, w, y, p, cut, resume);
    VerbInserts(t, lower, Head(verb), Joiner(word), p, cut, resume, lower[..resume], ly);
    LiteralElse(t, lower, verb, word);
  }

  /// For every verb and every utterance whose size lower-casing changes, what is searched for and what
  /// is inserted instead.
  lemma {:induction false} UnequalInserts(fold: Lowering, u: string, verb: string, word: string,
                                          v: string, x: string, w: string, y: string)
    requires IsVerb(verb, word) && Spoken(fold, Trim(u), verb, word, v, x, w, y) && Unclaimed(fold, u)
    requires !SameSize(fold, Trim(u))
    ensures var (t, lower, sought) := (Trim(u), FoldAll(fold, Trim(u)), Trim(FoldAll(fold, x)));
            var inserted := Inserted(lower, FoldAll(fold, y), Size(lower) - Size(t));
            Parse(fold, u) == if sought != [] && inserted != [] then Replace(sought, inserted) else Unread(t, lower)
  {
    var t := Trim(u);
    TrimTrims(u);
    UnclaimedIsLiteral(fold, u);
    LiteralInserts(fold, t, FoldAll(fold, t), verb, word, v, x, w, y, FoldAll(fold, x), FoldAll(fold, y));
  }

  /// When it shrinks, the whole utterance is inserted, lower-cased.
  lemma {:induction false} ShrunkInsertsAll(fold: Lowering, u: string, verb: string, word: string,
                                            v: string, x: string, w: string, y: string)
    requires IsVerb(verb, word) && Spoken(fold, Trim(u), verb, word, v, x, w, y) && Unclaimed(fold, u)
    requires Size(FoldAll(fold, Trim(u))) < Size(Trim(u)) && Trim(FoldAll(fold, x)) != []
    ensures Parse(fold, u) == Replace(Trim(FoldAll(fold, x)), FoldAll(fold, Trim(u)))
  {
    SecondOperand(fold, u, verb, word, v, x, w, y);
    LoweredTrimmed(fold, Trim(u));
    UnequalInserts(fold, u, verb, word, v, x, w, y);
    assert FoldAll(fold, Trim(u)) != [];
  }

  // ---- Every replacement is spoken so --------------------------------------------------------------

  /// A space in the copy is a space that was said.
  lemma {:induction false} SplitAtSpace(fold: Lowering, s: string, n: nat) returns (k: nat)
    requires n < |FoldAll(fold, s)| && FoldAll(fold, s)[n] == ' '
    ensures k < |s| && s[k] == ' '
    ensures FoldAll(fold, s[..k]) == FoldAll(fold, s)[..n] && FoldAll(fold, s[k + 1..]) == FoldAll(fold, s)[n + 1..]
  {
    var (first, rest) := (fold(s[0]), FoldAll(fold, s[1..]));
    if n < |first| {
      assert first[n] == ' ' && IsSpace(s[0]) && Fixed(fold, s[0]);
      k := 0;
    } else {
      var i := SplitAtSpace(fold, s[1..], n - |first|);
      k := i + 1;
      assert s[..k][1..] == s[1..][..i] && s[k + 1..] == s[1..][i + 1..];
      SplitFurther(fold, s, k, first, rest, n);
    }
  }

  lemma {:induction false} SplitFurther(fold: Lowering, s: string, k: nat, first: string, rest: string, n: nat)
    requires 0 < k < |s| && first == fold(s[0]) && rest == FoldAll(fold, s[1..]) && |first| <= n < |first + rest|
    requires FoldAll(fold, s[..k][1..]) == rest[..n - |first|]
    ensures FoldAll(fold, s[..k]) == FoldAll(fold, s)[..n] && rest[n - |first| + 1..] == FoldAll(fold, s)[n + 1..]
  {
    assert FoldAll(fold, s) == first + rest && s[..k][0] == s[0];
    assert (first + rest)[..n] == first + rest[..n - |first|];
    assert (first + rest)[n + 1..] == rest[n - |first| + 1..];
  }

  lemma {:induction false} LastFindThere(s: string, part: string, i: nat)
    ensures LastFind(s, part, i).Some? ==> HasAt(s, part, LastFind(s, part, i).value)
    decreases |s| - i
  {
    if i <= |s| { LastFindThere(s, part, i + 1); }
  }

  lemma {:induction false} SplitInTwo(fold: Lowering, s: string, low: string, n: nat) returns (a: string, b: string)
    requires low == FoldAll(fold, s) && n < |low| && low[n] == ' '
    ensures s == a + (" " + b) && FoldAll(fold, a) == low[..n] && FoldAll(fold, b) == low[n + 1..]
  {
    var k := SplitAtSpace(fold, s, n);
    a, b := s[..k], s[k + 1..];
    assert s == a + ([s[k]] + b);
  }

  lemma {:induction false} JoinerParts(low: string, word: string, n: nat)
    requires HasAt(low, Joiner(word), n)
    ensures n + |word| + 2 <= |low| && low[n] == ' '
    ensures var rest := low[n + 1..];
            rest[|word|] == ' ' && rest[..|word|] == word && rest[|word| + 1..] == low[n + |word| + 2..]
  {
    var j := Joiner(word);
    assert low[n..n + |j|] == j;
    assert low[n] == j[0] && low[n + 1..][|word|] == low[n + |word| + 1] == j[|word| + 1];
    assert low[n + 1..n + 1 + |word|] == low[n..n + |j|][1..1 + |word|] == word;
    assert low[n + 1..][..|word|] == low[n + 1..n + 1 + |word|];
  }

  lemma {:induction false} AroundJoiner(low: string, word: string, n: nat)
    requires HasAt(low, Joiner(word), n)
    ensures n + |word| + 2 <= |low| && low == low[..n] + (Joiner(word) + low[n + |word| + 2..])
  {
    var j := Joiner(word);
    assert low == low[..n] + (low[n..n + |j|] + low[n + |j|..]);
  }

  /// The part of the utterance after the verb splits at the last joiner.
  lemma {:induction false} SplitAtJoiner(fold: Lowering, s: string, low: string, word: string, n: nat)
    returns (x: string, w: string, y: string)
    requires low == FoldAll(fold, s) && HasAt(low, Joiner(word), n)
    ensures s == x + (" " + (w + (" " + y))) && FoldAll(fold, w) == word && |FoldAll(fold, x)| == n
    ensures low == FoldAll(fold, x) + (Joiner(word) + FoldAll(fold, y))
  {
    JoinerParts(low, word, n);
    AroundJoiner(low, word, n);
    var rest;
    x, rest := SplitInTwo(fold, s, low, n);
    w, y := SplitInTwo(fold, rest, low[n + 1..], |word|);
  }

  lemma {:induction false} SaidAgain(v: string, x: string, w: string, y: string)
    ensures v + (" " + (x + (" " + (w + (" " + y))))) == Utter(v, x, w, y)
  {
  }

  lemma {:induction false} AfterHead(low: string, verb: string)
    requires Head(verb) <= low
    ensures |verb| < |low| && low[|verb|] == ' ' && low[..|verb|] == verb && low[|verb| + 1..] == low[|Head(verb)|..]
  {
    assert low[|verb|] == Head(verb)[|verb|];
  }

  lemma {:induction false} VerbIsSpoken(fold: Lowering, t: string, low: string, verb: string, word: string)
    returns (v: string, x: string, w: string, y: string)
    requires low == FoldAll(fold, t) && JoinerIn(low, Head(verb), Joiner(word)).Some?
    ensures Spoken(fold, t, verb, word, v, x, w, y)
  {
    AfterHead(low, verb);
    var rest, after := low[|Head(verb)|..], t;
    v, after := SplitInTwo(fold, t, low, |verb|);
    LastFindThere(rest, Joiner(word), 0);
    x, w, y := SplitAtJoiner(fold, after, rest, word, LastFind(rest, Joiner(word), 0).value);
    SaidAgain(v, x, w, y);
  }

  lemma {:induction false} SomeVerbRead(t: string, lower: string) returns (verb: string, word: string)
    requires Literal(t, lower).Replace?
    ensures IsVerb(verb, word) && JoinerIn(lower, Head(verb), Joiner(word)).Some?
  {
    Heads();
    if ReplaceVerb(t, lower, "change ", " to ").Some? {
      verb, word := "change", "to";
    } else if ReplaceVerb(t, lower, "replace ", " with ").Some? {
      verb, word := "replace", "with";
    } else if ReplaceVerb(t, lower, "make ", " into ").Some? {
      verb, word := "make", "into";
    } else {
      verb, word := "swap", "for";
    }
  }

  /// Every replacement comes from an utterance of that form, which no other rule claims.
  lemma {:induction false} ReplaceIsSpoken(fold: Lowering, u: string)
    returns (verb: string, word: string, v: string, x: string, w: string, y: string)
    requires Parse(fold, u).Replace?
    ensures IsVerb(verb, word) && Spoken(fold, Trim(u), verb, word, v, x, w, y) && Unclaimed(fold, u)
  {
    var t := Trim(u);
    LiteralOnlyOnPass(fold, t, FoldAll(fold, t));
    verb, word := SomeVerbRead(t, FoldAll(fold, t));
    v, x, w, y := VerbIsSpoken(fold, t, FoldAll(fold, t), verb, word);
  }

  // ---- Deletions and additions ---------------------------------------------------------------------

  const DELETES: seq<string> := ["delete ", "remove ", "get rid of ", "scratch "]

  const APPENDS: seq<string> := ["append ", "add ", "also add "]

  /// t is a head said plainly, and an operand.
  predicate Headed(fold: Fold, t: string, head: string, h: string, x: string)
  {
    t == h + x && x != [] && FoldAll(fold, h) == head && PlainlySaid(h, head) && AllNarrow(head)
  }

  /// An operand that ends the utterance is what was said exactly when the sizes agree.
  lemma {:induction false} OperandAsSaidIff(fold: Lowering, t: string, lower: string, head: string, h: string, x: string)
    requires lower == FoldAll(fold, t) && Headed(fold, t, head, h, x) && Trimmed(t) && head != []
    ensures |head| <= |lower|
    ensures Onward(t, lower, |head|) == Trim(x) <==> Size(lower) == Size(t)
  {
    var n := |head|;
    FoldAllConcat(fold, h, x);
    Tails(t, lower, head, h, x, FoldAll(fold, x));
    if Size(lower) == Size(t) {
      HeadSizes(t, lower, head, h, x, FoldAll(fold, x));
      SliceOfOriginal(t, lower, n, |t|);
      assert t[n..|t|] == x;
    } else {
      assert x[|x| - 1] == t[|t| - 1];
      UnequalShows(fold, t, lower, n, x);
    }
  }

  lemma {:induction false} Tails(t: string, lower: string, head: string, h: string, x: string, lx: string)
    requires t == h + x && lower == head + lx && |h| == |head|
    ensures t[|head|..] == x && lower[|head|..] == lx
  {
  }

  lemma {:induction false} HeadSizes(t: string, lower: string, head: string, h: string, x: string, lx: string)
    requires t == h + x && lower == head + lx && AllNarrow(h) && AllNarrow(head) && |h| == |head|
    ensures SizeTo(t, |head|) == SizeTo(lower, |head|)
  {
    FrontSize(h, x, |h|);
    FrontSize(head, lx, |head|);
    NarrowSize(h, |h|);
    NarrowSize(head, |head|);
  }

  lemma {:induction false} OperandOf(t: string, lower: string, heads: seq<string>, k: nat)
    requires k < |heads| && heads[k] <= lower && Trim(lower[|heads[k]|..]) != []
    requires forall m :: 0 <= m < k ==> !(heads[m] <= lower)
    ensures Operand(t, lower, heads) == Some(Onward(t, lower, |heads[k]|))
    decreases k
  {
    if k > 0 {
      assert !(heads[0] <= lower);
      forall m | 0 <= m < k - 1 ensures !(heads[1..][m] <= lower) { assert heads[1..][m] == heads[m + 1]; }
      OperandOf(t, lower, heads[1..], k - 1);
    }
  }

  /// The second and third letters tell the heads that begin alike from each other.
  lemma {:induction false} DeleteIsAlone(lower: string, k: nat)
    requires k < |DELETES| && DELETES[k] <= lower
    ensures !("change " <= lower) && !("replace " <= lower) && !("make " <= lower) && !("swap " <= lower)
    ensures forall m :: 0 <= m < k ==> !(DELETES[m] <= lower)
  {
    assert lower[0] == DELETES[k][0] && lower[1] == DELETES[k][1] && lower[2] == DELETES[k][2];
  }

  lemma {:induction false} AppendIsAlone(lower: string, k: nat)
    requires k < |APPENDS| && APPENDS[k] <= lower
    ensures !("change " <= lower) && !("replace " <= lower) && !("make " <= lower) && !("swap " <= lower)
    ensures forall m :: 0 <= m < |DELETES| ==> !(DELETES[m] <= lower)
    ensures forall m :: 0 <= m < k ==> !(APPENDS[m] <= lower)
  {
    assert lower[0] == APPENDS[k][0] == 'a' && lower[1] == APPENDS[k][1] && lower[2] == APPENDS[k][2];
  }

  lemma {:induction false} DeleteReads(t: string, lower: string, k: nat)
    requires k < |DELETES| && DELETES[k] <= lower && Trim(lower[|DELETES[k]|..]) != []
    ensures Literal(t, lower) == Delete(Onward(t, lower, |DELETES[k]|))
  {
    DeleteIsAlone(lower, k);
    OperandOf(t, lower, DELETES, k);
  }

  lemma {:induction false} AppendReads(t: string, lower: string, k: nat)
    requires k < |APPENDS| && APPENDS[k] <= lower && Trim(lower[|APPENDS[k]|..]) != []
    ensures Literal(t, lower) == Append(Onward(t, lower, |APPENDS[k]|))
  {
    AppendIsAlone(lower, k);
    NoOperand(t, lower, DELETES);
    OperandOf(t, lower, APPENDS, k);
  }

  lemma {:induction false} HeadedLower(fold: Lowering, t: string, lower: string, head: string, h: string, x: string)
    requires lower == FoldAll(fold, t) && Headed(fold, t, head, h, x) && Trimmed(t)
    ensures head <= lower && Trim(lower[|head|..]) != []
  {
    FoldAllConcat(fold, h, x);
    LoweredTrimmed(fold, t);
    RestShows(lower, head, FoldAll(fold, x));
  }

  lemma {:induction false} RestShows(lower: string, head: string, rest: string)
    requires lower == head + rest && rest != [] && Trimmed(lower)
    ensures head <= lower && lower[|head|..] == rest && Trim(rest) != []
  {
    assert rest[|rest| - 1] == lower[|lower| - 1];
    NotBlank(rest);
  }

  lemma {:induction false} LiteralDeletesIff(fold: Lowering, t: string, lower: string, k: nat, h: string, x: string)
    requires lower == FoldAll(fold, t) && k < |DELETES| && Headed(fold, t, DELETES[k], h, x) && Trimmed(t)
    ensures Literal(t, lower) == Delete(Trim(x)) <==> Size(lower) == Size(t)
  {
    HeadedLower(fold, t, lower, DELETES[k], h, x);
    DeleteReads(t, lower, k);
    OperandAsSaidIff(fold, t, lower, DELETES[k], h, x);
  }

  /// A deletion names what was said exactly when lower-casing keeps the size of the utterance.
  lemma {:induction false} DeletedAsSaidIff(fold: Lowering, u: string, k: nat, h: string, x: string)
    requires k < |DELETES| && Headed(fold, Trim(u), DELETES[k], h, x) && Unclaimed(fold, u)
    ensures Parse(fold, u) == Delete(Trim(x)) <==> SameSize(fold, Trim(u))
  {
    TrimTrims(u);
    UnclaimedIsLiteral(fold, u);
    LiteralDeletesIff(fold, Trim(u), FoldAll(fold, Trim(u)), k, h, x);
  }

  lemma {:induction false} LiteralAppendsIff(fold: Lowering, t: string, lower: string, k: nat, h: string, x: string)
    requires lower == FoldAll(fold, t) && k < |APPENDS| && Headed(fold, t, APPENDS[k], h, x) && Trimmed(t)
    ensures Literal(t, lower) == Append(Trim(x)) <==> Size(lower) == Size(t)
  {
    HeadedLower(fold, t, lower, APPENDS[k], h, x);
    AppendReads(t, lower, k);
    OperandAsSaidIff(fold, t, lower, APPENDS[k], h, x);
  }

  /// And so does an addition.
  lemma {:induction false} AppendedAsSaidIff(fold: Lowering, u: string, k: nat, h: string, x: string)
    requires k < |APPENDS| && Headed(fold, Trim(u), APPENDS[k], h, x) && Unclaimed(fold, u)
    ensures Parse(fold, u) == Append(Trim(x)) <==> SameSize(fold, Trim(u))
  {
    TrimTrims(u);
    UnclaimedIsLiteral(fold, u);
    LiteralAppendsIff(fold, Trim(u), FoldAll(fold, Trim(u)), k, h, x);
  }

  // ---- Utterances ----------------------------------------------------------------------------------

  /// Between words, the only joiner is the one that was said.
  lemma {:induction false} LastJoiner(x: string, word: string, y: string)
    requires forall c :: c in y ==> !IsSpace(c)
    ensures LastFind(x + (Joiner(word) + y), Joiner(word), 0) == Some(|x|)
  {
    var (s, j) := (x + (Joiner(word) + y), Joiner(word));
    assert s[|x|..|x| + |j|] == j;
    forall n | n > |x| ensures !HasAt(s, j, n) {
      if n + |j| <= |s| {
        assert s[n + |j| - 1] == y[n - 1 - |x|] && y[n - 1 - |x|] in y;
        assert s[n..n + |j|][|j| - 1] == s[n + |j| - 1] != j[|j| - 1];
      }
    }
    LastFindAt(s, j, 0, |x|);
  }

  lemma {:induction false} NoSpaceIn(fold: Lowering, s: string, c: char)
    requires c in FoldAll(fold, s) && IsSpace(c)
    ensures c in s
  {
    if c in fold(s[0]) {
      var i :| 0 <= i < |fold(s[0])| && fold(s[0])[i] == c;
      assert Fixed(fold, s[0]);
    } else {
      NoSpaceIn(fold, s[1..], c);
    }
  }

  function Change(x: string, y: string): string { Utter("change", x, "to", y) }

  ghost predicate ChangeWords(fold: Lowering, x: string, y: string)
  {
    IsWord(x) && IsWord(y) && AllFixed(fold, "change") && AllFixed(fold, "to")
  }

  lemma {:induction false} ChangeIsTrimmed(x: string, y: string)
    requires IsWord(y)
    ensures Trim(Change(x, y)) == Change(x, y)
  {
    var u := Change(x, y);
    assert u[0] == 'c' && u[|u| - 1] == y[|y| - 1] && y[|y| - 1] in y;
    TrimmedStays(u);
  }

  lemma {:induction false} ChangeIsSpoken(fold: Lowering, x: string, y: string)
    requires ChangeWords(fold, x, y)
    ensures Spoken(fold, Change(x, y), "change", "to", "change", x, "to", y)
    ensures FoldAll(fold, Change(x, y)) == Change(FoldAll(fold, x), FoldAll(fold, y))
  {
    FixedStays(fold, "change");
    FixedStays(fold, "to");
    forall c | c in FoldAll(fold, y) ensures !IsSpace(c) {
      if IsSpace(c) { NoSpaceIn(fold, y, c); }
    }
    LastJoiner(FoldAll(fold, x), "to", FoldAll(fold, y));
    SpokenLowered(fold, Change(x, y), "change", "to", "change", x, "to", y);
  }

  /// Every pattern that a rule looks for has one of these letters.
  predicate Bland(s: string) { 's' !in s && 'l' !in s && 'm' !in s && 'p' !in s }

  lemma {:induction false} BlandPatterns(s: string)
    requires Bland(s)
    ensures StyleNamed(s).None? && !NamesMark(s)
    ensures !Contains(s, "one line") && !Contains(s, "single line") && !Contains(s, "bullet") && !Contains(s, "number")
    ensures !Contains(s, "numbered list") && !Contains(s, "own line")
  {
    BlandStyles(s);
    BlandMarks(s);
    Lacks(s, "one line", 'l');
    Lacks(s, "single line", 'l');
    Lacks(s, "bullet", 'l');
    Lacks(s, "number", 'm');
    Lacks(s, "numbered list", 'm');
    Lacks(s, "own line", 'l');
  }

  lemma {:induction false} BlandStyles(s: string)
    requires 's' !in s
    ensures StyleNamed(s).None?
  {
    Lacks(s, "screaming snake", 's');
    Lacks(s, "constant case", 's');
    Lacks(s, "snake case", 's');
    Lacks(s, "camel case", 's');
    Lacks(s, "pascal case", 's');
    Lacks(s, "upper camel case", 's');
    Lacks(s, "kebab case", 's');
    Lacks(s, "dash case", 's');
    Lacks(s, "slug", 's');
  }

  lemma {:induction false} BlandMarks(s: string)
    requires Bland(s)
    ensures !NamesMark(s)
  {
    forall k | 0 <= k < |MARKS| ensures !Contains(s, MARKS[k].0) {
      var c := MarkLetter(k);
      Lacks(s, MARKS[k].0, c);
    }
  }

  lemma {:induction false} MarkLetter(k: nat) returns (c: char)
    requires k < |MARKS|
    ensures c in MARKS[k].0 && (c == 's' || c == 'l' || c == 'm' || c == 'p')
  {
    var i := [3, 3, 3, 2, 0, 0, 0, 2, 2][k];
    c := MARKS[k].0[i];
  }

  function ChangeTokens(x: string, y: string): seq<string> { ["change", x, "to", y] }

  /// A lower-case operand that no rule looks for.
  predicate Ordinary(w: string) { IsWord(w) && TrimMarks(w) == w && Bland(w) && UnitOf(w).None? }

  lemma {:induction false} ChangeSplits(x: string, y: string)
    requires Ordinary(x) && Ordinary(y)
    ensures Tokens(Change(x, y)) == ChangeTokens(x, y) && Join(ChangeTokens(x, y)) == Change(x, y)
  {
    var toks := ChangeTokens(x, y);
    assert IsWord("change") && TrimMarks("change") == "change" && IsWord("to") && TrimMarks("to") == "to";
    CleanWords(toks);
    Unjoin(toks);
    Unjoin([x, "to", y]);
    Unjoin(["to", y]);
    assert Join([y]) == y;
    SaidAgain("change", x, "to", y);
  }

  lemma {:induction false} ChangeIsBland(x: string, y: string)
    requires Bland(x) && Bland(y)
    ensures Bland(Change(x, y))
  {
    assert Bland("change" + " ") && Bland(" " + "to" + " ");
  }

  lemma {:induction false} ChangeUnlisted(lower: string, x: string, y: string)
    requires Ordinary(x) && Ordinary(y) && Bland(lower)
    ensures ListRule(lower, ChangeTokens(x, y)).None?
  {
    BlandPatterns(lower);
    var toks := ChangeTokens(x, y);
    forall w | w in ["line", "lines", "them", "these", "split"] ensures w !in toks {
      assert w[0] == 'l' || w[0] == 's' || w[3] == 'm' || w[3] == 's';
    }
  }

  lemma {:induction false} ChangeUnscoped(lower: string, x: string, y: string)
    requires Ordinary(x) && Ordinary(y)
    ensures RecaseRule(lower, ChangeTokens(x, y)).None? && OrdinalRule(ChangeTokens(x, y)).None?
  {
    var toks := ChangeTokens(x, y);
    assert !NamesUnit(toks);
    if ScopesFrom(toks, 0) != [] {
      ScopeNamesUnit(toks, 0);
    }
  }

  lemma {:induction false} ChangeUnplaced(lower: string, toks: seq<string>)
    requires toks != [] && toks[0] == "change"
    ensures DeleteUnitRule(toks).None? && DeleteMarkRule(toks).None?
    ensures PunctuationRule(lower, toks).None? && WrapRule(lower, toks).None?
  {
    NothingDeleted(toks);
  }

  lemma {:induction false} ChangePasses(lower: string, x: string, y: string)
    requires Ordinary(x) && Ordinary(y) && Bland(lower)
    ensures Flat(lower, ChangeTokens(x, y)).Pass?
  {
    BlandPatterns(lower);
    ChangeUnlisted(lower, x, y);
    ChangeUnscoped(lower, x, y);
    ChangeUnplaced(lower, ChangeTokens(x, y));
  }

  lemma {:induction false} ChangePassedOn(fold: Fold, u: string, lower: string, x: string, y: string)
    requires Tokens(lower) == ChangeTokens(x, y) && Flat(lower, ChangeTokens(x, y)).Pass?
    ensures Extended(fold, u, lower).Pass?
  {
    assert "change"[0] == 'c';
    StartsPlainly(fold, u, lower);
  }

  lemma {:induction false} ChangeIsUnclaimed(fold: Lowering, x: string, y: string)
    requires ChangeWords(fold, x, y) && Ordinary(FoldAll(fold, x)) && Ordinary(FoldAll(fold, y))
    ensures Unclaimed(fold, Change(x, y))
  {
    var (u, lx, ly) := (Change(x, y), FoldAll(fold, x), FoldAll(fold, y));
    var lower := Change(lx, ly);
    ChangeIsTrimmed(x, y);
    ChangeIsSpoken(fold, x, y);
    ChangeSplits(lx, ly);
    ChangeIsBland(lx, ly);
    ChangePasses(lower, lx, ly);
    ChangePassedOn(fold, u, lower, lx, ly);
  }

  lemma {:induction false} ChangeSize(x: string, y: string)
    ensures Size(Change(x, y)) == 11 + Size(x) + Size(y)
  {
    var (h, j) := ("change" + " ", " " + "to" + " ");
    NarrowSize(h, 7);
    NarrowSize(j, 4);
    Joints(h, x, j, y);
  }

  lemma {:induction false} WordTrims(w: string)
    requires IsWord(w)
    ensures Trim(w) == w
  {
    assert w[0] in w && w[|w| - 1] in w;
    TrimmedStays(w);
  }

  lemma {:induction false} OneLetter(fold: Fold, c: char)
    ensures FoldAll(fold, [c]) == fold(c)
  {
    assert [c][1..] == [];
  }

  /// For any two ordinary words whose lower case takes fewer bytes, the whole command is inserted.
  lemma {:induction false} ChangeShrinks(fold: Lowering, x: string, y: string, lx: string, ly: string)
    requires ChangeWords(fold, x, y) && lx == FoldAll(fold, x) && ly == FoldAll(fold, y)
    requires Ordinary(lx) && Ordinary(ly) && Size(lx) + Size(ly) < Size(x) + Size(y)
    ensures Parse(fold, Change(x, y)) == Replace(lx, Change(lx, ly))
  {
    ChangeIsTrimmed(x, y);
    ChangeIsSpoken(fold, x, y);
    ChangeIsUnclaimed(fold, x, y);
    ChangeSize(x, y);
    ChangeSize(lx, ly);
    WordTrims(lx);
    ShrunkInsertsAll(fold, Change(x, y), "change", "to", "change", x, "to", y);
  }

  lemma {:induction false} KelvinWords(fold: Lowering)
    requires fold('\U{212A}') == "k" && Fixed(fold, 'x')
    ensures FoldAll(fold, "\U{212A}") == "k" && FoldAll(fold, "x") == "x"
  {
    OneLetter(fold, '\U{212A}');
    OneLetter(fold, 'x');
  }

  lemma {:induction false} KelvinSizes()
    ensures Size("\U{212A}") == 3 && Size("k") == 1
  {
    SizeOfOne('\U{212A}');
    SizeOfOne('k');
  }

  lemma {:induction false} KelvinIsOrdinary()
    ensures IsWord("\U{212A}") && Ordinary("k") && Ordinary("x")
  {
    ShortIsOrdinary("k");
    ShortIsOrdinary("x");
  }

  predicate Harmful(c: char) { IsSpace(c) || IsMarkChar(c) || c == 's' || c == 'l' || c == 'm' || c == 'p' }

  lemma {:induction false} ShortIsOrdinary(w: string)
    requires 0 < |w| && (|w| <= 3 || w[0] == 'i') && forall i :: 0 <= i < |w| ==> !Harmful(w[i])
    ensures Ordinary(w)
  {
  }

  /// A Kelvin sign is three bytes that become one.
  lemma {:induction false} KelvinInsertsTheCommand(fold: Lowering)
    requires AllFixed(fold, "change") && AllFixed(fold, "to") && Fixed(fold, 'x') && fold('\U{212A}') == "k"
    ensures Parse(fold, "change \U{212A} to x") == Replace("k", "change k to x")
  {
    assert Change("\U{212A}", "x") == "change \U{212A} to x" && Change("k", "x") == "change k to x";
    KelvinWords(fold);
    KelvinSizes();
    KelvinIsOrdinary();
    ChangeShrinks(fold, "\U{212A}", "x", "k", "x");
  }

  lemma {:induction false} WordInserts(ly: string, n: nat)
    requires IsWord(ly) && n <= |ly|
    ensures Trim(ly[..n]) == ly[..n]
  {
    if n == 0 {
      TrimmedStays(ly[..n]);
    } else {
      assert forall c :: c in ly[..n] ==> c in ly;
      WordTrims(ly[..n]);
    }
  }

  /// What two ordinary words whose lower case takes d bytes more become: the second one loses d bytes
  /// at its end; if it has no more than these, nothing is replaced; and if they are not whole
  /// characters of it, the whole command is inserted.
  function Grown(u: string, lx: string, ly: string, d: nat): Intent
  {
    var n := if d <= Size(ly) then AtByte(ly, Size(ly) - d, 0) else None;
    if n.None? then Replace(lx, Change(lx, ly)) else if n == Some(0) then Freeform(u) else Replace(lx, ly[..n.value])
  }

  lemma {:induction false} BlandIsNoCase(u: string, lower: string)
    requires Bland(lower)
    ensures Unread(u, lower) == Freeform(u)
  {
    Lacks(lower, "uppercase", 'p');
    Lacks(lower, "all caps", 'p');
    Lacks(lower, "capitalize everything", 'p');
    Lacks(lower, "lowercase", 'l');
    Lacks(lower, "all lowercase", 'l');
    Lacks(lower, "title case", 'l');
    Lacks(lower, "titlecase", 'l');
    Lacks(lower, "sentence case", 's');
    Lacks(lower, "sentencecase", 's');
  }

  lemma {:induction false} ChangeGrows(fold: Lowering, x: string, y: string, lx: string, ly: string, d: nat)
    requires ChangeWords(fold, x, y) && lx == FoldAll(fold, x) && ly == FoldAll(fold, y)
    requires Ordinary(lx) && Ordinary(ly) && Size(lx) + Size(ly) == Size(x) + Size(y) + d && d > 0
    ensures Parse(fold, Change(x, y)) == Grown(Change(x, y), lx, ly, d)
  {
    var (u, lower) := (Change(x, y), Change(lx, ly));
    ChangeIsTrimmed(x, y);
    ChangeIsSpoken(fold, x, y);
    ChangeIsUnclaimed(fold, x, y);
    ChangeSize(x, y);
    ChangeSize(lx, ly);
    WordTrims(lx);
    UnequalInserts(fold, u, "change", "to", "change", x, "to", y);
    ChangeIsBland(lx, ly);
    BlandIsNoCase(u, lower);
    GrownIs(lower, lx, ly, d);
  }

  lemma {:induction false} GrownIs(lower: string, lx: string, ly: string, d: nat)
    requires lower == Change(lx, ly) && IsWord(ly) && d > 0
    ensures var n := if d <= Size(ly) then AtByte(ly, Size(ly) - d, 0) else None;
            Inserted(lower, ly, d) == if n.None? then lower else ly[..n.value]
  {
    var n := if d <= Size(ly) then AtByte(ly, Size(ly) - d, 0) else None;
    if n.Some? { WordInserts(ly, n.value); }
  }

  lemma {:induction false} DottedWords(fold: Lowering)
    requires AllFixed(fold, "abc") && fold('\U{130}') == "i\U{307}"
    ensures FoldAll(fold, "\U{130}") == "i\U{307}" && FoldAll(fold, "abc") == "abc"
  {
    OneLetter(fold, '\U{130}');
    FixedStays(fold, "abc");
  }

  lemma {:induction false} DottedIsOrdinary()
    ensures IsWord("\U{130}") && Ordinary("i\U{307}")
  {
    ShortIsOrdinary("i\U{307}");
  }

  lemma {:induction false} LettersAreOrdinary()
    ensures Ordinary("abc")
  {
    ShortIsOrdinary("abc");
  }

  lemma {:induction false} DottedSizes()
    ensures Size("i\U{307}") == 3 && Size("\U{130}") == 2
  {
    SizeOfOne('\U{130}');
    SizeOfOne('i');
    SizeOfOne('\U{307}');
    SizeOfConcat("i", "\U{307}");
    assert "i\U{307}" == "i" + "\U{307}";
  }

  lemma {:induction false} AbcCut()
    ensures Size("abc") == 3 && AtByte("abc", 2, 0) == Some(2)
  {
    NarrowSize("abc", 2);
    NarrowSize("abc", 3);
    ByteOf("abc", 0, 2);
  }

  /// A dotted capital I is two bytes that become three.
  lemma {:induction false} DottedLosesALetter(fold: Lowering)
    requires AllFixed(fold, "change") && AllFixed(fold, "to") && AllFixed(fold, "abc") && fold('\U{130}') == "i\U{307}"
    ensures Parse(fold, "change \U{130} to abc") == Replace("i\U{307}", "ab")
  {
    assert Change("\U{130}", "abc") == "change \U{130} to abc" && "abc"[..2] == "ab";
    DottedWords(fold);
    DottedIsOrdinary();
    LettersAreOrdinary();
    DottedSizes();
    AbcCut();
    ChangeGrows(fold, "\U{130}", "abc", "i\U{307}", "abc", 1);
  }

  lemma {:induction false} XCut()
    ensures Size("x") == 1 && AtByte("x", 0, 0) == Some(0) && Ordinary("x")
  {
    SizeOfOne('x');
    ByteOf("x", 0, 0);
    ShortIsOrdinary("x");
  }

  /// With one letter to lose there is nothing left to insert.
  lemma {:induction false} DottedIsRefused(fold: Lowering)
    requires AllFixed(fold, "change") && AllFixed(fold, "to") && Fixed(fold, 'x') && fold('\U{130}') == "i\U{307}"
    ensures Parse(fold, "change \U{130} to x") == Freeform("change \U{130} to x")
  {
    assert Change("\U{130}", "x") == "change \U{130} to x";
    OneLetter(fold, '\U{130}');
    OneLetter(fold, 'x');
    DottedIsOrdinary();
    DottedSizes();
    XCut();
    ChangeGrows(fold, "\U{130}", "x", "i\U{307}", "x", 1);
  }

  lemma {:induction false} AccentCut()
    ensures Size("ab\U{E9}") == 4 && AtByte("ab\U{E9}", 3, 0).None?
  {
    var s := "ab\U{E9}";
    NarrowSize("ab", 2);
    SizeToOfConcat("ab", "\U{E9}", 2);
    SizeOfConcat("ab", "\U{E9}");
    SizeOfOne('\U{E9}');
    assert s == "ab" + "\U{E9}";
    Inside(s, 2, 3);
  }

  lemma {:induction false} AccentedWords(fold: Lowering)
    requires AllFixed(fold, "ab\U{E9}") && fold('\U{130}') == "i\U{307}"
    ensures FoldAll(fold, "\U{130}") == "i\U{307}" && FoldAll(fold, "ab\U{E9}") == "ab\U{E9}"
    ensures Ordinary("ab\U{E9}")
  {
    OneLetter(fold, '\U{130}');
    FixedStays(fold, "ab\U{E9}");
    ShortIsOrdinary("ab\U{E9}");
  }

  /// And where the byte to lose is half a letter, the whole command is inserted.
  lemma {:induction false} DottedInsertsTheCommand(fold: Lowering)
    requires AllFixed(fold, "change") && AllFixed(fold, "to") && AllFixed(fold, "ab\U{E9}") && fold('\U{130}') == "i\U{307}"
    ensures Parse(fold, "change \U{130} to ab\U{E9}") == Replace("i\U{307}", "change i\U{307} to ab\U{E9}")
  {
    assert Change("\U{130}", "ab\U{E9}") == "change \U{130} to ab\U{E9}";
    assert Change("i\U{307}", "ab\U{E9}") == "change i\U{307} to ab\U{E9}";
    AccentedWords(fold);
    DottedIsOrdinary();
    DottedSizes();
    AccentCut();
    ChangeGrows(fold, "\U{130}", "ab\U{E9}", "i\U{307}", "ab\U{E9}", 1);
  }

  /// Two bytes gained in one operand and lost in the other: the sizes agree, and the first operand
  /// reaches into the joining word.
  lemma {:induction false} EqualSizesAreNotEnough(fold: Lowering)
    requires AllFixed(fold, "change") && AllFixed(fold, "to")
    requires fold('\U{130}') == "i\U{307}" && fold('\U{1E9E}') == "\U{DF}"
    ensures var u := "change \U{130}\U{130} to \U{1E9E}\U{1E9E}";
            SameSize(fold, u) && Parse(fold, u) != Replace("\U{130}\U{130}", "\U{1E9E}\U{1E9E}")
  {
    var (x, y, lx, ly) := ("\U{130}\U{130}", "\U{1E9E}\U{1E9E}", "i\U{307}i\U{307}", "\U{DF}\U{DF}");
    assert Change(x, y) == "change \U{130}\U{130} to \U{1E9E}\U{1E9E}";
    TwiceWords(fold);
    TwiceOrdinary();
    TwiceSizes();
    ChangeKeepsSize(fold, x, y, lx, ly);
    ChangeMixed(fold, x, y, lx, ly);
  }

  lemma {:induction false} ChangeKeepsSize(fold: Lowering, x: string, y: string, lx: string, ly: string)
    requires ChangeWords(fold, x, y) && lx == FoldAll(fold, x) && ly == FoldAll(fold, y)
    requires Size(lx) + Size(ly) == Size(x) + Size(y)
    ensures SameSize(fold, Change(x, y))
  {
    ChangeIsSpoken(fold, x, y);
    ChangeSize(x, y);
    ChangeSize(lx, ly);
  }

  lemma {:induction false} WordsLeaveNoSpace(x: string, y: string, d: int)
    requires IsWord(x) && IsWord(y) && d != 0
    ensures !Harmless(x, y, d)
  {
    assert x[|x| - 1] in x && y[0] in y;
  }

  lemma {:induction false} PlainChange()
    ensures IsVerb("change", "to") && PlainlySaid("change", "change") && PlainlySaid("to", "to")
  {
  }

  /// For any two ordinary words, of which one gains what the other loses.
  lemma {:induction false} ChangeMixed(fold: Lowering, x: string, y: string, lx: string, ly: string)
    requires ChangeWords(fold, x, y) && lx == FoldAll(fold, x) && ly == FoldAll(fold, y)
    requires Ordinary(lx) && Ordinary(ly) && Size(lx) + Size(ly) == Size(x) + Size(y) && Size(lx) != Size(x)
    ensures Parse(fold, Change(x, y)) != Replace(x, y)
  {
    ChangeIsTrimmed(x, y);
    ChangeIsSpoken(fold, x, y);
    ChangeIsUnclaimed(fold, x, y);
    PlainChange();
    WordTrims(x);
    WordTrims(y);
    WordsLeaveNoSpace(x, y, Gain(fold, x));
    ReplacedAsSaidIff(fold, Change(x, y), "change", "to", "change", x, "to", y);
  }

  lemma {:induction false} TwiceWords(fold: Lowering)
    requires fold('\U{130}') == "i\U{307}" && fold('\U{1E9E}') == "\U{DF}"
    ensures FoldAll(fold, "\U{130}\U{130}") == "i\U{307}i\U{307}"
    ensures FoldAll(fold, "\U{1E9E}\U{1E9E}") == "\U{DF}\U{DF}"
  {
    OneLetter(fold, '\U{130}');
    OneLetter(fold, '\U{1E9E}');
    FoldAllConcat(fold, "\U{130}", "\U{130}");
    FoldAllConcat(fold, "\U{1E9E}", "\U{1E9E}");
    assert "\U{130}\U{130}" == "\U{130}" + "\U{130}" && "\U{1E9E}\U{1E9E}" == "\U{1E9E}" + "\U{1E9E}";
    assert "i\U{307}" + "i\U{307}" == "i\U{307}i\U{307}" && "\U{DF}" + "\U{DF}" == "\U{DF}\U{DF}";
  }

  lemma {:induction false} TwiceOrdinary()
    ensures IsWord("\U{130}\U{130}") && IsWord("\U{1E9E}\U{1E9E}")
    ensures Ordinary("i\U{307}i\U{307}") && Ordinary("\U{DF}\U{DF}")
  {
    ShortIsOrdinary("\U{DF}\U{DF}");
    ShortIsOrdinary("i\U{307}i\U{307}");
  }

  lemma {:induction false} TwiceSizes()
    ensures Size("\U{130}\U{130}") == 4 && Size("i\U{307}i\U{307}") == 6
    ensures Size("\U{1E9E}\U{1E9E}") == 6 && Size("\U{DF}\U{DF}") == 4
  {
    DottedSizes();
    SizeOfOne('\U{1E9E}');
    SizeOfOne('\U{DF}');
    SizeOfConcat("\U{130}", "\U{130}");
    SizeOfConcat("i\U{307}", "i\U{307}");
    SizeOfConcat("\U{1E9E}", "\U{1E9E}");
    SizeOfConcat("\U{DF}", "\U{DF}");
    assert "\U{130}\U{130}" == "\U{130}" + "\U{130}" && "\U{1E9E}\U{1E9E}" == "\U{1E9E}" + "\U{1E9E}";
    assert "i\U{307}" + "i\U{307}" == "i\U{307}i\U{307}" && "\U{DF}" + "\U{DF}" == "\U{DF}\U{DF}";
  }
}
