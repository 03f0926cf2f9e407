// Case-insensitive search and replace (crates/edit-intent).
//
// Two differently written searches: `ReplaceCaseInsensitive` looks for the folded needle in a
// folded copy of the text and maps matches back through a table of origins;
// `FindFoldInsensitive` walks the original and folds as it goes. Both are proved against one
// specification that mentions neither the copy nor the table.

module FoldReplace {
  import opened Common
  import opened Text

  // ---------------------------------------------------------------- specification

  /// h[i..k] is an occurrence of n: whole original characters whose folding is n's folding.
  ghost predicate Occurs(fold: Fold, h: string, n: string, i: int, k: int)
  {
    0 <= i <= k <= |h| && FoldAll(fold, h[i..k]) == FoldAll(fold, n)
  }

  ghost predicate StartsAt(fold: Fold, h: string, n: string, i: int)
  {
    exists k :: Occurs(fold, h, n, i, k)
  }

  /// The first position at or after `from` where an occurrence starts, or |h| if there is none.
  ghost function NextStart(fold: Fold, h: string, n: string, from: nat): (i: nat)
    requires from <= |h|
    ensures from <= i <= |h|
    ensures i < |h| ==> StartsAt(fold, h, n, i)
    ensures forall j :: from <= j < i ==> !StartsAt(fold, h, n, j)
    decreases |h| - from
  {
    if from == |h| || StartsAt(fold, h, n, from) then from else NextStart(fold, h, n, from + 1)
  }

  ghost function EndOf(fold: Fold, h: string, n: string, i: nat): (k: nat)
    requires StartsAt(fold, h, n, i)
    ensures Occurs(fold, h, n, i, k)
  {
    var k :| Occurs(fold, h, n, i, k); k
  }

  datatype Region = Region(start: nat, end: nat)

  /// The regions a greedy left-to-right replacement rewrites, from position `from` on.
  ghost function Regions(fold: Fold, h: string, n: string, from: nat): (rs: seq<Region>)
    requires from <= |h| && n != []
    decreases |h| - from
  {
    var i := NextStart(fold, h, n, from);
    if i == |h| then []
    else
      OccurrenceIsNonEmpty(fold, h, n, i, EndOf(fold, h, n, i));
      [Region(i, EndOf(fold, h, n, i))] + Regions(fold, h, n, EndOf(fold, h, n, i))
  }

  /// `h` from `from` on, with each region replaced by `r` and everything else copied.
  ghost function Splice(h: string, from: nat, rs: seq<Region>, r: string): string
    requires from <= |h| && InOrder(rs, from, |h|)
    decreases |rs|
  {
    if rs == [] then h[from..]
    else h[from..rs[0].start] + r + Splice(h, rs[0].end, rs[1..], r)
  }

  ghost predicate InOrder(rs: seq<Region>, from: nat, to: nat)
    decreases |rs|
  {
    rs == [] || (from <= rs[0].start < rs[0].end <= to && InOrder(rs[1..], rs[0].end, to))
  }

  ghost function ReplaceSpec(fold: Fold, h: string, n: string, r: string): Option<string>
  {
    if n == [] then None
    else if Regions(fold, h, n, 0) == [] then None
    else Some(Rewritten(fold, h, n, r, 0))
  }

  /// The text from position `from` on after its regions have been replaced.
  ghost function Rewritten(fold: Fold, h: string, n: string, r: string, from: nat): string
    requires from <= |h| && n != []
  {
    RegionsInOrder(fold, h, n, from);
    Splice(h, from, Regions(fold, h, n, from), r)
  }

  lemma {:induction false} OccurrenceIsNonEmpty(fold: Fold, h: string, n: string, i: int, k: int)
    requires n != [] && Occurs(fold, h, n, i, k)
    ensures i < k
  {
    assert |FoldAll(fold, n)| > 0;
    assert h[i..i] == [];
  }

  lemma {:induction false} RegionsInOrder(fold: Fold, h: string, n: string, from: nat)
    requires from <= |h| && n != []
    ensures InOrder(Regions(fold, h, n, from), from, |h|)
    decreases |h| - from
  {
    var i := NextStart(fold, h, n, from);
    if i < |h| {
      var k := EndOf(fold, h, n, i);
      OccurrenceIsNonEmpty(fold, h, n, i, k);
      RegionsInOrder(fold, h, n, k);
    }
  }

  lemma {:induction false} EndIsUnique(fold: Fold, h: string, n: string, i: nat, k: nat, k': nat)
    requires Occurs(fold, h, n, i, k) && Occurs(fold, h, n, i, k')
    ensures k == k'
  {
    if k < k' { LongerFold(fold, h, i, k, k'); }
    if k' < k { LongerFold(fold, h, i, k', k); }
  }

  lemma {:induction false} LongerFold(fold: Fold, h: string, i: nat, k: nat, k': nat)
    requires i <= k < k' <= |h|
    ensures |FoldAll(fold, h[i..k])| < |FoldAll(fold, h[i..k'])|
  {
    assert h[i..k'] == h[i..k] + h[k..k'];
    FoldAllConcat(fold, h[i..k], h[k..k']);
  }

  /// Moving the scan position forward past characters where nothing starts changes nothing.
  lemma {:induction false} SkipTo(fold: Fold, h: string, n: string, from: nat, to: nat)
    requires from <= to <= |h| && n != []
    requires forall j :: from <= j < to ==> !StartsAt(fold, h, n, j)
    ensures NextStart(fold, h, n, from) == NextStart(fold, h, n, to)
    ensures Regions(fold, h, n, from) == Regions(fold, h, n, to)
  {
    assert NextStart(fold, h, n, from) == NextStart(fold, h, n, to);
  }

  /// Greedy: every occurrence starts inside some region.
  lemma {:induction false} EveryOccurrenceMeetsARegion(fold: Fold, h: string, n: string, from: nat, i: nat)
    requires n != [] && from <= i <= |h| && StartsAt(fold, h, n, i)
    ensures exists g :: g in Regions(fold, h, n, from) && g.start <= i < g.end
    decreases |h| - from
  {
    OccurrenceIsNonEmpty(fold, h, n, i, EndOf(fold, h, n, i));
    var s := NextStart(fold, h, n, from);
    var k := EndOf(fold, h, n, s);
    OccurrenceIsNonEmpty(fold, h, n, s, k);
    assert Regions(fold, h, n, from)[0] == Region(s, k);
    if k <= i {
      EveryOccurrenceMeetsARegion(fold, h, n, k, i);
      var g :| g in Regions(fold, h, n, k) && g.start <= i < g.end;
      assert g in Regions(fold, h, n, from);
    }
  }

  /// Every region is an occurrence.
  lemma {:induction false} RegionsOccur(fold: Fold, h: string, n: string, from: nat, g: Region)
    requires n != [] && from <= |h| && g in Regions(fold, h, n, from)
    ensures Occurs(fold, h, n, g.start, g.end)
    decreases |h| - from
  {
    var s := NextStart(fold, h, n, from);
    var k := EndOf(fold, h, n, s);
    if g != Region(s, k) {
      OccurrenceIsNonEmpty(fold, h, n, s, k);
      RegionsOccur(fold, h, n, k, g);
    }
  }

  /// Replacing answers None exactly when there is nothing to replace.
  lemma {:induction false} NoneIffAbsent(fold: Fold, h: string, n: string, r: string)
    ensures ReplaceSpec(fold, h, n, r) == None <==> n == [] || forall i :: 0 <= i <= |h| ==> !StartsAt(fold, h, n, i)
  {
    if n != [] {
      if i :| 0 <= i <= |h| && StartsAt(fold, h, n, i) {
        EveryOccurrenceMeetsARegion(fold, h, n, 0, i);
      }
    }
  }

  // ------------------------------------------------------ where the characters go

  ghost predicate Covered(rs: seq<Region>, i: int) { exists g :: g in rs && g.start <= i < g.end }

  /// How far replacing moves what stands at j: by the growth of every region that ends before it.
  ghost function Shift(rs: seq<Region>, r: string, j: int): int
  {
    if rs == [] then 0
    else (if rs[0].end <= j then |r| - (rs[0].end - rs[0].start) else 0) + Shift(rs[1..], r, j)
  }

  /// out is h[from..] with r in each region's place and every other character shifted.
  ghost predicate Substituted(h: string, from: nat, rs: seq<Region>, r: string, out: string)
  {
    && |out| == |h| - from + Shift(rs, r, |h|)
    && (forall k :: 0 <= k < |rs| ==> Written(from, rs, r, out, k))
    && (forall j :: from <= j < |h| && !Covered(rs, j) ==> Kept(h, from, rs, r, out, j))
  }

  ghost predicate Written(from: nat, rs: seq<Region>, r: string, out: string, k: nat)
    requires k < |rs|
  {
    HasAt(out, r, rs[k].start - from + Shift(rs, r, rs[k].start))
  }

  ghost predicate Kept(h: string, from: nat, rs: seq<Region>, r: string, out: string, j: nat)
    requires j < |h|
  {
    Stands(out, j - from + Shift(rs, r, j), h[j])
  }

  predicate Stands(s: string, i: int, c: char) { 0 <= i < |s| && s[i] == c }

  lemma {:induction false} NoShift(rs: seq<Region>, r: string, from: nat, to: nat, j: int)
    requires InOrder(rs, from, to) && (rs == [] || j < rs[0].end)
    ensures Shift(rs, r, j) == 0
    decreases |rs|
  {
    if rs != [] { NoShift(rs[1..], r, rs[0].end, to, j); }
  }

  lemma {:induction false} CoveredCons(g: Region, rest: seq<Region>, j: int)
    ensures Covered([g] + rest, j) <==> g.start <= j < g.end || Covered(rest, j)
  {
    assert g in [g] + rest && forall v :: v in rest ==> v in [g] + rest;
  }

  lemma {:induction false} HasAfter(a: string, b: string, part: string, i: int)
    requires HasAt(b, part, i)
    ensures HasAt(a + b, part, |a| + i)
  {
    assert (a + b)[|a| + i..|a| + i + |part|] == b[i..i + |part|];
  }

  lemma {:induction false} StartsInOrder(rs: seq<Region>, from: nat, to: nat, k: nat)
    requires InOrder(rs, from, to) && k < |rs|
    ensures from <= rs[k].start < rs[k].end <= to
    decreases |rs|
  {
    if k > 0 { StartsInOrder(rs[1..], rs[0].end, to, k - 1); }
  }

  /// Past a region, everything stands where the rest of the text puts it, after the front.
  lemma {:induction false} ShiftPast(g: Region, rest: seq<Region>, r: string, j: int)
    requires g.end <= j
    ensures Shift([g] + rest, r, j) == |r| - (g.end - g.start) + Shift(rest, r, j)
  {
    assert ([g] + rest)[1..] == rest;
  }

  lemma {:induction false} TailWritten(from: nat, g: Region, rest: seq<Region>, r: string, front: string, tail: string, k: nat)
    requires k < |rest| && from <= g.start && g.end <= rest[k].start && |front| == g.start - from + |r|
    requires Written(g.end, rest, r, tail, k)
    ensures Written(from, [g] + rest, r, front + tail, k + 1)
  {
    var at := rest[k].start;
    ShiftPast(g, rest, r, at);
    HasAfter(front, tail, r, at - g.end + Shift(rest, r, at));
  }

  lemma {:induction false} TailKept(h: string, from: nat, g: Region, rest: seq<Region>, r: string, front: string, tail: string, j: nat)
    requires g.end <= j < |h| && from <= g.start && |front| == g.start - from + |r|
    requires Kept(h, g.end, rest, r, tail, j)
    ensures Kept(h, from, [g] + rest, r, front + tail, j)
  {
    ShiftPast(g, rest, r, j);
    var i := j - g.end + Shift(rest, r, j);
    assert (front + tail)[|front| + i] == tail[i];
  }

  lemma {:induction false} FrontKept(h: string, from: nat, rs: seq<Region>, r: string, gap: string, more: string, j: nat)
    requires InOrder(rs, from, |h|) && rs != [] && from <= j < rs[0].start && gap == h[from..rs[0].start]
    ensures Kept(h, from, rs, r, gap + r + more, j)
  {
    NoShift(rs, r, from, |h|, j);
    assert (gap + r + more)[j - from] == gap[j - from];
  }

  lemma {:induction false} FirstWritten(from: nat, to: nat, rs: seq<Region>, r: string, gap: string, more: string)
    requires InOrder(rs, from, to) && rs != [] && |gap| == rs[0].start - from
    ensures Written(from, rs, r, gap + r + more, 0)
  {
    NoShift(rs, r, from, to, rs[0].start);
    assert (gap + r + more)[|gap|..|gap| + |r|] == r;
  }

  lemma {:induction false} SpliceSubstitutes(h: string, from: nat, rs: seq<Region>, r: string)
    requires from <= |h| && InOrder(rs, from, |h|)
    ensures Substituted(h, from, rs, r, Splice(h, from, rs, r))
    decreases |rs|
  {
    if rs != [] {
      var (g, rest) := (rs[0], rs[1..]);
      var (gap, tail) := (h[from..g.start], Splice(h, g.end, rest, r));
      SpliceSubstitutes(h, g.end, rest, r);
      assert rs == [g] + rest;
      ShiftPast(g, rest, r, |h|);
      forall k | 0 <= k < |rs| ensures Written(from, rs, r, gap + r + tail, k) {
        if k == 0 {
          FirstWritten(from, |h|, rs, r, gap, tail);
        } else {
          StartsInOrder(rest, g.end, |h|, k - 1);
          TailWritten(from, g, rest, r, gap + r, tail, k - 1);
        }
      }
      forall j | from <= j < |h| && !Covered(rs, j) ensures Kept(h, from, rs, r, gap + r + tail, j) {
        CoveredCons(g, rest, j);
        if j < g.start { FrontKept(h, from, rs, r, gap, tail, j); } else { TailKept(h, from, g, rest, r, gap + r, tail, j); }
      }
    }
  }

  /// out is h with r in place of some occurrences of n, in order and apart; every start of an
  /// occurrence lies in one that is replaced, and there is one.
  ghost predicate Replaces(fold: Fold, h: string, n: string, r: string, out: string)
  {
    exists rs :: && rs != [] && InOrder(rs, 0, |h|)
                 && (forall g :: g in rs ==> Occurs(fold, h, n, g.start, g.end))
                 && (forall i :: 0 <= i <= |h| && StartsAt(fold, h, n, i) ==> Covered(rs, i))
                 && Substituted(h, 0, rs, r, out)
  }

  lemma {:induction false} ReplaceReplaces(fold: Fold, h: string, n: string, r: string)
    ensures var result := ReplaceSpec(fold, h, n, r); result.Some? ==> Replaces(fold, h, n, r, result.value)
  {
    if n != [] && Regions(fold, h, n, 0) != [] {
      var rs := Regions(fold, h, n, 0);
      RegionsInOrder(fold, h, n, 0);
      forall g | g in rs ensures Occurs(fold, h, n, g.start, g.end) { RegionsOccur(fold, h, n, 0, g); }
      forall i | 0 <= i <= |h| && StartsAt(fold, h, n, i) ensures Covered(rs, i) {
        EveryOccurrenceMeetsARegion(fold, h, n, 0, i);
      }
      SpliceSubstitutes(h, 0, rs, r);
    }
  }

  // ------------------------------------------------- the folded copy and its boundaries

  /// offs[i] is where original character i starts in the folded copy `low`; `want` occurs on whole
  /// characters exactly where the plain search finds it between two such starts.
  ghost predicate Aligned(fold: Fold, h: string, n: string, low: string, want: string, offs: seq<nat>)
  {
    && |offs| == |h| + 1 && offs[0] == 0 && offs[|h|] == |low|
    && (forall i, j :: 0 <= i < j <= |h| ==> offs[i] < offs[j])
    && n != [] && |want| > 0
    && forall i, k {:trigger Occurs(fold, h, n, i, k)} :: 0 <= i <= k <= |h| ==>
         (Occurs(fold, h, n, i, k) <==> offs[k] == offs[i] + |want| && HasAt(low, want, offs[i]))
  }

  /// Each folded character's origin is the original character in whose stretch it lies.
  ghost predicate OriginTable(offs: seq<nat>, origin: seq<nat>)
  {
    && |offs| > 0 && |origin| == offs[|offs| - 1]
    && forall p :: 0 <= p < |origin| ==>
         origin[p] + 1 < |offs| && offs[origin[p]] <= p < offs[origin[p] + 1]
  }

  ghost function Offsets(fold: Fold, h: string): (offs: seq<nat>)
    ensures |offs| == |h| + 1
  {
    seq(|h| + 1, i requires 0 <= i <= |h| => |FoldAll(fold, h[..i])|)
  }

  lemma {:induction false} FoldStep(fold: Fold, h: string, i: nat)
    requires i < |h|
    ensures FoldAll(fold, h[..i + 1]) == FoldAll(fold, h[..i]) + fold(h[i])
  {
    assert h[..i + 1] == h[..i] + [h[i]];
    FoldAllConcat(fold, h[..i], [h[i]]);
    assert FoldAll(fold, [h[i]]) == fold(h[i]);
  }

  lemma {:induction false} FoldSplit(fold: Fold, s: string, i: nat)
    requires i <= |s|
    ensures |FoldAll(fold, s[..i])| <= |FoldAll(fold, s)|
    ensures FoldAll(fold, s[..i]) == FoldAll(fold, s)[..|FoldAll(fold, s[..i])|]
    ensures FoldAll(fold, s[i..]) == FoldAll(fold, s)[|FoldAll(fold, s[..i])|..]
  {
    assert s == s[..i] + s[i..];
    FoldAllConcat(fold, s[..i], s[i..]);
  }

  /// Folding a slice of the original is slicing the folded copy between the two offsets.
  lemma {:induction false} FoldOfSlice(fold: Fold, h: string, i: nat, k: nat)
    requires i <= k <= |h|
    ensures |FoldAll(fold, h[..i])| <= |FoldAll(fold, h[..k])| <= |FoldAll(fold, h)|
    ensures FoldAll(fold, h[i..k]) == FoldAll(fold, h)[|FoldAll(fold, h[..i])|..|FoldAll(fold, h[..k])|]
  {
    FoldSplit(fold, h, k);
    assert h[..k][..i] == h[..i] && h[..k][i..] == h[i..k];
    FoldSplit(fold, h[..k], i);
  }

  lemma {:induction false} OffsetsAligned(fold: Fold, h: string, n: string)
    requires n != []
    ensures Aligned(fold, h, n, FoldAll(fold, h), FoldAll(fold, n), Offsets(fold, h))
  {
    var offs := Offsets(fold, h);
    assert h[..|h|] == h;
    forall i, j | 0 <= i < j <= |h|
      ensures offs[i] < offs[j]
    {
      LongerFold(fold, h, 0, i, j);
      assert h[0..i] == h[..i] && h[0..j] == h[..j];
    }
    forall i, k | 0 <= i <= k <= |h|
      ensures Occurs(fold, h, n, i, k) <==>
              offs[k] == offs[i] + |FoldAll(fold, n)| && HasAt(FoldAll(fold, h), FoldAll(fold, n), offs[i])
    {
      FoldOfSlice(fold, h, i, k);
    }
  }

  /// The folded copy, and for each of its characters the original character it came from.
  method LowerWithOrigins(fold: Fold, h: string, ghost n: string)
    returns (lowered: string, origin: seq<nat>, ghost offs: seq<nat>)
    requires n != []
    ensures lowered == FoldAll(fold, h) && |origin| == |lowered|
    ensures OriginTable(offs, origin)
    ensures Aligned(fold, h, n, lowered, FoldAll(fold, n), offs)
  {
    lowered, origin := [], [];
    offs := Offsets(fold, h);
    var i := 0;
    while i < |h|
      invariant 0 <= i <= |h|
      invariant lowered == FoldAll(fold, h[..i]) && |origin| == |lowered|
      invariant forall p :: 0 <= p < |origin| ==>
                  origin[p] < i && offs[origin[p]] <= p < offs[origin[p] + 1]
    {
      FoldStep(fold, h, i);
      var folded := fold(h[i]);
      var j := 0;
      while j < |folded|
        invariant 0 <= j <= |folded|
        invariant lowered == FoldAll(fold, h[..i]) + folded[..j] && |origin| == |lowered|
        invariant forall p :: 0 <= p < |origin| ==>
                    origin[p] <= i && offs[origin[p]] <= p < offs[origin[p] + 1]
      {
        lowered := lowered + [folded[j]];
        origin := origin + [i];
        j := j + 1;
      }
      assert folded[..j] == folded;
      i := i + 1;
    }
    assert h[..i] == h;
    OffsetsAligned(fold, h, n);
  }

  /// The test the code makes on the origin table.
  predicate IsBoundary(origin: seq<nat>, p: nat)
    requires p <= |origin|
  {
    p == 0 || p == |origin| || origin[p] != origin[p - 1]
  }

  /// A folded position passes the test exactly when an original character starts there or the
  /// text ends there.
  lemma {:induction false} BoundaryIffOffset(offs: seq<nat>, origin: seq<nat>, p: nat)
    requires OriginTable(offs, origin) && offs[0] == 0 && p <= |origin|
    requires forall i, j :: 0 <= i < j < |offs| ==> offs[i] < offs[j]
    ensures IsBoundary(origin, p) <==> p in offs
    ensures IsBoundary(origin, p) && p < |origin| ==> offs[origin[p]] == p
  {
    if p < |origin| {
      assert offs[origin[p]] <= p < offs[origin[p] + 1];
      if 0 < p {
        assert offs[origin[p - 1]] <= p - 1 < offs[origin[p - 1] + 1];
      }
    }
  }

  // ---------------------------------------------------------------------- replace

  /// Nothing starts at a character whose folded offset lies in the stretch already scanned.
  ghost predicate Scanned(fold: Fold, h: string, n: string, offs: seq<nat>, from: nat, cursor: nat)
    requires |offs| == |h| + 1
  {
    forall j {:trigger StartsAt(fold, h, n, j)} ::
      from <= j <= |h| && offs[j] < cursor ==> !StartsAt(fold, h, n, j)
  }

  /// What the replace loop keeps: `out` is the rewriting of the text before `from`, and no
  /// occurrence starts in the stretch of the folded copy scanned since.
  ghost predicate Progress(fold: Fold, h: string, n: string, r: string, offs: seq<nat>,
                           out: string, from: nat, cursor: nat, matched: bool)
    requires n != [] && from <= |h| && |offs| == |h| + 1
  {
    && offs[from] <= cursor
    && Scanned(fold, h, n, offs, from, cursor)
    && Rewritten(fold, h, n, r, 0) == out + Rewritten(fold, h, n, r, from)
    && (if matched then Regions(fold, h, n, 0) != [] else from == 0)
  }

  method ReplaceCaseInsensitive(fold: Fold, haystack: string, needle: string, replacement: string)
    returns (result: Option<string>)
    ensures result == ReplaceSpec(fold, haystack, needle, replacement)
    ensures result.None? <==> needle == [] || forall i :: 0 <= i <= |haystack| ==> !StartsAt(fold, haystack, needle, i)
    ensures result.Some? ==> Replaces(fold, haystack, needle, replacement, result.value)
  {
    NoneIffAbsent(fold, haystack, needle, replacement);
    ReplaceReplaces(fold, haystack, needle, replacement);
    if needle == [] {
      return None;
    }
    var needleLower := FoldAll(fold, needle);
    var lowered, origin, offs := LowerWithOrigins(fold, haystack, needle);
    var out := "";
    var origCursor, cursor := 0, 0;
    var matched := false;
    while true
      invariant 0 <= cursor <= |lowered| && 0 <= origCursor <= |haystack|
      invariant Progress(fold, haystack, needle, replacement, offs, out, origCursor, cursor, matched)
      decreases |lowered| - cursor
    {
      var found := Find(lowered, needleLower, cursor);
      if found.None? {
        break;
      }
      var start := found.value;
      var end := start + |needleLower|;
      FoundStep(fold, haystack, needle, lowered, needleLower, offs, origCursor, cursor);
      if !(IsBoundary(origin, start) && IsBoundary(origin, end)) {
        SkipPartial(fold, haystack, needle, lowered, needleLower, offs, origin, origCursor, start, end);
        cursor := start + 1;
      } else {
        var origStart := origin[start];
        var origEnd := if end == |lowered| then |haystack| else origin[end];
        TakeMatch(fold, haystack, needle, lowered, needleLower, offs, origin, origCursor, start, end, origEnd);
        MatchFound(fold, haystack, needle, replacement, origCursor, origStart, origEnd, out);
        out := out + haystack[origCursor..origStart] + replacement;
        origCursor := origEnd;
        cursor := end;
        matched := true;
      }
    }
    NoMoreMatches(fold, haystack, needle, replacement, lowered, needleLower, offs, origCursor, cursor);
    if !matched {
      return None;
    }
    return Some(out + haystack[origCursor..]);
  }

  /// Nothing starts before the next hit of the plain search.
  lemma {:induction false} FoundStep(fold: Fold, h: string, n: string, low: string, want: string, offs: seq<nat>, from: nat, cursor: nat)
    requires Aligned(fold, h, n, low, want, offs) && from <= |h| && cursor <= |low|
    requires Scanned(fold, h, n, offs, from, cursor)
    ensures var f := Find(low, want, cursor);
            && (f.Some? ==> HasAt(low, want, f.value) && Scanned(fold, h, n, offs, from, f.value))
            && (f.None? ==> Scanned(fold, h, n, offs, from, |low| + 1))
  {
    var f := Find(low, want, cursor);
    forall j | from <= j <= |h| && (f.Some? ==> offs[j] < f.value)
      ensures !StartsAt(fold, h, n, j)
    {
      if cursor <= offs[j] {
        FindIsFirst(low, want, cursor, offs[j]);
        assert forall k :: j <= k <= |h| ==> !Occurs(fold, h, n, j, k);
      }
    }
    if f.Some? {
      FindIsFirst(low, want, cursor, f.value);
    }
  }

  /// A hit that is not on whole characters rules out everything up to and including it.
  lemma {:induction false} SkipPartial(fold: Fold, h: string, n: string, low: string, want: string,
                    offs: seq<nat>, origin: seq<nat>, from: nat, start: nat, end: nat)
    requires Aligned(fold, h, n, low, want, offs) && OriginTable(offs, origin)
    requires from <= |h| && Scanned(fold, h, n, offs, from, start)
    requires end == start + |want| <= |low|
    requires !(IsBoundary(origin, start) && IsBoundary(origin, end))
    ensures Scanned(fold, h, n, offs, from, start + 1)
  {
    BoundaryIffOffset(offs, origin, start);
    BoundaryIffOffset(offs, origin, end);
    forall j | from <= j <= |h| && offs[j] == start
      ensures !StartsAt(fold, h, n, j)
    {
      assert forall k :: j <= k <= |h| ==> !Occurs(fold, h, n, j, k);
    }
  }

  /// A hit on whole characters is the next occurrence; the origin table names its two ends.
  lemma {:induction false} TakeMatch(fold: Fold, h: string, n: string, low: string, want: string,
                  offs: seq<nat>, origin: seq<nat>, from: nat, start: nat, end: nat, k: nat)
    requires Aligned(fold, h, n, low, want, offs) && OriginTable(offs, origin)
    requires from <= |h| && offs[from] <= start && Scanned(fold, h, n, offs, from, start)
    requires HasAt(low, want, start) && end == start + |want|
    requires IsBoundary(origin, start) && IsBoundary(origin, end)
    requires k == if end == |low| then |h| else origin[end]
    ensures from <= origin[start] < k <= |h|
    ensures Occurs(fold, h, n, origin[start], k)
    ensures forall j :: from <= j < origin[start] ==> !StartsAt(fold, h, n, j)
    ensures offs[k] == end && Scanned(fold, h, n, offs, k, end)
  {
    BoundaryIffOffset(offs, origin, start);
    BoundaryIffOffset(offs, origin, end);
  }

  lemma {:induction false} MatchFound(fold: Fold, h: string, n: string, r: string, from: nat, i: nat, k: nat, out: string)
    requires n != [] && from <= i <= k <= |h| && Occurs(fold, h, n, i, k)
    requires forall j :: from <= j < i ==> !StartsAt(fold, h, n, j)
    ensures Regions(fold, h, n, from) == [Region(i, k)] + Regions(fold, h, n, k)
    ensures out + Rewritten(fold, h, n, r, from) == (out + h[from..i] + r) + Rewritten(fold, h, n, r, k)
  {
    assert StartsAt(fold, h, n, i);
    SkipTo(fold, h, n, from, i);
    EndIsUnique(fold, h, n, i, k, EndOf(fold, h, n, i));
    RegionsInOrder(fold, h, n, from);
    Regrouped(out, h[from..i], r, Rewritten(fold, h, n, r, k));
  }

  lemma {:induction false} Regrouped(a: string, b: string, c: string, d: string)
    ensures a + (b + c + d) == a + b + c + d
  {
  }

  lemma {:induction false} NoMoreMatches(fold: Fold, h: string, n: string, r: string, low: string, want: string,
                      offs: seq<nat>, from: nat, cursor: nat)
    requires Aligned(fold, h, n, low, want, offs) && from <= |h| && cursor <= |low|
    requires Scanned(fold, h, n, offs, from, cursor) && Find(low, want, cursor) == None
    ensures Regions(fold, h, n, from) == []
    ensures Rewritten(fold, h, n, r, from) == h[from..]
  {
    FoundStep(fold, h, n, low, want, offs, from, cursor);
    forall j | from <= j < |h|
      ensures !StartsAt(fold, h, n, j)
    {
      assert offs[j] < offs[|h|];
    }
    SkipTo(fold, h, n, from, |h|);
  }

  // ------------------------------------------------------------ the second search

  /// How many characters of `folded` continue `want` from position i.
  method Agreement(want: string, i: nat, folded: string) returns (j: nat)
    requires i <= |want|
    ensures j <= |folded| && i + j <= |want| && want[i..i + j] == folded[..j]
    ensures j < |folded| ==> i + j == |want| || want[i + j] != folded[j]
  {
    j := 0;
    while j < |folded| && i + j < |want| && want[i + j] == folded[j]
      invariant j <= |folded| && i + j <= |want|
      invariant want[i..i + j] == folded[..j]
    {
      j := j + 1;
    }
  }

  /// An occurrence ends at k, and none starts before it does.
  ghost predicate EndsFirst(fold: Fold, h: string, n: string, k: nat)
  {
    exists i :: Occurs(fold, h, n, i, k) && forall j :: 0 <= j < i ==> !StartsAt(fold, h, n, j)
  }

  /// The end of the first region, found by folding the original character by character.
  method FindFoldInsensitive(fold: Fold, haystack: string, needle: string) returns (r: Option<nat>)
    ensures needle == [] ==> r == None
    ensures needle != [] && Regions(fold, haystack, needle, 0) == [] ==> r == None
    ensures needle != [] && Regions(fold, haystack, needle, 0) != [] ==>
              r == Some(Regions(fold, haystack, needle, 0)[0].end)
    ensures r.Some? <==> needle != [] && exists i :: 0 <= i <= |haystack| && StartsAt(fold, haystack, needle, i)
    ensures r.Some? ==> EndsFirst(fold, haystack, needle, r.value)
  {
    var want := FoldAll(fold, needle);
    if want == [] {
      return None;
    }
    assert needle != [];
    var start := 0;
    while start < |haystack|
      invariant 0 <= start <= |haystack|
      invariant forall j :: 0 <= j < start ==> !StartsAt(fold, haystack, needle, j)
    {
      var end := WalkFrom(fold, haystack, start, needle, want);
      if end.Some? {
        FirstRegion(fold, haystack, needle, start, end.value);
        return end;
      }
      start := start + 1;
    }
    SkipTo(fold, haystack, needle, 0, |haystack|);
    return None;
  }

  /// One attempt of the outer loop: does the needle's folding unfold from `start`?
  method WalkFrom(fold: Fold, h: string, start: nat, ghost n: string, want: string) returns (end: Option<nat>)
    requires start < |h| && n != [] && want == FoldAll(fold, n)
    ensures end.Some? ==> Occurs(fold, h, n, start, end.value)
    ensures end.None? ==> !StartsAt(fold, h, n, start)
  {
    var i, at := 0, start;
    while at < |h|
      invariant start <= at <= |h| && 0 <= i < |want|
      invariant FoldAll(fold, h[start..at]) == want[..i]
    {
      var folded := fold(h[at]);
      var j := Agreement(want, i, folded);
      if j < |folded| {
        WalkFails(fold, h, n, start, at, i, j);
        return None;
      }
      WalkStep(fold, h, start, at, want, i, j);
      i := i + j;
      at := at + 1;
      if i == |want| {
        return Some(at);
      }
    }
    assert h[start..at] == h[start..];
    RanOut(fold, h, n, start, i);
    return None;
  }

  lemma {:induction false} WalkStep(fold: Fold, h: string, start: nat, at: nat, want: string, i: nat, j: nat)
    requires start <= at < |h| && i + j <= |want| && j == |fold(h[at])|
    requires FoldAll(fold, h[start..at]) == want[..i] && want[i..i + j] == fold(h[at])[..j]
    ensures FoldAll(fold, h[start..at + 1]) == want[..i + j]
  {
    ExtendWalk(fold, h, start, at);
    assert want[..i + j] == want[..i] + want[i..i + j];
  }

  lemma {:induction false} FirstRegion(fold: Fold, h: string, n: string, i: nat, k: nat)
    requires n != [] && i <= k <= |h| && FoldAll(fold, h[i..k]) == FoldAll(fold, n)
    requires forall j :: 0 <= j < i ==> !StartsAt(fold, h, n, j)
    ensures Regions(fold, h, n, 0) != [] && Regions(fold, h, n, 0)[0] == Region(i, k)
  {
    assert Occurs(fold, h, n, i, k);
    MatchFound(fold, h, n, [], 0, i, k, []);
  }

  lemma {:induction false} ExtendWalk(fold: Fold, h: string, start: nat, at: nat)
    requires start <= at < |h|
    ensures FoldAll(fold, h[start..at + 1]) == FoldAll(fold, h[start..at]) + fold(h[at])
  {
    assert h[start..at + 1] == h[start..at] + [h[at]];
    FoldAllConcat(fold, h[start..at], [h[at]]);
    assert FoldAll(fold, [h[at]]) == fold(h[at]);
  }

  /// The walk from `start` agrees with w up to w[i], then meets a folded character that w does
  /// not continue with.
  lemma {:induction false} WalkFails(fold: Fold, h: string, n: string, start: nat, at: nat, i: nat, j: nat)
    requires start <= at < |h| && j < |fold(h[at])| && i < |FoldAll(fold, n)|
    requires FoldAll(fold, h[start..at]) == FoldAll(fold, n)[..i]
    requires i + j >= |FoldAll(fold, n)| || FoldAll(fold, n)[i + j] != fold(h[at])[j]
    ensures !StartsAt(fold, h, n, start)
  {
    forall k | start <= k <= |h|
      ensures !Occurs(fold, h, n, start, k)
    {
      if k <= at {
        assert h[start..at] == h[start..k] + h[k..at];
        FoldAllConcat(fold, h[start..k], h[k..at]);
      } else {
        LongerWalk(fold, h, start, at, k, j);
      }
    }
  }

  lemma {:induction false} LongerWalk(fold: Fold, h: string, start: nat, at: nat, k: nat, j: nat)
    requires start <= at < k <= |h| && j < |fold(h[at])|
    ensures var i := |FoldAll(fold, h[start..at])|;
            i + j < |FoldAll(fold, h[start..k])| && FoldAll(fold, h[start..k])[i + j] == fold(h[at])[j]
  {
    ExtendWalk(fold, h, start, at);
    assert h[start..k] == h[start..at + 1] + h[at + 1..k];
    FoldAllConcat(fold, h[start..at + 1], h[at + 1..k]);
  }

  lemma {:induction false} RanOut(fold: Fold, h: string, n: string, start: nat, i: nat)
    requires start <= |h| && i < |FoldAll(fold, n)|
    requires FoldAll(fold, h[start..]) == FoldAll(fold, n)[..i]
    ensures !StartsAt(fold, h, n, start)
  {
    forall k | start <= k <= |h|
      ensures !Occurs(fold, h, n, start, k)
    {
      assert h[start..] == h[start..k] + h[k..];
      FoldAllConcat(fold, h[start..k], h[k..]);
    }
  }
}
