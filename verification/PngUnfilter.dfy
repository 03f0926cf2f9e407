// The row unfilter of scripts/ci-check-icon-not-blank.py, against PNG filtering as defined in
// section 6 of RFC 2083. Bytes are integers in 0..256.

module PngUnfilter {

  newtype Byte = x: int | 0 <= x < 256

  type Row = seq<Byte>

  // -------------------------------------------------- filtering, from the standard

  function Abs(x: int): nat { if x < 0 then -x else x }

  /// Section 6.6: of left, above and upper left, the nearest to left + above - upper left; ties go
  /// to left, then above.
  ghost predicate IsPaeth(a: Byte, b: Byte, c: Byte, r: Byte)
  {
    var p := a as int + b as int - c as int;
    var pa, pb, pc := Abs(p - a as int), Abs(p - b as int), Abs(p - c as int);
    && (r == a || r == b || r == c)
    && Abs(p - r as int) <= pa && Abs(p - r as int) <= pb && Abs(p - r as int) <= pc
    && (pa <= pb && pa <= pc ==> r == a)
    && (!(pa <= pb && pa <= pc) && pb <= pc ==> r == b)
  }

  function Paeth(a: Byte, b: Byte, c: Byte): (r: Byte)
    ensures IsPaeth(a, b, c, r)
  {
    var p := a as int + b as int - c as int;
    var pa, pb, pc := Abs(p - a as int), Abs(p - b as int), Abs(p - c as int);
    if pa <= pb && pa <= pc then a else if pb <= pc then b else c
  }

  /// What filter type f predicts from the bytes to the left, above and upper left. A type above 4,
  /// which no encoder may write, is decoded like type 0.
  function Predict(f: Byte, a: Byte, b: Byte, c: Byte): Byte
  {
    if f == 1 then a
    else if f == 2 then b
    else if f == 3 then ((a as int + b as int) / 2) as Byte
    else if f == 4 then Paeth(a, b, c)
    else 0
  }

  function LeftOf(row: Row, x: nat, bpp: nat): Byte
    requires x <= |row| && bpp > 0
  {
    if x >= bpp then row[x - bpp] else 0
  }

  /// The prediction for byte x of a row, from raw bytes only.
  function Prediction(f: Byte, row: Row, prior: Row, x: nat, bpp: nat): Byte
    requires x < |row| == |prior| && bpp > 0
  {
    Predict(f, LeftOf(row, x, bpp), prior[x], LeftOf(prior, x, bpp))
  }

  /// Filtering subtracts the prediction, modulo 256, from every byte of the raw row.
  function Filtered(f: Byte, raw: Row, prior: Row, bpp: nat): (r: Row)
    requires |raw| == |prior| && bpp > 0
    ensures |r| == |raw|
  {
    seq(|raw|, x requires 0 <= x < |raw| => Minus(raw[x], Prediction(f, raw, prior, x, bpp)))
  }

  function Minus(x: Byte, y: Byte): Byte { ((x as int - y as int) % 256) as Byte }

  function Plus(x: Byte, y: Byte): Byte { ((x as int + y as int) % 256) as Byte }

  /// Section 6.1 to 6.6, byte by byte: what filter type f adds to a filtered byte to give the raw one.
  ghost predicate Adds(f: Byte, a: Byte, b: Byte, c: Byte, added: int)
  {
    && (f == 0 || f > 4 ==> added == 0)
    && (f == 1 ==> added == a as int)
    && (f == 2 ==> added == b as int)
    && (f == 3 ==> 2 * added <= a as int + b as int <= 2 * added + 1)
    && (f == 4 ==> exists r :: IsPaeth(a, b, c, r) && added == r as int)
  }

  /// The raw byte is the filtered one and what its neighbours add, modulo 256.
  ghost predicate RestoresByte(f: Byte, a: Byte, b: Byte, c: Byte, filtered: Byte, raw: Byte)
  {
    exists added :: Adds(f, a, b, c, added) && raw as int == (filtered as int + added) % 256
  }

  /// So is every byte of a row; neighbours off the row are 0.
  ghost predicate Restores(f: Byte, filtered: Row, raw: Row, prior: Row, bpp: nat)
    requires |filtered| == |raw| == |prior| && bpp > 0
  {
    forall x :: 0 <= x < |raw| ==>
      RestoresByte(f, if x >= bpp then raw[x - bpp] else 0, prior[x], if x >= bpp then prior[x - bpp] else 0, filtered[x], raw[x])
  }

  lemma {:induction false} PredictAdds(f: Byte, a: Byte, b: Byte, c: Byte)
    ensures Adds(f, a, b, c, Predict(f, a, b, c) as int)
  {
    if f == 4 { assert IsPaeth(a, b, c, Paeth(a, b, c)); }
  }

  lemma {:induction false} OneRestores(f: Byte, a: Byte, b: Byte, c: Byte, raw: Byte)
    ensures RestoresByte(f, a, b, c, Minus(raw, Predict(f, a, b, c)), raw)
  {
    var added := Predict(f, a, b, c);
    PredictAdds(f, a, b, c);
    MinusThenPlus(raw, added);
    assert Adds(f, a, b, c, added as int);
  }

  lemma {:induction false} FilteredRestores(f: Byte, raw: Row, prior: Row, bpp: nat)
    requires |raw| == |prior| && bpp > 0
    ensures Restores(f, Filtered(f, raw, prior, bpp), raw, prior, bpp)
  {
    var filtered := Filtered(f, raw, prior, bpp);
    forall x | 0 <= x < |raw|
      ensures RestoresByte(f, LeftOf(raw, x, bpp), prior[x], LeftOf(prior, x, bpp), filtered[x], raw[x])
    {
      OneRestores(f, LeftOf(raw, x, bpp), prior[x], LeftOf(prior, x, bpp), raw[x]);
    }
  }

  lemma {:induction false} MinusThenPlus(x: Byte, y: Byte)
    ensures x as int == (Minus(x, y) as int + y as int) % 256
  {
  }

  // ------------------------------------------------------------ unfiltering a row

  /// line is decoded up to n: it holds raw bytes, whose filtering is the original line.
  ghost predicate Decoded(f: Byte, line: Row, was: Row, prior: Row, bpp: nat, n: nat)
    requires |line| == |was| == |prior| && bpp > 0 && n <= |line|
  {
    && (forall x :: 0 <= x < n ==> was[x] == Minus(line[x], Prediction(f, line, prior, x, bpp)))
    && (forall x :: n <= x < |line| ==> line[x] == was[x])
  }

  /// The inner loop: `line` is decoded in place against the previous decoded row.
  method UnfilterRow(f: Byte, line: array<Byte>, prev: array<Byte>, ch: nat)
    requires line != prev && line.Length == prev.Length && ch > 0
    modifies line
    ensures Filtered(f, line[..], prev[..], ch) == old(line[..])
    ensures f > 4 ==> line[..] == old(line[..])
    ensures Restores(f, old(line[..]), line[..], prev[..], ch)
  {
    ghost var was, prior := line[..], prev[..];
    for x := 0 to line.Length
      invariant prev[..] == prior && Decoded(f, line[..], was, prior, ch, x)
    {
      var a := if x >= ch then line[x - ch] else 0;
      var b := prev[x];
      var c := if x >= ch then prev[x - ch] else 0;
      ghost var before := line[..];
      if f == 1 {
        line[x] := Plus(line[x], a);
      } else if f == 2 {
        line[x] := Plus(line[x], b);
      } else if f == 3 {
        line[x] := Plus(line[x], ((a as int + b as int) / 2) as Byte);
      } else if f == 4 {
        var p := a as int + b as int - c as int;
        var pa, pb, pc := Abs(p - a as int), Abs(p - b as int), Abs(p - c as int);
        var pr := if pa <= pb && pa <= pc then a else if pb <= pc then b else c;
        line[x] := Plus(line[x], pr);
      }
      assert line[..] == before[x := Plus(before[x], Predict(f, a, b, c))];
      DecodeStep(f, before, line[..], was, prior, ch, x);
    }
    AllDecoded(f, line[..], was, prior, ch);
    FilteredRestores(f, line[..], prior, ch);
  }

  lemma {:induction false} AllDecoded(f: Byte, line: Row, was: Row, prior: Row, bpp: nat)
    requires |line| == |was| == |prior| && bpp > 0 && Decoded(f, line, was, prior, bpp, |line|)
    ensures Filtered(f, line, prior, bpp) == was
    ensures f > 4 ==> line == was
  {
  }

  lemma {:induction false} DecodeStep(f: Byte, before: Row, after: Row, was: Row, prior: Row, bpp: nat, x: nat)
    requires |before| == |after| == |was| == |prior| && bpp > 0 && x < |before|
    requires Decoded(f, before, was, prior, bpp, x)
    requires after == before[x := Plus(before[x], Prediction(f, before, prior, x, bpp))]
    ensures Decoded(f, after, was, prior, bpp, x + 1)
  {
    forall y | 0 <= y <= x
      ensures was[y] == Minus(after[y], Prediction(f, after, prior, y, bpp))
    {
      assert Prediction(f, after, prior, y, bpp) == Prediction(f, before, prior, y, bpp);
    }
  }

  /// Only one raw row has a given filtering: filtering loses nothing.
  lemma {:induction false} FilteringIsInjective(f: Byte, r: Row, s: Row, prior: Row, bpp: nat, n: nat)
    requires |r| == |s| == |prior| && bpp > 0 && n <= |r|
    requires Filtered(f, r, prior, bpp) == Filtered(f, s, prior, bpp)
    ensures forall x :: 0 <= x < n ==> r[x] == s[x]
    decreases n
  {
    if n > 0 {
      FilteringIsInjective(f, r, s, prior, bpp, n - 1);
      var x := n - 1;
      assert Filtered(f, r, prior, bpp)[x] == Filtered(f, s, prior, bpp)[x];
      assert Prediction(f, r, prior, x, bpp) == Prediction(f, s, prior, x, bpp);
    }
  }

  // ------------------------------------------------------------------- the image

  function Zeros(n: nat): Row { seq(n, _ => 0) }

  /// Where row y starts in the stream: each row takes one filter byte and `stride` bytes.
  function RowStart(y: nat, stride: nat): nat
  {
    if y == 0 then 0 else RowStart(y - 1, stride) + 1 + stride
  }

  lemma {:induction false} RowStartIsProduct(y: nat, stride: nat)
    ensures RowStart(y, stride) == y * (1 + stride)
  {
    if y > 0 {
      RowStartIsProduct(y - 1, stride);
      assert y * (1 + stride) == (y - 1) * (1 + stride) + 1 + stride;
    }
  }

  lemma {:induction false} RowFits(y: nat, h: nat, stride: nat)
    requires y < h
    ensures RowStart(y, stride) + 1 + stride <= RowStart(h, stride)
    decreases h
  {
    if y < h - 1 { RowFits(y, h - 1, stride); }
  }

  /// The filtered byte stream of an image: each row preceded by its filter type, and filtered
  /// against the raw row above it (zeros above the first).
  function Encode(rows: seq<Row>, types: seq<Byte>, stride: nat, bpp: nat): (raw: Row)
    requires |rows| == |types| && bpp > 0 && AllLong(rows, stride)
    ensures |raw| == RowStart(|rows|, stride)
    decreases |rows|
  {
    if rows == [] then []
    else
      var h := |rows| - 1;
      Encode(rows[..h], types[..h], stride, bpp)
      + ([types[h]] + Filtered(types[h], rows[h], Above(rows, h, stride), bpp))
  }

  predicate AllLong(rows: seq<Row>, stride: nat)
  {
    forall y :: 0 <= y < |rows| ==> |rows[y]| == stride
  }

  lemma {:induction false} EncodeMore(rows: seq<Row>, types: seq<Byte>, stride: nat, bpp: nat, row: Row, f: Byte, above: Row)
    requires |rows| == |types| && bpp > 0 && AllLong(rows, stride) && |row| == stride
    requires above == Above(rows, |rows|, stride)
    ensures AllLong(rows + [row], stride)
    ensures Encode(rows + [row], types + [f], stride, bpp)
            == Encode(rows, types, stride, bpp) + ([f] + Filtered(f, row, above, bpp))
  {
    var h := |rows|;
    assert (rows + [row])[..h] == rows && (types + [f])[..h] == types;
    if h > 0 { assert (rows + [row])[h - 1] == rows[h - 1]; }
  }

  function Above(rows: seq<Row>, y: nat, stride: nat): (r: Row)
    requires y <= |rows| && AllLong(rows, stride)
    ensures |r| == stride
  {
    if y == 0 then Zeros(stride) else rows[y - 1]
  }

  /// The outer loop: rows are taken off the stream and unfiltered one after the other. The ghost
  /// result lists the filter types met.
  method UnfilterImage(raw: Row, h: nat, stride: nat, ch: nat) returns (rows: seq<Row>, ghost types: seq<Byte>)
    requires ch > 0 && |raw| >= RowStart(h, stride)
    ensures |rows| == |types| == h && AllLong(rows, stride)
    ensures Encode(rows, types, stride, ch) == raw[..RowStart(h, stride)]
    ensures TypesAre(raw, types, stride)
  {
    rows, types := [], [];
    var prev := new Byte[stride](_ => 0);
    var i := 0;
    for y := 0 to h
      invariant |rows| == |types| == y && AllLong(rows, stride)
      invariant i == RowStart(y, stride) <= |raw|
      invariant prev.Length == stride && prev[..] == Above(rows, y, stride)
      invariant TypesAre(raw, types, stride)
      invariant Encode(rows, types, stride, ch) == raw[..i]
    {
      RowFits(y, h, stride);
      var f := raw[i];
      i := i + 1;
      var line := Slice(raw, i, stride);
      ghost var above := prev[..];
      UnfilterRow(f, line, prev, ch);
      i := i + stride;
      RowDone(raw, rows, types, stride, ch, line[..], above);
      TypeTaken(raw, types, stride);
      rows := rows + [line[..]];
      types := types + [f];
      prev := line;
    }
  }

  /// types[y] is the first byte of row y.
  ghost predicate TypesAre(raw: Row, types: seq<Byte>, stride: nat)
    decreases |types|
  {
    types == [] ||
    var y := |types| - 1;
    RowStart(y, stride) < |raw| && types[y] == raw[RowStart(y, stride)] && TypesAre(raw, types[..y], stride)
  }

  lemma {:induction false} TypeTaken(raw: Row, types: seq<Byte>, stride: nat)
    requires TypesAre(raw, types, stride) && RowStart(|types|, stride) < |raw|
    ensures TypesAre(raw, types + [raw[RowStart(|types|, stride)]], stride)
  {
    assert (types + [raw[RowStart(|types|, stride)]])[..|types|] == types;
  }

  lemma {:induction false} RowTaken(raw: Row, at: nat, stride: nat)
    requires at + 1 + stride <= |raw|
    ensures raw[..at + 1 + stride] == raw[..at] + ([raw[at]] + raw[at + 1..at + 1 + stride])
  {
  }

  lemma {:induction false} RowDone(raw: Row, rows: seq<Row>, types: seq<Byte>, stride: nat, bpp: nat, row: Row, above: Row)
    requires |rows| == |types| && bpp > 0 && AllLong(rows, stride) && |row| == stride
    requires above == Above(rows, |rows|, stride) && RowStart(|rows|, stride) + 1 + stride <= |raw|
    requires Encode(rows, types, stride, bpp) == raw[..RowStart(|rows|, stride)]
    requires var at := RowStart(|rows|, stride);
             Filtered(raw[at], row, above, bpp) == raw[at + 1..at + 1 + stride]
    ensures AllLong(rows + [row], stride)
    ensures var f := raw[RowStart(|rows|, stride)];
            Encode(rows + [row], types + [f], stride, bpp) == raw[..RowStart(|rows|, stride) + 1 + stride]
  {
    var at := RowStart(|rows|, stride);
    EncodeMore(rows, types, stride, bpp, row, raw[at], above);
    RowTaken(raw, at, stride);
  }

  method Slice(raw: Row, from: nat, n: nat) returns (line: array<Byte>)
    requires from + n <= |raw|
    ensures fresh(line) && line.Length == n && line[..] == raw[from..from + n]
  {
    line := new Byte[n](x requires 0 <= x < n => raw[from + x]);
  }

  lemma {:induction false} EncodeIsInjective(r: seq<Row>, s: seq<Row>, types: seq<Byte>, stride: nat, bpp: nat)
    requires |r| == |s| == |types| && bpp > 0
    requires AllLong(r, stride) && AllLong(s, stride)
    requires Encode(r, types, stride, bpp) == Encode(s, types, stride, bpp)
    ensures r == s
    decreases |r|
  {
    if r != [] {
      var h := |r| - 1;
      var pr, ps := RowBytes(r, types, stride, bpp), RowBytes(s, types, stride, bpp);
      SameParts(Encode(r[..h], types[..h], stride, bpp), Encode(s[..h], types[..h], stride, bpp), pr, ps);
      EncodeIsInjective(r[..h], s[..h], types[..h], stride, bpp);
      LastRowIsInjective(r, s, types, stride, bpp);
      SameRows(r, s);
    }
  }

  lemma {:induction false} LastRowIsInjective(r: seq<Row>, s: seq<Row>, types: seq<Byte>, stride: nat, bpp: nat)
    requires |r| == |s| == |types| > 0 && bpp > 0
    requires AllLong(r, stride) && AllLong(s, stride)
    requires r[..|r| - 1] == s[..|s| - 1] && RowBytes(r, types, stride, bpp) == RowBytes(s, types, stride, bpp)
    ensures r[|r| - 1] == s[|s| - 1]
  {
    var h := |r| - 1;
    if h > 0 { assert r[h - 1] == r[..h][h - 1] == s[..h][h - 1] == s[h - 1]; }
    assert RowBytes(r, types, stride, bpp)[1..] == RowBytes(s, types, stride, bpp)[1..];
    FilteringIsInjective(types[h], r[h], s[h], Above(r, h, stride), bpp, stride);
  }

  /// The bytes the last row contributes: its filter type and its filtered bytes.
  ghost function RowBytes(rows: seq<Row>, types: seq<Byte>, stride: nat, bpp: nat): (b: Row)
    requires |rows| == |types| > 0 && bpp > 0 && AllLong(rows, stride)
    ensures |b| == 1 + stride
    ensures b[1..] == Filtered(types[|rows| - 1], rows[|rows| - 1], Above(rows, |rows| - 1, stride), bpp)
  {
    var h := |rows| - 1;
    [types[h]] + Filtered(types[h], rows[h], Above(rows, h, stride), bpp)
  }

  lemma {:induction false} SameRows(r: seq<Row>, s: seq<Row>)
    requires |r| == |s| > 0 && r[..|r| - 1] == s[..|s| - 1] && r[|r| - 1] == s[|s| - 1]
    ensures r == s
  {
    assert r == r[..|r| - 1] + [r[|r| - 1]] && s == s[..|s| - 1] + [s[|s| - 1]];
  }

  lemma {:induction false} SameParts(a: Row, b: Row, u: Row, v: Row)
    requires |a| == |b| && a + u == b + v
    ensures a == b && u == v
  {
    assert a == (a + u)[..|a|] && b == (b + v)[..|b|];
    assert u == (a + u)[|a|..] && v == (b + v)[|b|..];
  }

  lemma {:induction false} TypesOfEncode(raw: Row, rows: seq<Row>, types: seq<Byte>, seen: seq<Byte>, stride: nat, bpp: nat)
    requires |rows| == |types| == |seen| && bpp > 0 && AllLong(rows, stride)
    requires Encode(rows, types, stride, bpp) <= raw && TypesAre(raw, seen, stride)
    ensures seen == types
    decreases |rows|
  {
    if rows != [] {
      var h := |rows| - 1;
      EncodePrefix(raw, rows, types, stride, bpp);
      TypesOfEncode(raw, rows[..h], types[..h], seen[..h], stride, bpp);
      LastToo(types, seen, h);
    }
  }

  lemma {:induction false} LastToo(s: Row, t: Row, h: nat)
    requires |s| == |t| == h + 1 && s[..h] == t[..h] && s[h] == t[h]
    ensures s == t
  {
    assert s == s[..h] + [s[h]] && t == t[..h] + [t[h]];
  }

  lemma {:induction false} EncodePrefix(raw: Row, rows: seq<Row>, types: seq<Byte>, stride: nat, bpp: nat)
    requires |rows| == |types| > 0 && bpp > 0 && AllLong(rows, stride)
    requires Encode(rows, types, stride, bpp) <= raw
    ensures var h := |rows| - 1;
            Encode(rows[..h], types[..h], stride, bpp) <= raw
            && RowStart(h, stride) < |raw| && raw[RowStart(h, stride)] == types[h]
  {
    var h := |rows| - 1;
    var init := Encode(rows[..h], types[..h], stride, bpp);
    assert Encode(rows, types, stride, bpp) == init + RowBytes(rows, types, stride, bpp);
  }

  /// Whatever meets the contract of `UnfilterImage` on an encoded image has found its rows and its
  /// filter types: decoding inverts encoding, for every image and every choice of filter types.
  lemma {:induction false} DecodingInverts(raw: Row, rows: seq<Row>, types: seq<Byte>, stride: nat, bpp: nat, back: seq<Row>, seen: seq<Byte>)
    requires |rows| == |types| == |back| == |seen| && bpp > 0 && AllLong(rows, stride) && AllLong(back, stride)
    requires raw == Encode(rows, types, stride, bpp)
    requires Encode(back, seen, stride, bpp) == raw[..RowStart(|rows|, stride)] && TypesAre(raw, seen, stride)
    ensures back == rows && seen == types
  {
    assert raw[..|raw|] == raw;
    TypesOfEncode(raw, rows, types, seen, stride, bpp);
    EncodeIsInjective(back, rows, types, stride, bpp);
  }

  /// The decoder on an encoded image.
  method RoundTrip(rows: seq<Row>, types: seq<Byte>, stride: nat, ch: nat) returns (back: seq<Row>, ghost seen: seq<Byte>)
    requires |rows| == |types| && ch > 0 && AllLong(rows, stride)
    ensures back == rows && seen == types
  {
    var raw := Encode(rows, types, stride, ch);
    back, seen := UnfilterImage(raw, |rows|, stride, ch);
    DecodingInverts(raw, rows, types, stride, ch, back, seen);
  }
}
