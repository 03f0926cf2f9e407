// The streaming linear resampler (crates/audio/src/resample.rs), over exact reals.
//
// The object carries a fractional position and the last sample between calls. Everything it has
// ever returned is proved to be the resampling of everything it has ever been fed.

module Resampler {
  import opened Common

  // ------------------------------------------------- resampling a whole stream at once

  function Lerp(a: real, b: real, frac: real): real { a + (b - a) * frac }

  /// The stream read at position x, linearly between its neighbours.
  function Interpolate(s: seq<real>, x: real): real
    requires 0.0 <= x <= |s| as real - 1.0
  {
    var i := x.Floor;
    var a := s[i];
    var b := if i + 1 < |s| then s[i + 1] else a;
    Lerp(a, b, x - i as real)
  }

  /// Where output k is read: ratio added up k times.
  function Position(ratio: real, k: nat): real
  {
    if k == 0 then 0.0 else Position(ratio, k - 1) + ratio
  }

  lemma {:induction false} PositionIsProduct(ratio: real, k: nat)
    ensures Position(ratio, k) == k as real * ratio
  {
    if k > 0 {
      PositionIsProduct(ratio, k - 1);
      assert k as real * ratio == (k - 1) as real * ratio + ratio;
    }
  }

  lemma {:induction false} PositionsRise(ratio: real, j: nat, k: nat)
    requires ratio > 0.0 && j <= k
    ensures 0.0 <= Position(ratio, j) <= Position(ratio, k)
    ensures j < k ==> Position(ratio, j) < Position(ratio, k)
    decreases k
  {
    if j < k {
      PositionsRise(ratio, j, k - 1);
    } else if 0 < k {
      PositionsRise(ratio, k - 1, k - 1);
    }
  }

  /// out is s resampled: all the positions that lie within s have been read, and no others.
  ghost predicate IsResampled(ratio: real, s: seq<real>, out: seq<real>)
    requires ratio > 0.0
  {
    && (s == [] ==> out == [])
    && (s != [] ==> out != [] && Position(ratio, |out| - 1) <= |s| as real - 1.0 < Position(ratio, |out|))
    && AllRead(ratio, s, out)
  }

  ghost predicate AllRead(ratio: real, s: seq<real>, out: seq<real>)
    decreases |out|
  {
    out == [] ||
    (AllRead(ratio, s, out[..|out| - 1]) && ReadAt(s, Position(ratio, |out| - 1), out[|out| - 1]))
  }

  lemma {:induction false} EachRead(ratio: real, s: seq<real>, out: seq<real>, k: nat)
    requires AllRead(ratio, s, out) && k < |out|
    ensures ReadAt(s, Position(ratio, k), out[k])
    decreases |out|
  {
    if k < |out| - 1 { EachRead(ratio, s, out[..|out| - 1], k); }
  }

  ghost predicate ReadAt(s: seq<real>, x: real, y: real)
  {
    0.0 <= x <= |s| as real - 1.0 && y == Interpolate(s, x)
  }

  /// The number of outputs for a stream of n samples.
  function Count(ratio: real, n: nat): int
    requires ratio > 0.0
  {
    if n == 0 then 0 else ((n as real - 1.0) / ratio).Floor + 1
  }

  lemma {:induction false} CountOf(ratio: real, s: seq<real>, out: seq<real>)
    requires ratio > 0.0 && IsResampled(ratio, s, out)
    ensures |out| == Count(ratio, |s|)
  {
    if s != [] {
      var m, n := |out| as real - 1.0, |s| as real - 1.0;
      PositionIsProduct(ratio, |out| - 1);
      PositionIsProduct(ratio, |out|);
      assert m == (|out| - 1) as real && m + 1.0 == |out| as real;
      Between(m, n, ratio);
      FloorIs(n / ratio, |out| - 1);
    }
  }

  lemma {:induction false} FloorIs(x: real, k: int)
    requires k as real <= x < k as real + 1.0
    ensures x.Floor == k
  {
  }

  lemma {:induction false} Between(m: real, n: real, ratio: real)
    requires ratio > 0.0 && m * ratio <= n < (m + 1.0) * ratio
    ensures m <= n / ratio < m + 1.0
  {
    var q := n / ratio;
    assert q * ratio == n;
    Scale(q, m, ratio);
    Scale(m + 1.0, q, ratio);
  }

  lemma {:induction false} Scale(x: real, y: real, r: real)
    requires r > 0.0
    ensures x < y ==> x * r < y * r
    ensures x <= y ==> x * r <= y * r
  {
  }

  /// Between samples i and i + 1 the value is their mean, weighted by how near they are; past the last
  /// sample there is nothing.
  ghost predicate OnLine(s: seq<real>, x: real, y: real)
  {
    exists i :: OnLineAt(s, i, x, y)
  }

  ghost predicate OnLineAt(s: seq<real>, i: nat, x: real, y: real)
  {
    && i < |s| && i as real <= x < i as real + 1.0
    && if i + 1 < |s| then y == (i as real + 1.0 - x) * s[i] + (x - i as real) * s[i + 1]
       else x == i as real && y == s[i]
  }

  lemma {:induction false} Weighted(a: real, b: real, f: real)
    ensures Lerp(a, b, f) == (1.0 - f) * a + f * b
  {
  }

  lemma {:induction false} ReadIsOnLine(s: seq<real>, x: real, y: real)
    requires ReadAt(s, x, y)
    ensures OnLine(s, x, y)
  {
    var i: nat := x.Floor;
    if i + 1 < |s| {
      Weighted(s[i], s[i + 1], x - i as real);
    } else {
      assert x == i as real;
    }
    assert OnLineAt(s, i, x, y);
  }

  /// The resampling is unique, and output k is the stream read at k * ratio.
  lemma {:induction false} ResampledIsDetermined(ratio: real, s: seq<real>, a: seq<real>, b: seq<real>)
    requires ratio > 0.0 && IsResampled(ratio, s, a) && IsResampled(ratio, s, b)
    ensures a == b
    ensures forall k :: 0 <= k < |a| ==> OnLine(s, k as real * ratio, a[k])
  {
    CountOf(ratio, s, a);
    CountOf(ratio, s, b);
    forall k | 0 <= k < |a|
      ensures a[k] == b[k] && OnLine(s, k as real * ratio, a[k])
    {
      PositionIsProduct(ratio, k);
      EachRead(ratio, s, a, k);
      ReadIsOnLine(s, k as real * ratio, a[k]);
      EachRead(ratio, s, b, k);
    }
  }

  /// What has been read stays as it is when more input arrives.
  lemma {:induction false} ReadIsFinal(s: seq<real>, t: seq<real>, x: real, y: real)
    requires ReadAt(s, x, y)
    ensures ReadAt(s + t, x, y)
  {
    if x.Floor + 1 == |s| {
      assert x == x.Floor as real;
    }
  }

  // ------------------------------------------------------------------- the object

  class Resampler {
    const ratio: real
    var pos: real
    var carry: Option<real>
    /// Everything fed so far, and everything returned.
    ghost var stream: seq<real>
    ghost var emitted: seq<real>

    ghost predicate Valid()
      reads this
    {
      && ratio > 0.0
      && IsResampled(ratio, stream, emitted)
      && (ratio != 1.0 ==>
            if stream == [] then pos == 0.0 && carry == None
            else carry == Some(stream[|stream| - 1])
                 && pos == Position(ratio, |emitted|) - (|stream| as real - 1.0))
    }

    constructor (fromRate: nat, toRate: nat)
      requires fromRate > 0 && toRate > 0
      ensures Valid() && ratio == fromRate as real / toRate as real
      ensures stream == [] && emitted == []
    {
      Positive(fromRate as real, toRate as real);
      ratio := fromRate as real / toRate as real;
      pos := 0.0;
      carry := None;
      stream, emitted := [], [];
    }

    /// Interpolation source: -1 is the last sample of the previous chunk.
    function Get(input: seq<real>, i: int): real
      requires input != [] && -1 <= i < |input|
      reads this
    {
      if i < 0 then (if carry.Some? then carry.value else input[0]) else input[i]
    }

    method Process(input: seq<real>) returns (out: seq<real>)
      requires Valid()
      modifies this
      ensures Valid()
      ensures stream == old(stream) + input && emitted == old(emitted) + out
    {
      if ratio == 1.0 {
        CopiedOn(stream, emitted, input);
        stream, emitted := stream + input, emitted + input;
        return input;
      }
      if input == [] {
        assert stream + input == stream && emitted + [] == emitted;
        return [];
      }
      out := [];
      ghost var all := stream + input;
      var p := pos - if carry.Some? then 1.0 else 0.0;
      var last := |input| as real - 1.0;
      assert emitted + out == emitted;
      Started(ratio, stream, input, emitted, p);
      ghost var bound := Beyond(ratio, |all| as real);
      while p <= last
        invariant unchanged(this)
        invariant Reading(ratio, stream, input, emitted + out, p)
        decreases bound - |emitted + out|
      {
        NotPast(ratio, |emitted + out|, bound);
        var i := p.Floor;
        var frac := p - i as real;
        var a := Get(input, i);
        var b := if i as real + 1.0 <= last then Get(input, i + 1) else a;
        var y := Lerp(a, b, frac);
        LocalIs(stream, input, p, i, a, b);
        ReadMore(ratio, stream, input, emitted + out, p);
        assert emitted + (out + [y]) == (emitted + out) + [y];
        out := out + [y];
        p := p + ratio;
      }
      ReadAll(ratio, stream, input, emitted + out, p);
      pos := p - last;
      carry := Some(input[|input| - 1]);
      stream, emitted := all, emitted + out;
    }
  }

  /// What has been returned when the next read is at p of the new chunk.
  ghost predicate Reading(ratio: real, s: seq<real>, input: seq<real>, out: seq<real>, p: real)
  {
    && p == Position(ratio, |out|) - |s| as real
    && -1.0 < p && (s == [] ==> p >= 0.0)
    && (out != [] ==> Position(ratio, |out| - 1) <= |s + input| as real - 1.0)
    && AllRead(ratio, s + input, out)
  }

  lemma {:induction false} Started(ratio: real, s: seq<real>, input: seq<real>, out: seq<real>, p: real)
    requires ratio > 0.0 && IsResampled(ratio, s, out) && p == Position(ratio, |out|) - |s| as real
    ensures Reading(ratio, s, input, out, p)
  {
    StillRead(ratio, s, out, input);
    PositionsRise(ratio, |out|, |out|);
  }

  lemma {:induction false} ReadMore(ratio: real, s: seq<real>, input: seq<real>, out: seq<real>, p: real)
    requires ratio > 0.0 && input != [] && Reading(ratio, s, input, out, p) && p <= |input| as real - 1.0
    ensures Reading(ratio, s, input, out + [Local(s, input, p)], p + ratio)
  {
    LocalRead(s, input, p, Position(ratio, |out|));
    Appended(ratio, s + input, out, Local(s, input, p));
  }

  lemma {:induction false} ReadAll(ratio: real, s: seq<real>, input: seq<real>, out: seq<real>, p: real)
    requires ratio > 0.0 && input != [] && Reading(ratio, s, input, out, p) && p > |input| as real - 1.0
    ensures IsResampled(ratio, s + input, out)
  {
  }

  lemma {:induction false} CopiedOn(s: seq<real>, out: seq<real>, input: seq<real>)
    requires IsResampled(1.0, s, out)
    ensures IsResampled(1.0, s + input, out + input)
  {
    CopyingIsResampling(s);
    ResampledIsDetermined(1.0, s, s, out);
    CopyingIsResampling(s + input);
  }

  lemma {:induction false} Beyond(ratio: real, x: real) returns (k: nat)
    requires ratio > 0.0 && x >= 0.0
    ensures Position(ratio, k) > x
  {
    var q := x / ratio;
    assert q * ratio == x;
    if q < 0.0 { Scale(q, 0.0, ratio); }
    k := q.Floor + 1;
    PositionIsProduct(ratio, k);
    Scale(q, k as real, ratio);
  }

  lemma {:induction false} NotPast(ratio: real, j: nat, k: nat)
    requires ratio > 0.0 && Position(ratio, j) < Position(ratio, k)
    ensures j < k
  {
    if k <= j { PositionsRise(ratio, k, j); }
  }

  lemma {:induction false} Positive(a: real, b: real)
    requires a > 0.0 && b > 0.0
    ensures a / b > 0.0
  {
    assert a == (a / b) * b;
  }

  lemma {:induction false} StillRead(ratio: real, s: seq<real>, out: seq<real>, input: seq<real>)
    requires AllRead(ratio, s, out)
    ensures AllRead(ratio, s + input, out)
    decreases |out|
  {
    if out != [] {
      StillRead(ratio, s, out[..|out| - 1], input);
      ReadIsFinal(s, input, Position(ratio, |out| - 1), out[|out| - 1]);
    }
  }

  lemma {:induction false} Appended(ratio: real, s: seq<real>, out: seq<real>, y: real)
    requires AllRead(ratio, s, out) && ReadAt(s, Position(ratio, |out|), y)
    ensures AllRead(ratio, s, out + [y])
  {
    assert (out + [y])[..|out|] == out;
  }

  lemma {:induction false} WholePositions(k: nat)
    ensures Position(1.0, k) == k as real
  {
    if k > 0 { WholePositions(k - 1); }
  }

  lemma {:induction false} CopyIsRead(s: seq<real>, n: nat)
    requires n <= |s|
    ensures AllRead(1.0, s, s[..n])
  {
    if n > 0 {
      CopyIsRead(s, n - 1);
      assert s[..n][..n - 1] == s[..n - 1];
      WholePositions(n - 1);
    }
  }

  /// At equal rates resampling is copying.
  lemma {:induction false} CopyingIsResampling(s: seq<real>)
    ensures IsResampled(1.0, s, s)
  {
    CopyIsRead(s, |s|);
    assert s[..|s|] == s;
    WholePositions(|s|);
    if s != [] { WholePositions(|s| - 1); }
  }

  /// One chunk read at p, with -1 standing for the last sample before it.
  ghost function Local(s: seq<real>, input: seq<real>, p: real): real
    requires input != [] && -1.0 < p <= |input| as real - 1.0 && (s == [] ==> p >= 0.0)
  {
    var i := p.Floor;
    var a := if i < 0 then s[|s| - 1] else input[i];
    var b := if i as real + 1.0 <= |input| as real - 1.0 then input[i + 1] else a;
    Lerp(a, b, p - i as real)
  }

  lemma {:induction false} LocalIs(s: seq<real>, input: seq<real>, p: real, i: int, a: real, b: real)
    requires input != [] && -1.0 < p <= |input| as real - 1.0 && (s == [] ==> p >= 0.0) && i == p.Floor
    requires a == if i < 0 then s[|s| - 1] else input[i]
    requires b == if i as real + 1.0 <= |input| as real - 1.0 then input[i + 1] else a
    ensures Lerp(a, b, p - i as real) == Local(s, input, p)
  {
  }

  /// It is reading the stream.
  lemma {:induction false} LocalRead(s: seq<real>, input: seq<real>, p: real, x: real)
    requires input != [] && -1.0 < p <= |input| as real - 1.0 && (s == [] ==> p >= 0.0)
    requires p == x - |s| as real
    ensures ReadAt(s + input, x, Local(s, input, p))
  {
    assert x == p + |s| as real;
    assert x.Floor == p.Floor + |s|;
  }

  // ---------------------------------------------------------------------- chunking

  /// Fed chunk by chunk or all at once, a resampler returns the same samples in the end.
  method FeedChunks(fromRate: nat, toRate: nat, chunks: seq<seq<real>>) returns (out: seq<real>)
    requires fromRate > 0 && toRate > 0
    ensures fromRate as real / toRate as real > 0.0
    ensures IsResampled(fromRate as real / toRate as real, Flatten(chunks), out)
  {
    var r := new Resampler(fromRate, toRate);
    out := [];
    for i := 0 to |chunks|
      invariant fresh(r) && r.Valid() && r.ratio == fromRate as real / toRate as real
      invariant r.stream == Flatten(chunks[..i]) && r.emitted == out
    {
      assert chunks[..i + 1][..i] == chunks[..i];
      var more := r.Process(chunks[i]);
      out := out + more;
    }
    assert chunks[..|chunks|] == chunks;
  }
}
