// The sample ring between the capture callback and the segmenter (crates/audio/src/ring.rs).
//
// Every operation runs under the ring's lock, so an execution of the two threads is a sequence of
// whole pushes and pops, in any order; `Valid` is what every such sequence keeps.

module Ring {
  /// The newest `most` elements.
  function Newest(s: seq<real>, most: nat): (r: seq<real>)
    ensures |r| == if |s| < most then |s| else most
  {
    if |s| > most then s[|s| - most..] else s
  }

  /// `delivered` are elements of `pushed` at the rising indices `at`, all of them below `limit`.
  ghost predicate TakenInOrder(delivered: seq<real>, at: seq<nat>, pushed: seq<real>, limit: nat)
  {
    && |at| == |delivered| && limit <= |pushed|
    && (forall i :: 0 <= i < |at| ==> at[i] < limit && pushed[at[i]] == delivered[i])
    && (forall i, j :: 0 <= i < j < |at| ==> at[i] < at[j])
  }

  class Ring {
    var buf: seq<real>
    const capacity: nat
    var dropped: nat
    /// Everything ever pushed; everything ever popped, and where in `pushed` it came from.
    ghost var pushed: seq<real>
    ghost var delivered: seq<real>
    ghost var at: seq<nat>

    ghost predicate Valid()
      reads this
    {
      && |buf| <= capacity && |buf| <= |pushed|
      && buf == pushed[|pushed| - |buf|..]
      && TakenInOrder(delivered, at, pushed, |pushed| - |buf|)
      && |pushed| == |delivered| + dropped + |buf|
    }

    constructor (capacity: nat)
      ensures Valid() && this.capacity == capacity
      ensures buf == [] && dropped == 0 && pushed == [] && delivered == []
    {
      this.capacity := capacity;
      buf, dropped := [], 0;
      pushed, delivered, at := [], [], [];
    }

    ghost function Book(): Ledger
      reads this
    {
      Ledger(buf, pushed, delivered, dropped)
    }

    method Push(samples: seq<real>)
      requires Valid()
      modifies this
      ensures Valid()
      ensures Book() == After(capacity, old(Book()), Op.Push(samples))
      ensures buf == Newest(old(buf) + samples, capacity)
      ensures dropped == old(dropped) + |old(buf) + samples| - |buf|
      ensures pushed == old(pushed) + samples && delivered == old(delivered)
    {
      var incoming := |samples|;
      var overflow := if |buf| + incoming > capacity then |buf| + incoming - capacity else 0;
      if overflow > 0 {
        var dropN := if overflow < |buf| then overflow else |buf|;
        buf := buf[dropN..];
        dropped := dropped + overflow;
      }
      var start := if incoming > capacity then incoming - capacity else 0;
      buf := buf + samples[start..];
      PushKeepsNewest(old(buf), samples, capacity);
      NewestOfSuffix(pushed, old(buf), samples, capacity);
      pushed := pushed + samples;
    }

    method Pop(out: array<real>) returns (n: nat)
      requires Valid()
      modifies this, out
      ensures Valid()
      ensures Book() == After(capacity, old(Book()), Op.Pop(out.Length))
      ensures n == if out.Length < |old(buf)| then out.Length else |old(buf)|
      ensures out[..n] == old(buf)[..n] && out[n..] == old(out[n..])
      ensures buf == old(buf)[n..]
      ensures delivered == old(delivered) + out[..n]
      ensures pushed == old(pushed) && dropped == old(dropped)
    {
      n := if out.Length < |buf| then out.Length else |buf|;
      for i := 0 to n
        invariant Valid() && pushed == old(pushed) && dropped == old(dropped)
        invariant buf == old(buf)[i..] && out[..i] == old(buf)[..i] && out[i..] == old(out[..])[i..]
        invariant delivered == old(delivered) + out[..i]
      {
        out[i] := buf[0];
        delivered := delivered + [buf[0]];
        at := at + [|pushed| - |buf|];
        buf := buf[1..];
        assert out[..i + 1] == out[..i] + [out[i]];
      }
    }

    method Len() returns (n: nat)
      ensures n == |buf|
    {
      n := |buf|;
    }
  }

  /// Dropping from the front of the buffer and then of the samples keeps the newest of both.
  lemma {:induction false} PushKeepsNewest(b: seq<real>, samples: seq<real>, capacity: nat)
    requires |b| <= capacity
    ensures var overflow := if |b| + |samples| > capacity then |b| + |samples| - capacity else 0;
            var start := if |samples| > capacity then |samples| - capacity else 0;
            Newest(b + samples, capacity) == b[if overflow < |b| then overflow else |b|..] + samples[start..]
  {
  }

  lemma {:induction false} NewestOfSuffix(p: seq<real>, b: seq<real>, s: seq<real>, capacity: nat)
    requires |b| <= |p| && b == p[|p| - |b|..]
    ensures var buf, all := Newest(b + s, capacity), p + s;
            |buf| <= |all| && buf == all[|all| - |buf|..]
  {
    assert b + s == (p + s)[|p| - |b|..];
  }

  // ------------------------------------------------------------------ whole runs

  datatype Op = Push(samples: seq<real>) | Pop(room: nat)

  datatype Ledger = Ledger(buf: seq<real>, pushed: seq<real>, delivered: seq<real>, dropped: nat)

  /// What the two methods promise, as a function of the ring's contents.
  function After(capacity: nat, l: Ledger, op: Op): Ledger
  {
    match op
    case Push(samples) =>
      var buf := Newest(l.buf + samples, capacity);
      Ledger(buf, l.pushed + samples, l.delivered, l.dropped + |l.buf + samples| - |buf|)
    case Pop(room) =>
      var n := if room < |l.buf| then room else |l.buf|;
      Ledger(l.buf[n..], l.pushed, l.delivered + l.buf[..n], l.dropped)
  }

  function Run(capacity: nat, ops: seq<Op>): Ledger
    decreases |ops|
  {
    if ops == [] then Ledger([], [], [], 0)
    else After(capacity, Run(capacity, ops[..|ops| - 1]), ops[|ops| - 1])
  }

  /// Over every run: the buffer is the newest part of everything pushed, and every sample pushed
  /// has been delivered, is counted as dropped, or is still buffered.
  lemma {:induction false} Conservation(capacity: nat, ops: seq<Op>)
    ensures var l := Run(capacity, ops);
            && |l.buf| <= capacity && |l.buf| <= |l.pushed|
            && l.buf == l.pushed[|l.pushed| - |l.buf|..]
            && |l.pushed| == |l.delivered| + l.dropped + |l.buf|
    decreases |ops|
  {
    if ops != [] {
      Conservation(capacity, ops[..|ops| - 1]);
      var l := Run(capacity, ops[..|ops| - 1]);
      if ops[|ops| - 1].Push? {
        NewestOfSuffix(l.pushed, l.buf, ops[|ops| - 1].samples, capacity);
      }
    }
  }

  /// After every operation, what has been pushed and not yet popped would fit.
  ghost predicate NeverFull(capacity: nat, ops: seq<Op>)
    decreases |ops|
  {
    ops == [] ||
    (NeverFull(capacity, ops[..|ops| - 1])
     && |Run(capacity, ops).pushed| - |Run(capacity, ops).delivered| <= capacity)
  }

  /// Nothing is dropped exactly when the consumer keeps up.
  lemma {:induction false} LosslessIffDrained(capacity: nat, ops: seq<Op>)
    ensures Run(capacity, ops).dropped == 0 <==> NeverFull(capacity, ops)
    decreases |ops|
  {
    Conservation(capacity, ops);
    if ops != [] {
      LosslessIffDrained(capacity, ops[..|ops| - 1]);
      Conservation(capacity, ops[..|ops| - 1]);
    }
  }

  /// Then everything pushed is delivered or still buffered, in order and without gaps.
  lemma {:induction false} LosslessMeansEverything(capacity: nat, ops: seq<Op>)
    requires Run(capacity, ops).dropped == 0
    ensures Run(capacity, ops).delivered + Run(capacity, ops).buf == Run(capacity, ops).pushed
    decreases |ops|
  {
    if ops != [] {
      var l := Run(capacity, ops[..|ops| - 1]);
      LosslessMeansEverything(capacity, ops[..|ops| - 1]);
      LosslessStep(capacity, l, ops[|ops| - 1]);
    }
  }

  lemma {:induction false} LosslessStep(capacity: nat, l: Ledger, op: Op)
    requires l.delivered + l.buf == l.pushed && After(capacity, l, op).dropped == 0
    ensures After(capacity, l, op).delivered + After(capacity, l, op).buf == After(capacity, l, op).pushed
  {
    match op
    case Push(samples) =>
      assert l.delivered + (l.buf + samples) == l.delivered + l.buf + samples;
    case Pop(room) =>
      var n := if room < |l.buf| then room else |l.buf|;
      assert l.delivered + l.buf[..n] + l.buf[n..] == l.delivered + l.buf;
  }
}
