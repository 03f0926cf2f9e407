// The resumable, verified model download (crates/asr/src/models.rs).
//
// One call is a machine whose steps are the single file-system operations, so that a crash can fall
// between any two of them. The hash is any function; the server is whatever its replies say.
// The three files of a model are its final file, `<id>.partial` and the `.verified` marker.

module ModelFetch {
  import opened Common

  type Bytes = seq<bv8>
  type Digest = string

  /// The hash, and the pinned digest of the model if it has one.
  datatype Setting = Setting(hash: Bytes -> Digest, pin: Option<Digest>)

  datatype Disk = Disk(final: Option<Bytes>, partial: Option<Bytes>, marker: bool)

  datatype Outcome = Ok | Mismatch | Http | Io

  /// `Body(resumed, bytes, cut)`: status 206 or 200, what arrives, and whether the connection then
  /// breaks instead of ending. `Refused` is no connection, or any error status.
  datatype Response = Refused | Body(resumed: bool, bytes: Bytes, cut: bool)

  datatype Proc =
    | Idle
    | Looking
    | Trusting(fetching: bool)
    | HashingFinal(fetching: bool)
    | DroppingFinal(fetching: bool)
    | StampingCached(fetching: bool)
    | Asking(existing: nat)
    | Receiving(body: Bytes, at: nat)
    | HashingPartial
    | DroppingPartial
    | Renaming
    | Stamping
    | Returned(outcome: Outcome, fetching: bool)

  datatype State = State(disk: Disk, proc: Proc)

  datatype Event =
    | CallFetch
    | CallVerify
    | Tick(works: bool)          // the next local operation, which may fail
    | Reply(response: Response)
    | Data(n: nat, kept: nat)    // n bytes are read, kept of them are written
    | End
    | Cut
    | Crash
    | Outside(after: Disk)       // somebody else changes the three files

  predicate Resting(p: Proc) { p.Idle? || p.Returned? }

  function Size(b: Option<Bytes>): nat { if b.Some? then |b.value| else 0 }

  predicate Matches(s: Setting, b: Option<Bytes>)
  {
    b.Some? && (s.pin.Some? ==> s.hash(b.value) == s.pin.value)
  }

  /// One operation on the local files.
  function Local(s: Setting, st: State, works: bool): State
  {
    var d := st.disk;
    match st.proc
    case Looking => State(d, if d.final.Some? then Trusting(true) else Asking(Size(d.partial)))
    case Trusting(f) => State(d, if s.pin.None? || d.marker then Returned(Ok, f) else HashingFinal(f))
    case HashingFinal(f) =>
      State(d, if !works || d.final.None? then Returned(Io, f)
               else if Matches(s, d.final) then StampingCached(f) else DroppingFinal(f))
    case DroppingFinal(f) => State(if works then d.(final := None) else d, Returned(Mismatch, f))
    case StampingCached(f) => State(if works then d.(marker := true) else d, Returned(Ok, f))
    case HashingPartial =>
      State(d, if !works || d.partial.None? then Returned(Io, true)
               else if Matches(s, d.partial) then Renaming else DroppingPartial)
    case DroppingPartial => State(if works then d.(partial := None) else d, Returned(Mismatch, true))
    case Renaming =>
      if works && d.partial.Some? then State(d.(final := d.partial, partial := None), Stamping)
      else State(d, Returned(Io, true))
    case Stamping => State(if works then d.(marker := true) else d, Returned(Ok, true))
    case _ => st
  }

  /// The reply decides whether the partial file is appended to or started afresh.
  function Answered(d: Disk, r: Response): State
  {
    if r.Refused? then State(d, Returned(Http, true))
    else if !r.resumed then State(d.(partial := Some([])), Receiving(r.bytes, 0))
    else if d.partial.None? then State(d, Returned(Io, true))
    else State(d, Receiving(r.bytes, 0))
  }

  /// A read of `n` bytes of the body, of which `kept` reach the partial file.
  function Written(st: State, n: nat, kept: nat): State
    requires st.proc.Receiving?
  {
    var at, body, d := st.proc.at, st.proc.body, st.disk;
    if !(0 < n && at + n <= |body| && kept <= n && d.partial.Some?) then st
    else
      State(d.(partial := Some(d.partial.value + body[at..at + kept])),
            if kept < n then Returned(Io, true) else Receiving(body, at + n))
  }

  /// Events that do not apply in a state leave it alone.
  function Step(s: Setting, st: State, e: Event): State
  {
    match e
    case CallFetch => if Resting(st.proc) then State(st.disk, Looking) else st
    case CallVerify => if Resting(st.proc) then State(st.disk, Trusting(false)) else st
    case Tick(works) => Local(s, st, works)
    case Reply(r) => if st.proc.Asking? then Answered(st.disk, r) else st
    case Data(n, kept) => if st.proc.Receiving? then Written(st, n, kept) else st
    case End =>
      if st.proc.Receiving? && st.proc.at == |st.proc.body| then State(st.disk, HashingPartial) else st
    case Cut => if st.proc.Receiving? then State(st.disk, Returned(Io, true)) else st
    case Crash => State(st.disk, Idle)
    case Outside(after) => State(after, st.proc)
  }

  function Run(s: Setting, st: State, events: seq<Event>): State
  {
    if events == [] then st
    else Step(s, Run(s, st, events[..|events| - 1]), events[|events| - 1])
  }

  lemma {:induction false} RunOne(s: Setting, st: State, events: seq<Event>, e: Event)
    ensures Run(s, st, events + [e]) == Step(s, Run(s, st, events), e)
  {
    assert (events + [e])[..|events|] == events;
  }

  lemma {:induction false} RunConcat(s: Setting, st: State, a: seq<Event>, b: seq<Event>)
    ensures Run(s, st, a + b) == Run(s, Run(s, st, a), b)
    decreases |b|
  {
    if b == [] {
      assert a + b == a;
    } else {
      var init, last := b[..|b| - 1], b[|b| - 1];
      assert a + b == (a + init) + [last];
      RunConcat(s, st, a, init);
      RunOne(s, st, a + init, last);
    }
  }

  // ---- An Ok means a verified file ---------------------------------------------------------------

  /// Between calls, anyone may change the files; but no marker may appear, and beside a marker that
  /// stays no other final file may.
  ghost predicate Polite(st: State, e: Event)
  {
    e.Outside? ==>
      && Resting(st.proc)
      && (e.after.marker ==> st.disk.marker && (e.after.final == st.disk.final || e.after.final.None?))
  }

  ghost predicate PoliteRun(s: Setting, st: State, events: seq<Event>)
  {
    events != [] ==>
      var init := events[..|events| - 1];
      PoliteRun(s, st, init) && Polite(Run(s, st, init), events[|events| - 1])
  }

  /// What every reachable state keeps: a marker beside a final file vouches for it, and each step of
  /// a call knows what the steps before it established.
  ghost predicate Trustworthy(s: Setting, st: State)
  {
    var d := st.disk;
    && (d.marker && d.final.Some? ==> Matches(s, d.final))
    && match st.proc
       case Trusting(f) => f ==> d.final.Some?
       case HashingFinal(f) => !d.marker
       case DroppingFinal(f) => !d.marker
       case StampingCached(f) => Matches(s, d.final)
       case Renaming => Matches(s, d.partial)
       case Stamping => Matches(s, d.final)
       case Returned(r, f) => true
       case _ => true
  }

  /// What the caller may conclude from the last step of a call.
  ghost predicate Delivered(s: Setting, d: Disk, fetching: bool)
  {
    Matches(s, d.final) || (!fetching && d.final.None? && d.marker)
  }

  lemma {:induction false} StepKeepsTrust(s: Setting, st: State, e: Event)
    requires s.pin.Some? && Trustworthy(s, st) && Polite(st, e)
    ensures Trustworthy(s, Step(s, st, e))
    ensures var after := Step(s, st, e);
            after.proc.Returned? && !st.proc.Returned? && after.proc.outcome.Ok?
            ==> Delivered(s, after.disk, after.proc.fetching)
  {
  }

  lemma {:induction false} Safety(s: Setting, d: Disk, events: seq<Event>)
    requires s.pin.Some? && !d.marker && PoliteRun(s, State(d, Idle), events)
    ensures Trustworthy(s, Run(s, State(d, Idle), events))
    decreases |events|
  {
    if events != [] {
      var init := events[..|events| - 1];
      Safety(s, d, init);
      StepKeepsTrust(s, Run(s, State(d, Idle), init), events[|events| - 1]);
    }
  }

  /// Over every run, with crashes anywhere and any server: a `fetch` that has just returned Ok left
  /// a final file that hashes to the pin. `verify_cached` promises the same of the file it was
  /// given, except that a marker without any file also passes.
  lemma {:induction false} OkMeansVerified(s: Setting, d: Disk, events: seq<Event>)
    requires s.pin.Some? && !d.marker && |events| > 0 && PoliteRun(s, State(d, Idle), events)
    requires !Run(s, State(d, Idle), events[..|events| - 1]).proc.Returned?
    ensures var st := Run(s, State(d, Idle), events);
            st.proc.Returned? && st.proc.outcome.Ok? ==>
              && (st.proc.fetching ==> Matches(s, st.disk.final))
              && (!st.proc.fetching && st.disk.final.Some? ==> Matches(s, st.disk.final))
              && (!st.proc.fetching && st.disk.final.None? ==> st.disk.marker)
  {
    var init := events[..|events| - 1];
    Safety(s, d, init);
    StepKeepsTrust(s, Run(s, State(d, Idle), init), events[|events| - 1]);
  }

  // ---- An honest server keeps the partial file a prefix -------------------------------------------

  /// RFC 7233, sections 3.1 and 4.1: the whole content, or for a range that starts inside it the
  /// rest; section 4.4: a range that starts at or past the end is refused.
  ghost predicate HonestReply(content: Bytes, existing: nat, r: Response)
  {
    r.Body? ==>
      if r.resumed then 0 < existing < |content| && r.bytes == content[existing..]
      else r.bytes == content
  }

  ghost predicate Honest(content: Bytes, st: State, e: Event)
  {
    && (e.Reply? && st.proc.Asking? ==> HonestReply(content, st.proc.existing, e.response))
    && (e.Outside? ==> Resting(st.proc) && (e.after.partial.Some? ==> e.after.partial.value <= content))
  }

  ghost predicate HonestRun(s: Setting, content: Bytes, st: State, events: seq<Event>)
  {
    events != [] ==>
      var init := events[..|events| - 1];
      HonestRun(s, content, st, init) && Honest(content, Run(s, st, init), events[|events| - 1])
  }

  /// Every byte on disk is right, whatever interrupted the download; and what is still to come
  /// completes it.
  ghost predicate OnCourse(s: Setting, content: Bytes, st: State)
  {
    var d := st.disk;
    && (d.partial.Some? ==> d.partial.value <= content)
    && (st.proc.Asking? ==> st.proc.existing == Size(d.partial))
    && (st.proc.Receiving? ==>
          && st.proc.at <= |st.proc.body| && d.partial.Some?
          && d.partial.value + st.proc.body[st.proc.at..] == content)
    && (st.proc.HashingPartial? || st.proc.DroppingPartial? || st.proc.Renaming? ==> d.partial == Some(content))
    && (st.proc.DroppingPartial? ==> !Matches(s, Some(content)))
  }

  lemma {:induction false} WriteKeepsCourse(s: Setting, content: Bytes, st: State, n: nat, kept: nat)
    requires st.proc.Receiving? && OnCourse(s, content, st)
    ensures OnCourse(s, content, Written(st, n, kept))
  {
    var at, body, d := st.proc.at, st.proc.body, st.disk;
    if 0 < n && at + n <= |body| && kept <= n {
      var was := d.partial.value;
      var piece := body[at..at + kept];
      assert body[at..] == piece + body[at + kept..];
      assert content == (was + piece) + body[at + kept..];
      assert was + piece <= content;
    }
  }

  lemma {:induction false} AnswerKeepsCourse(s: Setting, content: Bytes, st: State, r: Response)
    requires st.proc.Asking? && OnCourse(s, content, st) && HonestReply(content, st.proc.existing, r)
    ensures OnCourse(s, content, Answered(st.disk, r))
  {
    if r.Body? && !r.resumed {
      assert [] + r.bytes[0..] == content;
    } else if r.Body? && st.disk.partial.Some? {
      var was := st.disk.partial.value;
      assert was == content[..|was|];
      assert was + r.bytes[0..] == content;
    }
  }

  lemma {:induction false} StepKeepsCourse(s: Setting, content: Bytes, st: State, e: Event)
    requires OnCourse(s, content, st) && Honest(content, st, e)
    ensures OnCourse(s, content, Step(s, st, e))
  {
    match e {
      case Reply(r) => if st.proc.Asking? { AnswerKeepsCourse(s, content, st, r); }
      case Data(n, kept) => if st.proc.Receiving? { WriteKeepsCourse(s, content, st, n, kept); }
      case End =>
        if st.proc.Receiving? && st.proc.at == |st.proc.body| {
          assert st.disk.partial.value + [] == st.disk.partial.value;
        }
      case Tick(works) =>
      case _ =>
    }
  }

  lemma {:induction false} PartialIsAPrefix(s: Setting, content: Bytes, d: Disk, events: seq<Event>)
    requires d.partial.Some? ==> d.partial.value <= content
    requires HonestRun(s, content, State(d, Idle), events)
    ensures OnCourse(s, content, Run(s, State(d, Idle), events))
    decreases |events|
  {
    if events != [] {
      var init := events[..|events| - 1];
      PartialIsAPrefix(s, content, d, init);
      StepKeepsCourse(s, content, Run(s, State(d, Idle), init), events[|events| - 1]);
    }
  }

  // ---- The calls themselves -----------------------------------------------------------------------

  /// What `verify_cached` leaves behind and answers, when nothing interrupts it.
  function Verified(s: Setting, d: Disk, works: bool): (Disk, Outcome)
  {
    if s.pin.None? || d.marker then (d, Ok)
    else if d.final.None? then (d, Io)
    else if Matches(s, d.final) then (if works then d.(marker := true) else d, Ok)
    else (if works then d.(final := None) else d, Mismatch)
  }

  /// What the partial file holds once a reply's body has arrived; None if it could not be opened.
  function Arrived(d: Disk, r: Response): Option<Bytes>
    requires r.Body?
  {
    if !r.resumed then Some(r.bytes) else if d.partial.None? then None else Some(d.partial.value + r.bytes)
  }

  /// What a reply with a body leads to.
  function Taken(s: Setting, d: Disk, r: Response, works: bool): (Disk, Outcome)
    requires r.Body?
  {
    if Arrived(d, r).None? then (d, Io)
    else if r.cut then (d.(partial := Arrived(d, r)), Io)
    else if Matches(s, Arrived(d, r)) then (Disk(Arrived(d, r), None, works || d.marker), Ok)
    else (d.(partial := if works then None else Arrived(d, r)), Mismatch)
  }

  /// What a whole uninterrupted `fetch` leaves behind and answers.
  function Fetched(s: Setting, d: Disk, serve: nat -> Response, works: bool): (Disk, Outcome)
  {
    if d.final.Some? then Verified(s, d, works)
    else
      var r := serve(Size(d.partial));
      if r.Refused? then (d, Http) else Taken(s, d, r, works)
  }

  class Cache {
    var final: Option<Bytes>
    var partial: Option<Bytes>
    var marker: bool

    constructor (d: Disk)
      ensures Files() == d
    {
      final, partial, marker := d.final, d.partial, d.marker;
    }

    ghost function Files(): Disk
      reads this
    {
      Disk(final, partial, marker)
    }

    /// `works` is whether removing a file and writing the marker succeed; neither is required to.
    /// Ok is answered for an unpinned model, beside a marker, and for a file that hashes to the pin,
    /// which is then marked; a file that does not is removed.
    method VerifyCached(s: Setting, works: bool, ghost fetching: bool) returns (r: Outcome, ghost events: seq<Event>)
      modifies this
      ensures r == Ok <==> || s.pin.None? || old(marker)
                           || (old(final).Some? && s.hash(old(final).value) == s.pin.value)
      ensures r == Io <==> s.pin.Some? && !old(marker) && old(final).None?
      ensures r == Mismatch <==> && s.pin.Some? && !old(marker) && old(final).Some?
                                 && s.hash(old(final).value) != s.pin.value
      ensures partial == old(partial) && final == if r == Mismatch && works then None else old(final)
      ensures marker == (old(marker) || (works && r == Ok && s.pin.Some?))
      ensures (Files(), r) == Verified(s, old(Files()), works)
      ensures Run(s, State(old(Files()), Trusting(fetching)), events) == State(Files(), Returned(r, fetching))
    {
      ghost var start := State(Files(), Trusting(fetching));
      events := [Tick(true)];
      RunOne(s, start, [], Tick(true));
      assert [] + [Tick(true)] == events;
      if s.pin.None? || marker {
        return Ok, events;
      }
      RunOne(s, start, events, Tick(true));
      events := events + [Tick(true)];
      if final.None? {
        return Io, events;
      }
      RunOne(s, start, events, Tick(works));
      events := events + [Tick(works)];
      if s.hash(final.value) != s.pin.value {
        if works { final := None; }
        return Mismatch, events;
      }
      if works { marker := true; }
      r := Ok;
    }

    /// The read/write loop: the body in reads of at most 64 KiB, each appended to the partial file
    /// and reported as the number of bytes now there.
    method Receive(s: Setting, body: Bytes, chunk: nat -> nat, already: nat, ghost start: State, ghost before: seq<Event>)
        returns (progress: seq<nat>, ghost events: seq<Event>)
      requires partial.Some? && already == |partial.value|
      requires Run(s, start, before) == State(Files(), Receiving(body, 0))
      modifies this`partial
      ensures partial == Some(old(partial.value) + body)
      ensures Run(s, start, events) == State(Files(), Receiving(body, |body|))
      ensures progress == [] <==> body == []
      ensures Told(progress, already, |partial.value|)
    {
      events, progress := before, [];
      var at, done := 0, already;
      assert partial.value + body[..0] == partial.value;
      while at < |body|
        invariant at <= |body| && done == already + at
        invariant partial == Some(old(partial.value) + body[..at])
        invariant Run(s, start, events) == State(Files(), Receiving(body, at))
        invariant progress == [] <==> at == 0
        invariant Told(progress, already, done)
      {
        var n := Clamp(chunk(at), |body| - at);
        ReadStep(s, start, events, Files(), body, at, n);
        MoreRead(old(partial.value), body, at, n);
        partial := Some(partial.value + body[at..at + n]);
        events := events + [Data(n, n)];
        ToldMore(progress, already, done, n);
        at, done := at + n, done + n;
        progress := progress + [done];
      }
      assert body[..|body|] == body;
    }

    /// Hash, then rename and stamp, or remove.
    method Settle(s: Setting, works: bool, ghost start: State, ghost before: seq<Event>)
        returns (r: Outcome, ghost events: seq<Event>)
      requires partial.Some? && Run(s, start, before) == State(Files(), HashingPartial)
      modifies this
      ensures if Matches(s, old(partial))
              then Files() == Disk(old(partial), None, works || old(marker)) && r == Ok
              else Files() == old(Files()).(partial := if works then None else old(partial)) && r == Mismatch
      ensures Run(s, start, events) == State(Files(), Returned(r, true))
    {
      Settling(s, start, before, Files(), works);
      if s.pin.Some? && s.hash(partial.value) != s.pin.value {
        if works { partial := None; }
        return Mismatch, before + [Tick(true), Tick(works)];
      }
      final, partial := partial, None;
      if works { marker := true; }
      return Ok, before + [Tick(true), Tick(true), Tick(works)];
    }

    /// A reply with a body: the partial file is opened, filled, and settled.
    method Take(s: Setting, response: Response, existing: nat, chunk: nat -> nat, works: bool,
                ghost start: State, ghost before: seq<Event>)
        returns (r: Outcome, progress: seq<nat>, ghost events: seq<Event>)
      requires response.Body? && existing == Size(partial)
      requires Run(s, start, before) == Answered(Files(), response)
      modifies this
      ensures (Files(), r) == Taken(s, old(Files()), response, works)
      ensures Run(s, start, events) == State(Files(), Returned(r, true))
      ensures r == Ok && progress != [] ==> progress[|progress| - 1] == Size(final)
      ensures forall i, j :: 0 <= i < j < |progress| ==> progress[i] < progress[j]
    {
      if response.resumed {
        if partial.None? {
          return Io, [], before;
        }
      } else {
        partial := Some([]);
      }
      progress, events := Receive(s, response.bytes, chunk, if response.resumed then existing else 0, start, before);
      assert !response.resumed ==> [] + response.bytes == response.bytes;
      if response.cut {
        RunOne(s, start, events, Cut);
        return Io, progress, events + [Cut];
      }
      RunOne(s, start, events, End);
      events := events + [End];
      r, events := Settle(s, works, start, events);
    }

    /// `fetch`. With a final file it is `verify_cached`. Without one, Ok is answered exactly when the
    /// reply has a body that was not cut and could be written, and the bytes, after those there were if
    /// it resumes them, hash to the pin: then they are the final file. Each other outcome has its
    /// condition and its files. It is one of the machine's runs.
    method Fetch(s: Setting, serve: nat -> Response, chunk: nat -> nat, works: bool)
        returns (r: Outcome, progress: seq<nat>, ghost events: seq<Event>)
      modifies this
      ensures old(final).Some? ==>
                && (r == Ok <==> s.pin.None? || old(marker) || s.hash(old(final).value) == s.pin.value)
                && (r != Ok ==> r == Mismatch)
                && partial == old(partial) && final == (if r == Mismatch && works then None else old(final))
                && marker == (old(marker) || (works && r == Ok && s.pin.Some?)) && progress == []
      ensures old(final).None? ==>
                var reply := serve(if old(partial).Some? then |old(partial).value| else 0);
                if reply.Refused? then r == Http && final.None? && partial == old(partial) && marker == old(marker)
                else if reply.resumed && old(partial).None? then
                  r == Io && final.None? && partial.None? && marker == old(marker)
                else
                  var bytes := if reply.resumed then old(partial).value + reply.bytes else reply.bytes;
                  var right := s.pin.None? || s.hash(bytes) == s.pin.value;
                  && (r == Ok <==> !reply.cut && right) && (r == Io <==> reply.cut) && (r == Mismatch <==> !reply.cut && !right)
                  && final == (if r == Ok then Some(bytes) else None)
                  && partial == (if r == Ok || (r == Mismatch && works) then None else Some(bytes))
                  && marker == (old(marker) || (works && r == Ok))
      ensures (Files(), r) == Fetched(s, old(Files()), serve, works)
      ensures Run(s, State(old(Files()), Idle), events) == State(Files(), Returned(r, true))
      ensures r == Ok && progress != [] ==> progress[|progress| - 1] == Size(final)
      ensures forall i, j :: 0 <= i < j < |progress| ==> progress[i] < progress[j]
    {
      ghost var start := State(Files(), Idle);
      progress := [];
      ghost var looked := [CallFetch, Tick(true)];
      Opening(s, start);
      if final.Some? {
        r, events := VerifyCached(s, works, true);
        RunConcat(s, start, looked, events);
        return r, progress, looked + events;
      }
      var existing := if partial.Some? then |partial.value| else 0;
      var response := serve(existing);
      RunOne(s, start, looked, Reply(response));
      events := looked + [Reply(response)];
      if response.Refused? {
        return Http, progress, events;
      }
      r, progress, events := Take(s, response, existing, chunk, works, start, events);
    }
  }

  /// The numbers reported so far: they rise from the first to the last by at most 64 KiB at a time.
  ghost predicate Told(progress: seq<nat>, already: nat, done: nat)
  {
    && done == (if progress == [] then already else progress[|progress| - 1])
    && (forall i, j :: 0 <= i < j < |progress| ==> progress[i] < progress[j])
    && (forall i :: 0 <= i < |progress| ==> OneRead(progress, already, i))
  }

  ghost predicate OneRead(progress: seq<nat>, already: nat, i: nat)
    requires i < |progress|
  {
    var before := if i == 0 then already else progress[i - 1];
    before < progress[i] <= before + 65536
  }

  lemma {:induction false} ToldMore(progress: seq<nat>, already: nat, done: nat, n: nat)
    requires Told(progress, already, done) && 0 < n <= 65536
    ensures Told(progress + [done + n], already, done + n)
  {
    var more := progress + [done + n];
    forall i | 0 <= i < |more| ensures OneRead(more, already, i) {
      if i < |progress| { assert OneRead(progress, already, i); }
    }
  }

  lemma {:induction false} ReadStep(s: Setting, start: State, events: seq<Event>, d: Disk, body: Bytes, at: nat, n: nat)
    requires 0 < n && at + n <= |body| && d.partial.Some? && Run(s, start, events) == State(d, Receiving(body, at))
    ensures Run(s, start, events + [Data(n, n)])
            == State(d.(partial := Some(d.partial.value + body[at..at + n])), Receiving(body, at + n))
  {
    RunOne(s, start, events, Data(n, n));
  }

  lemma {:induction false} MoreRead(had: Bytes, body: Bytes, at: nat, n: nat)
    requires at + n <= |body|
    ensures had + body[..at] + body[at..at + n] == had + body[..at + n]
  {
    assert body[..at] + body[at..at + n] == body[..at + n];
  }

  /// The steps after the last byte.
  lemma {:induction false} Settling(s: Setting, start: State, before: seq<Event>, d: Disk, works: bool)
    requires d.partial.Some? && Run(s, start, before) == State(d, HashingPartial)
    ensures if Matches(s, d.partial)
            then Run(s, start, before + [Tick(true), Tick(true), Tick(works)])
                 == State(Disk(d.partial, None, works || d.marker), Returned(Ok, true))
            else Run(s, start, before + [Tick(true), Tick(works)])
                 == State(d.(partial := if works then None else d.partial), Returned(Mismatch, true))
  {
    var e := before;
    e := Then(s, start, e, State(d, HashingPartial), Tick(true));
    if Matches(s, d.partial) {
      e := Then(s, start, e, State(d, Renaming), Tick(true));
      e := Then(s, start, e, State(Disk(d.partial, None, d.marker), Stamping), Tick(works));
      assert e == before + [Tick(true), Tick(true), Tick(works)];
    } else {
      e := Then(s, start, e, State(d, DroppingPartial), Tick(works));
      assert e == before + [Tick(true), Tick(works)];
    }
  }

  /// One event more.
  lemma {:induction false} Then(s: Setting, start: State, before: seq<Event>, here: State, e: Event) returns (after: seq<Event>)
    requires Run(s, start, before) == here
    ensures after == before + [e] && Run(s, start, after) == Step(s, here, e)
  {
    RunOne(s, start, before, e);
    after := before + [e];
  }

  function Clamp(want: nat, left: nat): (n: nat)
    requires left > 0
    ensures 0 < n <= left && n <= 65536
  {
    var n := if want == 0 then 1 else if want > 65536 then 65536 else want;
    if n > left then left else n
  }

  lemma {:induction false} Opening(s: Setting, start: State)
    requires start.proc.Idle?
    ensures Run(s, start, [CallFetch, Tick(true)]) == Local(s, State(start.disk, Looking), true)
  {
    RunOne(s, start, [], CallFetch);
    RunOne(s, start, [CallFetch], Tick(true));
    assert [] + [CallFetch] == [CallFetch];
    assert [CallFetch] + [Tick(true)] == [CallFetch, Tick(true)];
  }

  // ---- When resuming works -------------------------------------------------------------------------

  /// A server that honours ranges.
  function RangeServer(content: Bytes): nat -> Response
  {
    (existing: nat) => Ranged(content, existing)
  }

  function Ranged(content: Bytes, existing: nat): Response
  {
    if existing == 0 then Body(false, content, false)
    else if existing < |content| then Body(true, content[existing..], false)
    else Refused
  }

  lemma {:induction false} RangeServerIsHonest(content: Bytes, existing: nat)
    ensures HonestReply(content, existing, RangeServer(content)(existing))
  {
  }

  /// Against a server that honours ranges and serves the pinned content, a fetch over a correct
  /// partial file succeeds exactly when that file is empty or not yet complete. When it succeeds
  /// the final file is the content and the partial file is gone.
  lemma {:induction false} ResumeSucceedsIff(s: Setting, content: Bytes, d: Disk, works: bool)
    requires d.final.None? && Matches(s, Some(content))
    requires d.partial.Some? ==> d.partial.value <= content
    ensures var (after, r) := Fetched(s, d, RangeServer(content), works);
            && (r == Ok <==> Size(d.partial) == 0 || Size(d.partial) < |content|)
            && (r == Ok ==> after.final == Some(content) && after.partial.None?)
            && (r != Ok ==> after == d && r == Http)
  {
    if 0 < Size(d.partial) < |content| {
      var was := d.partial.value;
      assert was == content[..|was|];
      assert was + content[|was|..] == content;
    }
  }

  /// The disk after so many fetches in a row.
  function Retried(s: Setting, d: Disk, serve: nat -> Response, works: bool, times: nat): Disk
  {
    if times == 0 then d else Fetched(s, Retried(s, d, serve, works, times - 1), serve, works).0
  }

  /// The crash that strikes after the last byte and before the rename.
  function CrashAtTheEnd(content: Bytes): seq<Event>
  {
    [CallFetch, Tick(true), Reply(Body(false, content, false)), Data(|content|, |content|), Crash]
  }

  lemma {:induction false} AfterTheCrash(s: Setting, content: Bytes)
    requires content != []
    ensures Run(s, State(Disk(None, None, false), Idle), CrashAtTheEnd(content))
            == State(Disk(None, Some(content), false), Idle)
  {
    var start := State(Disk(None, None, false), Idle);
    var reply, data := Reply(Body(false, content, false)), Data(|content|, |content|);
    var looked := [CallFetch, Tick(true)];
    Opening(s, start);
    RunOne(s, start, looked, reply);
    RunOne(s, start, looked + [reply], data);
    RunOne(s, start, looked + [reply] + [data], Crash);
    assert looked + [reply] + [data] + [Crash] == CrashAtTheEnd(content);
    assert [] + content[0..|content|] == content;
  }

  /// From such a crash no number of fetches recovers, although every byte of the model is on disk:
  /// a complete partial file is asked for a range past its end, and nothing removes it.
  lemma {:induction false} CompletePartialIsStuck(s: Setting, content: Bytes, works: bool, times: nat)
    requires content != [] && Matches(s, Some(content))
    ensures var crashed := Run(s, State(Disk(None, None, false), Idle), CrashAtTheEnd(content)).disk;
            && Retried(s, crashed, RangeServer(content), works, times) == crashed
            && Fetched(s, crashed, RangeServer(content), works).1 == Http
  {
    AfterTheCrash(s, content);
    var crashed := Disk(None, Some(content), false);
    ResumeSucceedsIff(s, content, crashed, works);
    if times > 0 {
      CompletePartialIsStuck(s, content, works, times - 1);
    }
  }

  // ---- What the promise does not survive -----------------------------------------------------------

  /// The marker does not say which pin it was written under, and an unpinned download writes it too:
  /// a model fetched before its hash was pinned is accepted under the pin without being hashed.
  lemma {:induction false} PinAddedLater(hash: Bytes -> Digest, pin: Digest, served: Bytes)
    requires hash(served) != pin
    ensures var serve := RangeServer(served);
            var (cached, first) := Fetched(Setting(hash, None), Disk(None, None, false), serve, true);
            var (after, second) := Fetched(Setting(hash, Some(pin)), cached, serve, true);
            first == Ok && second == Ok && after.final == Some(served)
            && !Matches(Setting(hash, Some(pin)), after.final)
  {
  }

  /// Exactly when `verify_cached` accepts a final file that does not hash to the pin: a marker says so.
  lemma {:induction false} WronglyAcceptedIff(s: Setting, d: Disk, works: bool)
    requires s.pin.Some? && d.final.Some? && !Matches(s, d.final)
    ensures Verified(s, d, works).1 == Ok <==> d.marker
    ensures Verified(s, d, works).1 != Ok && works ==> Verified(s, d, works).0.final.None?
  {
  }

  /// And exactly when it accepts no file at all.
  lemma {:induction false} MissingAcceptedIff(s: Setting, d: Disk, works: bool)
    requires s.pin.Some? && d.final.None?
    ensures Verified(s, d, works).1 == Ok <==> d.marker
    ensures Verified(s, d, works).1 != Ok ==> Verified(s, d, works) == (d, Io)
  {
  }

  function Downloading(content: Bytes): seq<Event>
  {
    [CallFetch, Tick(true), Reply(Body(false, content, false)), Data(|content|, |content|), End]
  }

  /// A way there: the model is fetched, its file is deleted and its marker left, and it is verified.
  function FetchedDeletedVerified(content: Bytes): seq<Event>
  {
    Downloading(content)
    + [Tick(true), Tick(true), Tick(true), Outside(Disk(None, None, true)), CallVerify, Tick(true)]
  }

  lemma {:induction false} Downloads(s: Setting, content: Bytes)
    requires content != []
    ensures var start := State(Disk(None, None, false), Idle);
            && PoliteRun(s, start, Downloading(content))
            && Run(s, start, Downloading(content)) == State(Disk(None, Some(content), false), HashingPartial)
  {
    var start := State(Disk(None, None, false), Idle);
    var reply, data := Reply(Body(false, content, false)), Data(|content|, |content|);
    assert [] + content[0..|content|] == content;
    var e := [];
    e := Went(s, start, e, start, CallFetch);
    e := Went(s, start, e, State(start.disk, Looking), Tick(true));
    e := Went(s, start, e, State(start.disk, Asking(0)), reply);
    e := Went(s, start, e, State(Disk(None, Some([]), false), Receiving(content, 0)), data);
    e := Went(s, start, e, State(Disk(None, Some(content), false), Receiving(content, |content|)), End);
    assert e == Downloading(content);
  }

  lemma {:induction false} MissingModelVerifies(s: Setting, content: Bytes)
    requires content != [] && s.pin.Some? && Matches(s, Some(content))
    ensures PoliteRun(s, State(Disk(None, None, false), Idle), FetchedDeletedVerified(content))
    ensures Run(s, State(Disk(None, None, false), Idle), FetchedDeletedVerified(content))
            == State(Disk(None, None, true), Returned(Ok, false))
  {
    var start := State(Disk(None, None, false), Idle);
    var gone := Outside(Disk(None, None, true));
    Downloads(s, content);
    var e := Downloading(content);
    e := Went(s, start, e, State(Disk(None, Some(content), false), HashingPartial), Tick(true));
    e := Went(s, start, e, State(Disk(None, Some(content), false), Renaming), Tick(true));
    e := Went(s, start, e, State(Disk(Some(content), None, false), Stamping), Tick(true));
    e := Went(s, start, e, State(Disk(Some(content), None, true), Returned(Ok, true)), gone);
    e := Went(s, start, e, State(Disk(None, None, true), Returned(Ok, true)), CallVerify);
    e := Went(s, start, e, State(Disk(None, None, true), Trusting(false)), Tick(true));
    assert e == FetchedDeletedVerified(content);
  }

  /// One polite event more.
  lemma {:induction false} Went(s: Setting, start: State, before: seq<Event>, here: State, e: Event) returns (after: seq<Event>)
    requires Run(s, start, before) == here && PoliteRun(s, start, before) && Polite(here, e)
    ensures after == before + [e] && Run(s, start, after) == Step(s, here, e) && PoliteRun(s, start, after)
  {
    RunOne(s, start, before, e);
    after := before + [e];
    assert after[..|after| - 1] == before;
  }

  // ---- Two processes on one directory --------------------------------------------------------------

  /// Where the file is now that a process has opened to write to: opening keeps hold of the file, and
  /// not of its name.
  datatype Place = AtPartial | AtFinal | Removed

  datatype Both = Both(disk: Disk, first: Proc, second: Proc, firstFile: Place := AtPartial, secondFile: Place := AtPartial)

  function Acting(st: Both, first: bool): Proc { if first then st.first else st.second }

  function Other(st: Both, first: bool): Proc { if first then st.second else st.first }

  function FileOf(st: Both, first: bool): Place { if first then st.firstFile else st.secondFile }

  /// An event of one process, whose open file is where `place` says.
  function StepAt(s: Setting, d: Disk, p: Proc, place: Place, e: Event): State
  {
    if !(p.Receiving? && e.Data?) || place.AtPartial? then Step(s, State(d, p), e)
    else
      var file := if place.AtFinal? then d.final else Some([]);
      var r := Written(State(d.(partial := file), p), e.n, e.kept);
      State(if place.AtFinal? then d.(final := r.disk.partial) else d, r.proc)
  }

  /// Where a file that is open at `place` is once the disk has become `after`.
  function Moved(place: Place, after: Disk, renamed: bool): Place
  {
    match place
    case AtPartial => if renamed then AtFinal else if after.partial.None? then Removed else AtPartial
    case AtFinal => if renamed || after.final.None? then Removed else AtFinal
    case Removed => Removed
  }

  /// An event of the first process or of the second.
  function StepOf(s: Setting, st: Both, first: bool, e: Event): Both
  {
    var p := Acting(st, first);
    var after := StepAt(s, st.disk, p, FileOf(st, first), e);
    var mine := if after.proc.Receiving? && !p.Receiving? then AtPartial else FileOf(st, first);
    var theirs :=
      if Other(st, first).Receiving? then Moved(FileOf(st, !first), after.disk, p.Renaming? && after.proc.Stamping?)
      else FileOf(st, !first);
    if first then Both(after.disk, after.proc, st.second, mine, theirs)
    else Both(after.disk, st.first, after.proc, theirs, mine)
  }

  function RunBoth(s: Setting, st: Both, events: seq<(bool, Event)>): Both
  {
    if events == [] then st
    else
      var (first, e) := events[|events| - 1];
      StepOf(s, RunBoth(s, st, events[..|events| - 1]), first, e)
  }

  lemma {:induction false} Also(s: Setting, start: Both, before: seq<(bool, Event)>, here: Both, first: bool, e: Event)
      returns (after: seq<(bool, Event)>)
    requires RunBoth(s, start, before) == here
    ensures after == before + [(first, e)] && RunBoth(s, start, after) == StepOf(s, here, first, e)
  {
    after := before + [(first, e)];
    assert after[..|after| - 1] == before;
  }

  /// Both ask, and the first downloads.
  function OneDownloads(content: Bytes): seq<(bool, Event)>
  {
    [(false, CallFetch), (false, Tick(true)), (true, CallFetch), (true, Tick(true)),
     (true, Reply(Body(false, content, false))), (true, Data(|content|, |content|))]
  }

  /// Then it hashes; the second, served at last, opens the partial file afresh; the first renames and
  /// stamps.
  function Interleaving(content: Bytes): seq<(bool, Event)>
  {
    OneDownloads(content)
    + [(true, End), (true, Tick(true)), (false, Reply(Body(false, content, false))), (true, Tick(true)), (true, Tick(true))]
  }

  lemma {:induction false} FirstHalf(s: Setting, content: Bytes)
    requires content != []
    ensures RunBoth(s, Both(Disk(None, None, false), Idle, Idle), OneDownloads(content))
            == Both(Disk(None, Some(content), false), Receiving(content, |content|), Asking(0))
  {
    var none, empty := Disk(None, None, false), Disk(None, Some([]), false);
    var start := Both(none, Idle, Idle);
    assert [] + content[0..|content|] == content;
    var e := [];
    e := Also(s, start, e, start, false, CallFetch);
    e := Also(s, start, e, Both(none, Idle, Looking), false, Tick(true));
    e := Also(s, start, e, Both(none, Idle, Asking(0)), true, CallFetch);
    e := Also(s, start, e, Both(none, Looking, Asking(0)), true, Tick(true));
    e := Also(s, start, e, Both(none, Asking(0), Asking(0)), true, Reply(Body(false, content, false)));
    e := Also(s, start, e, Both(empty, Receiving(content, 0), Asking(0)), true, Data(|content|, |content|));
    assert e == OneDownloads(content);
  }

  /// So two processes on an empty directory, with an honest server and no crash, can mark an empty
  /// file as verified.
  lemma {:induction false} TwoFetchersBreakIt(s: Setting, content: Bytes)
    requires content != [] && Matches(s, Some(content)) && !Matches(s, Some([]))
    ensures var st := RunBoth(s, Both(Disk(None, None, false), Idle, Idle), Interleaving(content));
            st.first == Returned(Ok, true) && st.disk.final == Some([]) && st.disk.marker
  {
    var empty, full := Disk(None, Some([]), false), Disk(None, Some(content), false);
    var start := Both(Disk(None, None, false), Idle, Idle);
    FirstHalf(s, content);
    var e := OneDownloads(content);
    e := Also(s, start, e, Both(full, Receiving(content, |content|), Asking(0)), true, End);
    e := Also(s, start, e, Both(full, HashingPartial, Asking(0)), true, Tick(true));
    e := Also(s, start, e, Both(full, Renaming, Asking(0)), false, Reply(Body(false, content, false)));
    e := Also(s, start, e, Both(empty, Renaming, Receiving(content, 0)), true, Tick(true));
    e := Also(s, start, e, Both(Disk(Some([]), None, false), Stamping, Receiving(content, 0), AtPartial, AtFinal), true, Tick(true));
    assert e == Interleaving(content);
  }

  /// Both resume the same partial file and have it open.
  function BothResume(content: Bytes, have: nat): seq<(bool, Event)>
    requires have <= |content|
  {
    [(false, CallFetch), (false, Tick(true)), (true, CallFetch), (true, Tick(true)),
     (false, Reply(Body(true, content[have..], false))), (true, Reply(Body(true, content[have..], false)))]
  }

  /// The first completes it, and is done; the second goes on writing.
  function WritingOn(content: Bytes, have: nat): seq<(bool, Event)>
    requires have <= |content|
  {
    var rest := Data(|content| - have, |content| - have);
    BothResume(content, have)
    + [(true, rest), (true, End), (true, Tick(true)), (true, Tick(true)), (true, Tick(true)), (false, rest)]
  }

  lemma {:induction false} Resuming(s: Setting, content: Bytes, have: nat)
    requires 0 < have < |content|
    ensures var (d, rest) := (Disk(None, Some(content[..have]), false), content[have..]);
            RunBoth(s, Both(d, Idle, Idle), BothResume(content, have)) == Both(d, Receiving(rest, 0), Receiving(rest, 0))
  {
    var (d, rest) := (Disk(None, Some(content[..have]), false), content[have..]);
    var start := Both(d, Idle, Idle);
    var e := [];
    e := Also(s, start, e, start, false, CallFetch);
    e := Also(s, start, e, Both(d, Idle, Looking), false, Tick(true));
    e := Also(s, start, e, Both(d, Idle, Asking(have)), true, CallFetch);
    e := Also(s, start, e, Both(d, Looking, Asking(have)), true, Tick(true));
    e := Also(s, start, e, Both(d, Asking(have), Asking(have)), false, Reply(Body(true, rest, false)));
    e := Also(s, start, e, Both(d, Asking(have), Receiving(rest, 0)), true, Reply(Body(true, rest, false)));
    assert e == BothResume(content, have);
  }

  /// The first has read all there is, and is about to hash it.
  lemma {:induction false} FirstIsComplete(s: Setting, content: Bytes, have: nat) returns (e: seq<(bool, Event)>)
    requires 0 < have < |content|
    ensures var rest := Data(|content| - have, |content| - have);
            e == BothResume(content, have) + [(true, rest)] + [(true, End)]
    ensures RunBoth(s, Both(Disk(None, Some(content[..have]), false), Idle, Idle), e)
            == Both(Disk(None, Some(content), false), HashingPartial, Receiving(content[have..], 0))
  {
    var (d, rest) := (Disk(None, Some(content[..have]), false), content[have..]);
    var (start, n) := (Both(d, Idle, Idle), |rest|);
    assert content[..have] + rest[0..n] == content && rest[0..n] == rest;
    Resuming(s, content, have);
    e := BothResume(content, have);
    e := Also(s, start, e, Both(d, Receiving(rest, 0), Receiving(rest, 0)), true, Data(n, n));
    e := Also(s, start, e, Both(Disk(None, Some(content), false), Receiving(rest, n), Receiving(rest, 0)), true, End);
  }

  /// Two processes that resume one partial file, with a server that honours ranges: the first verifies,
  /// renames and marks it, and the second appends to it under its new name.
  lemma {:induction false} TwoResumersBreakIt(s: Setting, content: Bytes, have: nat)
    requires 0 < have < |content| && Matches(s, Some(content)) && !Matches(s, Some(content + content[have..]))
    ensures HonestReply(content, have, Body(true, content[have..], false))
    ensures var st := RunBoth(s, Both(Disk(None, Some(content[..have]), false), Idle, Idle), WritingOn(content, have));
            st.first == Returned(Ok, true) && st.disk.marker && st.disk.final == Some(content + content[have..])
  {
    var (d, rest, done) := (Disk(None, Some(content[..have]), false), content[have..], Disk(Some(content), None, false));
    var (start, n) := (Both(d, Idle, Idle), |rest|);
    assert content[..have] + rest == content && rest[0..n] == rest;
    var e := FirstIsComplete(s, content, have);
    var full := Disk(None, Some(content), false);
    e := Also(s, start, e, Both(full, HashingPartial, Receiving(rest, 0)), true, Tick(true));
    e := Also(s, start, e, Both(full, Renaming, Receiving(rest, 0)), true, Tick(true));
    e := Also(s, start, e, Both(done, Stamping, Receiving(rest, 0), AtPartial, AtFinal), true, Tick(true));
    e := Also(s, start, e, Both(Disk(Some(content), None, true), Returned(Ok, true), Receiving(rest, 0), AtPartial, AtFinal),
              false, Data(n, n));
    assert e == WritingOn(content, have);
  }

  // ---- When two processes are safe -----------------------------------------------------------------

  ghost predicate Vouched(s: Setting, d: Disk) { d.marker && d.final.Some? ==> Matches(s, d.final) }

  /// What a process between its hash and its next operation takes for granted of the file it hashed.
  ghost predicate Knows(s: Setting, d: Disk, p: Proc)
  {
    && (p.Renaming? && d.partial.Some? ==> Matches(s, d.partial))
    && (p.Stamping? || p.StampingCached? ==> d.final.Some? ==> Matches(s, d.final))
  }

  ghost predicate Sound(s: Setting, st: Both)
  {
    Vouched(s, st.disk) && Knows(s, st.disk, st.first) && Knows(s, st.disk, st.second)
  }

  /// Nobody opens the partial file afresh or writes to it while the other process has hashed it and
  /// not yet renamed it, nor writes to it after that; and others change the files between calls only,
  /// and politely.
  ghost predicate Quiet(s: Setting, st: Both, first: bool, e: Event)
  {
    && (Other(st, first).Renaming? ==>
          var partial := StepOf(s, st, first, e).disk.partial; partial == st.disk.partial || partial.None?)
    && (Acting(st, first).Receiving? && e.Data? ==> !FileOf(st, first).AtFinal?)
    && Polite(State(st.disk, st.first), e) && Polite(State(st.disk, st.second), e)
  }

  ghost predicate QuietRun(s: Setting, st: Both, events: seq<(bool, Event)>)
  {
    events != [] ==>
      var init := events[..|events| - 1];
      var (first, e) := events[|events| - 1];
      QuietRun(s, st, init) && Quiet(s, RunBoth(s, st, init), first, e)
  }

  /// What one event of one process does to the files and to what it knows itself.
  lemma {:induction false} OwnStep(s: Setting, d: Disk, p: Proc, place: Place, e: Event)
    requires Vouched(s, d) && Knows(s, d, p) && Polite(State(d, p), e)
    requires p.Receiving? && e.Data? ==> !place.AtFinal?
    ensures var after := StepAt(s, d, p, place, e);
            && Vouched(s, after.disk) && Knows(s, after.disk, after.proc)
            && (!e.Outside? ==> after.disk.final == d.final || after.disk.final.None? || Matches(s, after.disk.final))
            && (after.proc.Returned? && !p.Returned? && after.proc.outcome.Ok? && s.pin.Some? && after.disk.final.Some?
                ==> Matches(s, after.disk.final))
  {
  }

  lemma {:induction false} QuietKeepsSound(s: Setting, st: Both, first: bool, e: Event)
    requires Sound(s, st) && Quiet(s, st, first, e)
    ensures Sound(s, StepOf(s, st, first, e))
  {
    OwnStep(s, st.disk, Acting(st, first), FileOf(st, first), e);
  }

  /// One event of one process keeps what both take for granted exactly when it leaves no partial file
  /// of another content to a process about to rename it, and writes no other content to a final file
  /// that is marked or about to be.
  lemma {:induction false} SoundStepIff(s: Setting, st: Both, first: bool, e: Event)
    requires Sound(s, st) && !e.Outside?
    ensures var after := StepOf(s, st, first, e);
            var writes := Acting(st, first).Receiving? && e.Data? && FileOf(st, first).AtFinal?;
            var trusted := st.disk.marker || Other(st, first).Stamping? || Other(st, first).StampingCached?;
            Sound(s, after)
            <==> && (Other(st, first).Renaming? && after.disk.partial.Some? ==> Matches(s, after.disk.partial))
                 && (writes && trusted && after.disk.final.Some? ==> Matches(s, after.disk.final))
  {
    var writes := Acting(st, first).Receiving? && e.Data? && FileOf(st, first).AtFinal?;
    if !writes { OwnStep(s, st.disk, Acting(st, first), FileOf(st, first), e); }
  }

  lemma {:induction false} QuietRunIsSound(s: Setting, st: Both, events: seq<(bool, Event)>)
    requires Sound(s, st) && QuietRun(s, st, events)
    ensures Sound(s, RunBoth(s, st, events))
    decreases |events|
  {
    if events != [] {
      var init := events[..|events| - 1];
      QuietRunIsSound(s, st, init);
      QuietKeepsSound(s, RunBoth(s, st, init), events[|events| - 1].0, events[|events| - 1].1);
    }
  }

  /// Two processes on one directory, in any interleaving, with crashes and any server: as long as
  /// neither opens or writes the partial file between the other's hash and its rename, a marker beside
  /// a final file vouches for it, and a call that has just returned Ok left no file that does not hash
  /// to the pin.
  lemma {:induction false} QuietRunIsSafe(s: Setting, d: Disk, events: seq<(bool, Event)>)
    requires s.pin.Some? && !d.marker && |events| > 0 && QuietRun(s, Both(d, Idle, Idle), events)
    ensures var start := Both(d, Idle, Idle);
            var (before, st) := (RunBoth(s, start, events[..|events| - 1]), RunBoth(s, start, events));
            var first := events[|events| - 1].0;
            var p := Acting(st, first);
            && Vouched(s, st.disk)
            && (p.Returned? && !Acting(before, first).Returned? && p.outcome.Ok? && st.disk.final.Some?
                ==> Matches(s, st.disk.final))
  {
    var start := Both(d, Idle, Idle);
    var init := events[..|events| - 1];
    var (first, e) := events[|events| - 1];
    QuietRunIsSound(s, start, init);
    QuietRunIsSound(s, start, events);
    var before := RunBoth(s, start, init);
    OwnStep(s, before.disk, Acting(before, first), FileOf(before, first), e);
  }

  /// The other direction, at the step: a process about to rename a file of another content marks it
  /// with its next two operations.
  lemma {:induction false} RenamesAndStamps(s: Setting, st: Both, first: bool)
    requires Acting(st, first).Renaming? && st.disk.partial.Some?
    ensures var after := RunBoth(s, st, [(first, Tick(true)), (first, Tick(true))]);
            && after.disk.marker && after.disk.final == st.disk.partial && Acting(after, first) == Returned(Ok, true)
            && QuietRun(s, st, [(first, Tick(true)), (first, Tick(true))])
  {
    var tick := (first, Tick(true));
    assert [tick, tick][..1] == [tick] && [tick][..0] == [];
    assert RunBoth(s, st, [tick]) == StepOf(s, st, first, Tick(true));
    assert QuietRun(s, st, [tick]);
  }

  lemma {:induction false} Stamps(s: Setting, st: Both, first: bool)
    requires Acting(st, first).Stamping? || Acting(st, first).StampingCached?
    ensures var after := RunBoth(s, st, [(first, Tick(true))]);
            after.disk.marker && after.disk.final == st.disk.final && QuietRun(s, st, [(first, Tick(true))])
  {
    assert [(first, Tick(true))][..0] == [];
  }

  /// Nothing weaker will do: a state is sound exactly when every quiet run from it keeps the marker
  /// truthful.
  lemma {:induction false} SoundIff(s: Setting, st: Both)
    ensures Sound(s, st) <==> forall events :: QuietRun(s, st, events) ==> Vouched(s, RunBoth(s, st, events).disk)
  {
    if Sound(s, st) {
      forall events | QuietRun(s, st, events) ensures Vouched(s, RunBoth(s, st, events).disk) {
        QuietRunIsSound(s, st, events);
      }
    } else if !Vouched(s, st.disk) {
      var none: seq<(bool, Event)> := [];
      assert RunBoth(s, st, none) == st;
      assert QuietRun(s, st, none) && !Vouched(s, RunBoth(s, st, none).disk);
    } else {
      var first := !Knows(s, st.disk, st.first);
      var tick := (first, Tick(true));
      if Acting(st, first).Renaming? {
        RenamesAndStamps(s, st, first);
        assert !Vouched(s, RunBoth(s, st, [tick, tick]).disk);
      } else {
        Stamps(s, st, first);
        assert !Vouched(s, RunBoth(s, st, [tick]).disk);
      }
    }
  }

  // ---- When the file is there as well --------------------------------------------------------------

  /// The process has looked at the final file and will answer without looking at it again.
  predicate Relies(p: Proc) { p.Stamping? || p.StampingCached? || p == Trusting(true) }

  /// Quiet, and nobody replaces or removes the final file while the other process relies on it.
  ghost predicate Calm(s: Setting, st: Both, first: bool, e: Event)
  {
    && Quiet(s, st, first, e)
    && (Relies(Other(st, first)) ==> StepOf(s, st, first, e).disk.final == st.disk.final)
  }

  ghost predicate CalmRun(s: Setting, st: Both, events: seq<(bool, Event)>)
  {
    events != [] ==>
      var init := events[..|events| - 1];
      var (first, e) := events[|events| - 1];
      CalmRun(s, st, init) && Calm(s, RunBoth(s, st, init), first, e)
  }

  ghost predicate KnowsAll(s: Setting, d: Disk, p: Proc)
  {
    && (p.Renaming? && d.partial.Some? ==> Matches(s, d.partial))
    && (p.Stamping? || p.StampingCached? ==> Matches(s, d.final))
    && (p == Trusting(true) ==> d.final.Some?)
  }

  ghost predicate Firm(s: Setting, st: Both)
  {
    Vouched(s, st.disk) && KnowsAll(s, st.disk, st.first) && KnowsAll(s, st.disk, st.second)
  }

  lemma {:induction false} OwnFirmStep(s: Setting, d: Disk, p: Proc, place: Place, e: Event)
    requires s.pin.Some? && Vouched(s, d) && KnowsAll(s, d, p) && Polite(State(d, p), e)
    requires p.Receiving? && e.Data? ==> !place.AtFinal?
    ensures var after := StepAt(s, d, p, place, e);
            && Vouched(s, after.disk) && KnowsAll(s, after.disk, after.proc)
            && (after.proc.Returned? && !p.Returned? && after.proc.outcome.Ok?
                ==> Delivered(s, after.disk, after.proc.fetching))
  {
  }

  lemma {:induction false} CalmKeepsFirm(s: Setting, st: Both, first: bool, e: Event)
    requires s.pin.Some? && Firm(s, st) && Calm(s, st, first, e)
    ensures Firm(s, StepOf(s, st, first, e))
  {
    OwnFirmStep(s, st.disk, Acting(st, first), FileOf(st, first), e);
  }

  lemma {:induction false} CalmRunIsFirm(s: Setting, st: Both, events: seq<(bool, Event)>)
    requires s.pin.Some? && Firm(s, st) && CalmRun(s, st, events)
    ensures Firm(s, RunBoth(s, st, events))
    decreases |events|
  {
    if events != [] {
      var init := events[..|events| - 1];
      CalmRunIsFirm(s, st, init);
      CalmKeepsFirm(s, RunBoth(s, st, init), events[|events| - 1].0, events[|events| - 1].1);
    }
  }

  /// The call that the last event of a run ends with an Ok has delivered what it promises.
  ghost predicate KeepsItsWord(s: Setting, start: Both, events: seq<(bool, Event)>)
    requires events != []
  {
    var (before, st) := (RunBoth(s, start, events[..|events| - 1]), RunBoth(s, start, events));
    var first := events[|events| - 1].0;
    var p := Acting(st, first);
    p.Returned? && !Acting(before, first).Returned? && p.outcome.Ok? ==> Delivered(s, st.disk, p.fetching)
  }

  /// Over every calm run of two processes an Ok means what it means for one.
  lemma {:induction false} CalmRunIsVerified(s: Setting, d: Disk, events: seq<(bool, Event)>)
    requires s.pin.Some? && !d.marker && events != [] && CalmRun(s, Both(d, Idle, Idle), events)
    ensures KeepsItsWord(s, Both(d, Idle, Idle), events)
  {
    var init := events[..|events| - 1];
    var (first, e) := events[|events| - 1];
    CalmRunIsFirm(s, Both(d, Idle, Idle), init);
    var before := RunBoth(s, Both(d, Idle, Idle), init);
    OwnFirmStep(s, before.disk, Acting(before, first), FileOf(before, first), e);
  }

  /// One quiet event more.
  lemma {:induction false} Quietly(s: Setting, start: Both, before: seq<(bool, Event)>, here: Both, first: bool, e: Event)
      returns (after: seq<(bool, Event)>)
    requires RunBoth(s, start, before) == here && QuietRun(s, start, before) && Quiet(s, here, first, e)
    ensures after == before + [(first, e)]
    ensures RunBoth(s, start, after) == StepOf(s, here, first, e) && QuietRun(s, start, after)
  {
    after := before + [(first, e)];
    assert after[..|after| - 1] == before;
  }

  /// The second finds a final file of another content and hashes it.
  function OneRejects(): seq<(bool, Event)>
  {
    [(false, CallFetch), (false, Tick(true)), (false, Tick(true)), (false, Tick(true))]
  }

  /// The first hashes it too, and removes it.
  function BothReject(): seq<(bool, Event)>
  {
    OneRejects() + [(true, CallFetch), (true, Tick(true)), (true, Tick(true)), (true, Tick(true)), (true, Tick(true))]
  }

  /// The first fetches the model anew.
  function FetchedAnew(content: Bytes): seq<(bool, Event)>
  {
    BothReject()
    + [(true, CallFetch), (true, Tick(true)), (true, Reply(Body(false, content, false))), (true, Data(|content|, |content|))]
  }

  /// It hashes and renames it; the second removes what it has not hashed; the first stamps.
  function StaleVerdict(content: Bytes): seq<(bool, Event)>
  {
    FetchedAnew(content)
    + [(true, End), (true, Tick(true)), (true, Tick(true)), (false, Tick(true)), (true, Tick(true))]
  }

  lemma {:induction false} RejectingOnce(s: Setting, bad: Bytes)
    requires s.pin.Some? && !Matches(s, Some(bad))
    ensures var start := Both(Disk(Some(bad), None, false), Idle, Idle);
            QuietRun(s, start, OneRejects()) && RunBoth(s, start, OneRejects()) == Both(start.disk, Idle, DroppingFinal(true))
  {
    var found := Disk(Some(bad), None, false);
    var start := Both(found, Idle, Idle);
    var e := [];
    e := Quietly(s, start, e, start, false, CallFetch);
    e := Quietly(s, start, e, Both(found, Idle, Looking), false, Tick(true));
    e := Quietly(s, start, e, Both(found, Idle, Trusting(true)), false, Tick(true));
    e := Quietly(s, start, e, Both(found, Idle, HashingFinal(true)), false, Tick(true));
    assert e == OneRejects();
  }

  lemma {:induction false} Rejecting(s: Setting, bad: Bytes)
    requires s.pin.Some? && !Matches(s, Some(bad))
    ensures var start := Both(Disk(Some(bad), None, false), Idle, Idle);
            && QuietRun(s, start, BothReject())
            && RunBoth(s, start, BothReject())
               == Both(Disk(None, None, false), Returned(Mismatch, true), DroppingFinal(true))
  {
    var found, q := Disk(Some(bad), None, false), DroppingFinal(true);
    var start := Both(found, Idle, Idle);
    RejectingOnce(s, bad);
    var e := OneRejects();
    e := Quietly(s, start, e, Both(found, Idle, q), true, CallFetch);
    e := Quietly(s, start, e, Both(found, Looking, q), true, Tick(true));
    e := Quietly(s, start, e, Both(found, Trusting(true), q), true, Tick(true));
    e := Quietly(s, start, e, Both(found, HashingFinal(true), q), true, Tick(true));
    e := Quietly(s, start, e, Both(found, DroppingFinal(true), q), true, Tick(true));
    assert e == BothReject();
  }

  lemma {:induction false} FetchesAnew(s: Setting, bad: Bytes, content: Bytes)
    requires s.pin.Some? && content != [] && !Matches(s, Some(bad))
    ensures var start := Both(Disk(Some(bad), None, false), Idle, Idle);
            && QuietRun(s, start, FetchedAnew(content))
            && RunBoth(s, start, FetchedAnew(content))
               == Both(Disk(None, Some(content), false), Receiving(content, |content|), DroppingFinal(true))
  {
    var start := Both(Disk(Some(bad), None, false), Idle, Idle);
    var none, q := Disk(None, None, false), DroppingFinal(true);
    assert [] + content[0..|content|] == content;
    Rejecting(s, bad);
    var e := BothReject();
    e := Quietly(s, start, e, Both(none, Returned(Mismatch, true), q), true, CallFetch);
    e := Quietly(s, start, e, Both(none, Looking, q), true, Tick(true));
    e := Quietly(s, start, e, Both(none, Asking(0), q), true, Reply(Body(false, content, false)));
    e := Quietly(s, start, e, Both(Disk(None, Some([]), false), Receiving(content, 0), q), true, Data(|content|, |content|));
    assert e == FetchedAnew(content);
  }

  /// A quiet run that is not calm: the verdict on an old file removes the new one, and `fetch` answers
  /// Ok for a model that is not there.
  lemma {:induction false} StaleVerdictRemovesIt(s: Setting, bad: Bytes, content: Bytes)
    requires s.pin.Some? && content != [] && Matches(s, Some(content)) && !Matches(s, Some(bad))
    ensures var start := Both(Disk(Some(bad), None, false), Idle, Idle);
            && QuietRun(s, start, StaleVerdict(content))
            && RunBoth(s, start, StaleVerdict(content))
               == Both(Disk(None, None, true), Returned(Ok, true), Returned(Mismatch, true))
  {
    var start := Both(Disk(Some(bad), None, false), Idle, Idle);
    var full, q := Disk(None, Some(content), false), DroppingFinal(true);
    FetchesAnew(s, bad, content);
    var e := FetchedAnew(content);
    e := Quietly(s, start, e, Both(full, Receiving(content, |content|), q), true, End);
    e := Quietly(s, start, e, Both(full, HashingPartial, q), true, Tick(true));
    e := Quietly(s, start, e, Both(full, Renaming, q), true, Tick(true));
    e := Quietly(s, start, e, Both(Disk(Some(content), None, false), Stamping, q), false, Tick(true));
    e := Quietly(s, start, e, Both(Disk(None, None, false), Stamping, Returned(Mismatch, true)), true, Tick(true));
    assert e == StaleVerdict(content);
  }

  /// Calls that do not overlap: whenever one process does something, the other is between calls.
  ghost predicate OneAtATime(s: Setting, st: Both, events: seq<(bool, Event)>)
  {
    events != [] ==>
      var init := events[..|events| - 1];
      var (first, e) := events[|events| - 1];
      var before := RunBoth(s, st, init);
      OneAtATime(s, st, init) && Resting(Other(before, first)) && Polite(State(before.disk, Acting(before, first)), e)
  }

  /// What a process writes to is then always the partial file.
  predicate Holding(st: Both)
  {
    (st.first.Receiving? ==> st.firstFile.AtPartial? && Resting(st.second))
    && (st.second.Receiving? ==> st.secondFile.AtPartial? && Resting(st.first))
  }

  lemma {:induction false} OneAtATimeHolds(s: Setting, d: Disk, events: seq<(bool, Event)>)
    requires OneAtATime(s, Both(d, Idle, Idle), events)
    ensures Holding(RunBoth(s, Both(d, Idle, Idle), events))
    decreases |events|
  {
    if events != [] { OneAtATimeHolds(s, d, events[..|events| - 1]); }
  }

  lemma {:induction false} OneAtATimeIsCalm(s: Setting, d: Disk, events: seq<(bool, Event)>)
    requires OneAtATime(s, Both(d, Idle, Idle), events)
    ensures CalmRun(s, Both(d, Idle, Idle), events)
    decreases |events|
  {
    if events != [] {
      OneAtATimeIsCalm(s, d, events[..|events| - 1]);
      OneAtATimeHolds(s, d, events[..|events| - 1]);
    }
  }

  /// So an Ok of either means a verified file.
  lemma {:induction false} OneAtATimeIsVerified(s: Setting, d: Disk, events: seq<(bool, Event)>)
    requires s.pin.Some? && !d.marker && events != [] && OneAtATime(s, Both(d, Idle, Idle), events)
    ensures KeepsItsWord(s, Both(d, Idle, Idle), events)
  {
    OneAtATimeIsCalm(s, d, events);
    CalmRunIsVerified(s, d, events);
  }
}
