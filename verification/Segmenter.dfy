// The speech segmenter (crates/audio/src/segment.rs): per-frame speech decisions in, utterances out.
//
// `SpeechSegmenter` is the object the source has, updated frame by frame. `Step` is what one frame
// does to its state. The main theorem says that a whole run emits exactly the events of a
// declarative segmentation of the frame stream, which mentions no counters and no buffers.

module Segmenter {
  import opened Common

  // 30 ms at 16 kHz
  const SAMPLE_RATE: nat := 16000
  const FRAME_SAMPLES: nat := 480

  type Samples = seq<real>

  /// The detector's internal state, of which nothing is known.
  type Vad(!new)

  datatype SpeechEvent =
    | SpeechStart(audio: Samples)
    | Partial(audio: Samples)
    | SpeechEnd(audio: Samples, durationSecs: real)

  datatype State = Silence(run: nat) | Speech(silenceRun: nat)

  /// The tunables together with the detector, an arbitrary state machine.
  datatype Setup = Setup(
    speechThreshold: real, minSpeechFrames: nat, hangoverFrames: nat, preRollFrames: nat,
    probe: (Vad, Samples) -> (Vad, real), reset: Vad -> Vad)

  /// Everything the segmenter remembers between frames, apart from the tail of a partial frame.
  datatype Memory = Memory(vad: Vad, state: State, pending: Samples, utterance: Samples)

  datatype Outcome = Outcome(memory: Memory, events: seq<SpeechEvent>)

  // ------------------------------------------------------------------ one frame

  function MaxPending(c: Setup): nat
  {
    (c.preRollFrames + c.minSpeechFrames) * FRAME_SAMPLES
  }

  function LastSamples(s: Samples, most: nat): (r: Samples)
    ensures |r| <= most
  {
    if |s| > most then s[|s| - most..] else s
  }

  function EndEvent(audio: Samples): SpeechEvent
  {
    SpeechEnd(audio, |audio| as real / SAMPLE_RATE as real)
  }

  function AfterEnd(c: Setup, vad: Vad): Memory
  {
    Memory(c.reset(vad), Silence(0), [], [])
  }

  function Step(c: Setup, m: Memory, frame: Samples): Outcome
  {
    var (vad, probability) := c.probe(m.vad, frame);
    var isSpeech := probability >= c.speechThreshold;
    match m.state
    case Silence(run) =>
      var pending := LastSamples(m.pending + frame, MaxPending(c));
      if !isSpeech then Outcome(Memory(vad, Silence(0), pending, m.utterance), [])
      else if run + 1 >= c.minSpeechFrames then
        Outcome(Memory(vad, Speech(0), [], pending), [SpeechStart(pending)])
      else Outcome(Memory(vad, Silence(run + 1), pending, m.utterance), [])
    case Speech(silenceRun) =>
      var utterance := m.utterance + frame;
      if isSpeech then Outcome(Memory(vad, Speech(0), m.pending, utterance), [Partial(frame)])
      else if silenceRun + 1 >= c.hangoverFrames then
        Outcome(AfterEnd(c, vad), [Partial(frame), EndEvent(utterance)])
      else Outcome(Memory(vad, Speech(silenceRun + 1), m.pending, utterance), [Partial(frame)])
  }

  function Joined(first: Outcome, second: Outcome): Outcome
  {
    Outcome(second.memory, first.events + second.events)
  }

  /// One frame after another.
  function Run(c: Setup, m: Memory, frames: seq<Samples>): Outcome
    decreases |frames|
  {
    if frames == [] then Outcome(m, [])
    else
      var before := Run(c, m, frames[..|frames| - 1]);
      Joined(before, Step(c, before.memory, frames[|frames| - 1]))
  }

  lemma {:induction false} RunAppend(c: Setup, m: Memory, frames: seq<Samples>, frame: Samples)
    ensures Run(c, m, frames + [frame]) == Joined(Run(c, m, frames), Step(c, Run(c, m, frames).memory, frame))
  {
    assert (frames + [frame])[..|frames|] == frames;
  }

  // ------------------------------------------------------------------ the object

  class SpeechSegmenter {
    const config: Setup
    var vad: Vad
    var state: State
    var pending: Samples
    var utterance: Samples
    var tail: Samples

    constructor (vad: Vad, config: Setup)
      ensures this.config == config
      ensures Remembered() == Fresh(vad) && tail == []
    {
      this.config := config;
      this.vad := vad;
      state, pending, utterance, tail := Silence(0), [], [], [];
    }

    function Remembered(): Memory
      reads this
    {
      Memory(vad, state, pending, utterance)
    }

    method Push(samples: Samples) returns (events: seq<SpeechEvent>)
      modifies this
      ensures events == PushSpec(config, old(Remembered()), old(tail), samples).outcome.events
      ensures Remembered() == PushSpec(config, old(Remembered()), old(tail), samples).outcome.memory
      ensures tail == PushSpec(config, old(Remembered()), old(tail), samples).tail
    {
      events := [];
      tail := tail + samples;
      ghost var all := tail;
      var fullFrames := |tail| / FRAME_SAMPLES;
      var take := fullFrames * FRAME_SAMPLES;
      var prefix := tail[..take];
      tail := tail[take..];
      var i := 0;
      while i < fullFrames
        invariant 0 <= i <= fullFrames
        invariant tail == all[take..] && prefix == all[..take] && |Frames(all)| == fullFrames
        invariant Run(config, old(Remembered()), Frames(all)[..i]) == Outcome(Remembered(), events)
      {
        FrameOfPrefix(all, i);
        var more := StepFrame(prefix[i * FRAME_SAMPLES..(i + 1) * FRAME_SAMPLES]);
        RunAppend(config, old(Remembered()), Frames(all)[..i], Frames(all)[i]);
        assert Frames(all)[..i + 1] == Frames(all)[..i] + [Frames(all)[i]];
        events := events + more;
        i := i + 1;
      }
      assert Frames(all)[..i] == Frames(all);
    }

    method Flush() returns (event: Option<SpeechEvent>)
      modifies this
      ensures old(state).Silence? ==> event == None && Remembered() == old(Remembered())
      ensures old(state).Speech? ==> event == Some(EndEvent(old(utterance))) && Remembered() == AfterEnd(config, old(vad))
      ensures tail == old(tail)
    {
      if state.Silence? {
        return None;
      }
      var e := EndUtterance();
      return Some(e);
    }

    method StepFrame(frame: Samples) returns (events: seq<SpeechEvent>)
      modifies this
      ensures Outcome(Remembered(), events) == Step(config, old(Remembered()), frame)
      ensures tail == old(tail)
    {
      events := [];
      var (v, probability) := config.probe(vad, frame);
      vad := v;
      var isSpeech := probability >= config.speechThreshold;
      match state
      case Silence(run) =>
        pending := pending + frame;
        var maxPending := (config.preRollFrames + config.minSpeechFrames) * FRAME_SAMPLES;
        if |pending| > maxPending {
          var excess := |pending| - maxPending;
          pending := pending[excess..];
        }
        if isSpeech {
          if run + 1 >= config.minSpeechFrames {
            utterance, pending := pending, [];
            events := [SpeechStart(utterance)];
            state := Speech(0);
          } else {
            state := Silence(run + 1);
          }
        } else {
          state := Silence(0);
        }
      case Speech(silenceRun) =>
        utterance := utterance + frame;
        events := [Partial(frame)];
        if isSpeech {
          state := Speech(0);
        } else if silenceRun + 1 >= config.hangoverFrames {
          var e := EndUtterance();
          events := events + [e];
        } else {
          state := Speech(silenceRun + 1);
        }
    }

    method EndUtterance() returns (event: SpeechEvent)
      modifies this
      ensures event == EndEvent(old(utterance)) && Remembered() == AfterEnd(config, old(vad))
      ensures tail == old(tail)
    {
      vad := config.reset(vad);
      state := Silence(0);
      pending := [];
      var audio := utterance;
      utterance := [];
      return SpeechEnd(audio, |audio| as real / SAMPLE_RATE as real);
    }
  }

  function Fresh(vad: Vad): Memory
  {
    Memory(vad, Silence(0), [], [])
  }

  // -------------------------------------------------------------------- chunking

  /// The whole frames at the front of a sample stream.
  function Frames(s: Samples): (r: seq<Samples>)
    ensures |r| == |s| / FRAME_SAMPLES
    ensures forall i :: 0 <= i < |r| ==> |r[i]| == FRAME_SAMPLES
  {
    seq(|s| / FRAME_SAMPLES, i requires 0 <= i < |s| / FRAME_SAMPLES => s[i * FRAME_SAMPLES..(i + 1) * FRAME_SAMPLES])
  }

  lemma {:induction false} FrameOfPrefix(s: Samples, i: nat)
    requires i < |s| / FRAME_SAMPLES
    ensures (i + 1) * FRAME_SAMPLES <= |s| / FRAME_SAMPLES * FRAME_SAMPLES <= |s|
    ensures s[..|s| / FRAME_SAMPLES * FRAME_SAMPLES][i * FRAME_SAMPLES..(i + 1) * FRAME_SAMPLES] == Frames(s)[i]
  {
    var take, lo, hi := |s| / FRAME_SAMPLES * FRAME_SAMPLES, i * FRAME_SAMPLES, (i + 1) * FRAME_SAMPLES;
    assert lo <= hi <= take;
    assert s[..take][lo..hi] == s[lo..hi];
  }

  function Rest(s: Samples): (r: Samples)
    ensures |r| < FRAME_SAMPLES
  {
    s[|s| / FRAME_SAMPLES * FRAME_SAMPLES..]
  }

  /// Cutting loses nothing and moves nothing.
  lemma {:induction false} FramesPartition(s: Samples)
    ensures Flatten(Frames(s)) + Rest(s) == s
  {
    var n := |s| / FRAME_SAMPLES;
    FramesTo(s, n);
    assert Frames(s)[..n] == Frames(s);
    assert s[..n * FRAME_SAMPLES] + s[n * FRAME_SAMPLES..] == s;
  }

  lemma {:induction false} FramesTo(s: Samples, k: nat)
    requires k <= |Frames(s)|
    ensures k * FRAME_SAMPLES <= |s| && Flatten(Frames(s)[..k]) == s[..k * FRAME_SAMPLES]
  {
    if k > 0 {
      var f := Frames(s)[..k];
      FramesTo(s, k - 1);
      assert f[..k - 1] == Frames(s)[..k - 1];
      FrameAt(s, k - 1);
    }
  }

  lemma {:induction false} FrameAt(s: Samples, i: nat)
    requires i < |Frames(s)|
    ensures var (from, end) := (i * FRAME_SAMPLES, (i + 1) * FRAME_SAMPLES);
            end <= |s| && s[..from] + Frames(s)[i] == s[..end]
  {
    var (from, end) := (i * FRAME_SAMPLES, (i + 1) * FRAME_SAMPLES);
    assert s[..from] + s[from..end] == s[..end];
  }

  datatype Pushed = Pushed(outcome: Outcome, tail: Samples)

  function PushSpec(c: Setup, m: Memory, tail: Samples, samples: Samples): Pushed
  {
    var all := tail + samples;
    Pushed(Run(c, m, Frames(all)), Rest(all))
  }

  /// Pushing chunk after chunk, collecting the events.
  function PushAll(c: Setup, m: Memory, tail: Samples, chunks: seq<Samples>): Pushed
    decreases |chunks|
  {
    if chunks == [] then Pushed(Outcome(m, []), tail)
    else
      var before := PushAll(c, m, tail, chunks[..|chunks| - 1]);
      var last := PushSpec(c, before.outcome.memory, before.tail, chunks[|chunks| - 1]);
      Pushed(Joined(before.outcome, last.outcome), last.tail)
  }

  lemma {:induction false} RunConcat(c: Setup, m: Memory, f: seq<Samples>, g: seq<Samples>)
    ensures Run(c, m, f + g) == Joined(Run(c, m, f), Run(c, Run(c, m, f).memory, g))
    decreases |g|
  {
    var first := Run(c, m, f);
    if g == [] {
      assert f + g == f && first.events + [] == first.events;
    } else {
      var init, last := g[..|g| - 1], g[|g| - 1];
      assert f + g == (f + init) + [last];
      RunConcat(c, m, f, init);
      RunAppend(c, m, f + init, last);
      var second := Run(c, first.memory, init);
      JoinedAssoc(first, second, Step(c, second.memory, last));
    }
  }

  lemma {:induction false} JoinedAssoc(a: Outcome, b: Outcome, d: Outcome)
    ensures Joined(Joined(a, b), d) == Joined(a, Joined(b, d))
  {
    assert a.events + b.events + d.events == a.events + (b.events + d.events);
  }

  /// Cutting into frames commutes with handing over the tail.
  lemma {:induction false} FramesConcat(s: Samples, t: Samples)
    ensures Frames(s + t) == Frames(s) + Frames(Rest(s) + t)
    ensures Rest(s + t) == Rest(Rest(s) + t)
  {
    var n := |s| / FRAME_SAMPLES;
    var u := Rest(s) + t;
    assert u == (s + t)[n * FRAME_SAMPLES..];
    assert |s + t| / FRAME_SAMPLES == n + |u| / FRAME_SAMPLES;
    forall i | 0 <= i < n
      ensures Frames(s)[i] == Frames(s + t)[i]
    {
      assert (i + 1) * FRAME_SAMPLES <= n * FRAME_SAMPLES <= |s|;
    }
    forall i | 0 <= i < |Frames(u)|
      ensures Frames(u)[i] == Frames(s + t)[n + i]
    {
      LaterFrame(s + t, u, n, i);
    }
  }

  lemma {:induction false} LaterFrame(all: Samples, u: Samples, n: nat, i: nat)
    requires n * FRAME_SAMPLES <= |all| && u == all[n * FRAME_SAMPLES..]
    requires i < |Frames(u)| && n + i < |Frames(all)|
    ensures Frames(u)[i] == Frames(all)[n + i]
  {
    var skipped, from, end := n * FRAME_SAMPLES, i * FRAME_SAMPLES, (i + 1) * FRAME_SAMPLES;
    assert (n + i) * FRAME_SAMPLES == skipped + from;
    assert (n + i + 1) * FRAME_SAMPLES == skipped + end;
    SliceOfDrop(all, skipped, from, end);
  }

  lemma {:induction false} SliceOfDrop(all: Samples, skipped: nat, from: nat, end: nat)
    requires from <= end && skipped + end <= |all|
    ensures all[skipped..][from..end] == all[skipped + from..skipped + end]
  {
  }

  lemma {:induction false} PushOf(c: Setup, m: Memory, tail: Samples, samples: Samples, all: Samples)
    requires all == tail + samples
    ensures PushSpec(c, m, tail, samples) == Pushed(Run(c, m, Frames(all)), Rest(all))
  {
  }

  lemma {:induction false} PushTwice(c: Setup, m: Memory, tail: Samples, a: Samples, b: Samples)
    ensures var first := PushSpec(c, m, tail, a);
            var second := PushSpec(c, first.outcome.memory, first.tail, b);
            PushSpec(c, m, tail, a + b) == Pushed(Joined(first.outcome, second.outcome), second.tail)
  {
    var s := tail + a;
    var u := Rest(s) + b;
    var first := Run(c, m, Frames(s));
    assert tail + (a + b) == s + b;
    PushOf(c, m, tail, a + b, s + b);
    PushOf(c, m, tail, a, s);
    PushOf(c, first.memory, Rest(s), b, u);
    FramesConcat(s, b);
    RunConcat(c, m, Frames(s), Frames(u));
  }

  /// However a stream is cut into chunks, the events and the final state are those of one push.
  lemma {:induction false} ChunkingIsInvisible(c: Setup, m: Memory, tail: Samples, chunks: seq<Samples>)
    requires |tail| < FRAME_SAMPLES
    ensures PushAll(c, m, tail, chunks) == PushSpec(c, m, tail, Flatten(chunks))
    decreases |chunks|
  {
    if chunks == [] {
      assert tail + [] == tail;
    } else {
      ChunkingIsInvisible(c, m, tail, chunks[..|chunks| - 1]);
      PushTwice(c, m, tail, Flatten(chunks[..|chunks| - 1]), chunks[|chunks| - 1]);
    }
  }

  /// Buffers stay bounded while no utterance is open.
  lemma {:induction false} PendingBounded(c: Setup, m: Memory, frames: seq<Samples>)
    requires |m.pending| <= MaxPending(c)
    ensures |Run(c, m, frames).memory.pending| <= MaxPending(c)
    decreases |frames|
  {
    if frames != [] {
      PendingBounded(c, m, frames[..|frames| - 1]);
    }
  }

  // ---------------------------------------------- the declarative segmentation

  // Everything below is about frames base, base + 1, ... heard with the detector in state v, where
  // base is the first frame after the last utterance end.

  ghost function VadAt(c: Setup, v: Vad, frames: seq<Samples>, base: nat, k: nat): Vad
    requires base <= k <= |frames|
    decreases k
  {
    if k == base then v else c.probe(VadAt(c, v, frames, base, k - 1), frames[k - 1]).0
  }

  ghost predicate Hot(c: Setup, v: Vad, frames: seq<Samples>, base: nat, k: nat)
    requires base <= k < |frames|
  {
    c.probe(VadAt(c, v, frames, base, k), frames[k]).1 >= c.speechThreshold
  }

  function AtLeastOne(n: nat): nat { if n == 0 then 1 else n }

  /// Frame p ends a full run of speech frames.
  ghost predicate SpeechRunAt(c: Setup, v: Vad, frames: seq<Samples>, base: nat, p: nat)
    requires base <= p < |frames|
  {
    p + 1 >= base + AtLeastOne(c.minSpeechFrames)
    && forall j :: p + 1 - AtLeastOne(c.minSpeechFrames) <= j <= p ==> Hot(c, v, frames, base, j)
  }

  /// Frame e ends a full hangover of silent frames after the onset p.
  ghost predicate HangoverAt(c: Setup, v: Vad, frames: seq<Samples>, base: nat, p: nat, e: nat)
    requires base <= p < e < |frames|
  {
    e >= p + AtLeastOne(c.hangoverFrames)
    && forall j :: e - AtLeastOne(c.hangoverFrames) < j <= e ==> !Hot(c, v, frames, base, j)
  }

  /// The first frame from `from` on that ends a full speech run, or |frames|.
  ghost function Onset(c: Setup, v: Vad, frames: seq<Samples>, base: nat, from: nat): (p: nat)
    requires base <= from <= |frames|
    ensures from <= p <= |frames|
    ensures p < |frames| ==> SpeechRunAt(c, v, frames, base, p)
    ensures forall q :: from <= q < p ==> !SpeechRunAt(c, v, frames, base, q)
    decreases |frames| - from
  {
    if from == |frames| || SpeechRunAt(c, v, frames, base, from) then from
    else Onset(c, v, frames, base, from + 1)
  }

  /// The first frame from `from` on that ends a full hangover after onset p, or |frames|.
  ghost function Closing(c: Setup, v: Vad, frames: seq<Samples>, base: nat, p: nat, from: nat): (e: nat)
    requires base <= p < from <= |frames|
    ensures from <= e <= |frames|
    ensures e < |frames| ==> HangoverAt(c, v, frames, base, p, e)
    ensures forall q :: from <= q < e ==> !HangoverAt(c, v, frames, base, p, q)
    decreases |frames| - from
  {
    if from == |frames| || HangoverAt(c, v, frames, base, p, from) then from
    else Closing(c, v, frames, base, p, from + 1)
  }

  /// Frames head..onset are announced at the onset; the utterance is frames head..end.
  datatype Utterance = Utterance(head: nat, onset: nat, end: nat, closed: bool)

  /// The oldest frame still held once frames base..k have been heard in silence.
  ghost function HeadAt(c: Setup, base: nat, k: nat): (head: nat)
    requires base <= k
    ensures base <= head <= k
    ensures k - head == if k - base <= c.preRollFrames + c.minSpeechFrames then k - base
                        else c.preRollFrames + c.minSpeechFrames
  {
    if k - base <= c.preRollFrames + c.minSpeechFrames then base
    else k - (c.preRollFrames + c.minSpeechFrames)
  }

  ghost function Utterances(c: Setup, v: Vad, frames: seq<Samples>, base: nat): (us: seq<Utterance>)
    requires base <= |frames|
    decreases |frames| - base
  {
    var p := Onset(c, v, frames, base, base);
    if p == |frames| then []
    else
      var e := Closing(c, v, frames, base, p, p + 1);
      var head := HeadAt(c, base, p + 1);
      if e == |frames| then [Utterance(head, p, e, false)]
      else [Utterance(head, p, e + 1, true)]
           + Utterances(c, c.reset(VadAt(c, v, frames, base, e + 1)), frames, e + 1)
  }

  /// One Partial per frame from..end.
  ghost function Partials(frames: seq<Samples>, from: nat, end: nat): seq<SpeechEvent>
    decreases end
  {
    if end <= from || |frames| < end then [] else Partials(frames, from, end - 1) + [Partial(frames[end - 1])]
  }

  /// The samples of frames from..end.
  ghost function Audio(frames: seq<Samples>, from: nat, end: nat): Samples
    decreases end
  {
    if end <= from || |frames| < end then [] else Audio(frames, from, end - 1) + frames[end - 1]
  }

  ghost function EventsOf(frames: seq<Samples>, u: Utterance): seq<SpeechEvent>
  {
    [SpeechStart(Audio(frames, u.head, u.onset + 1))]
    + Partials(frames, u.onset + 1, u.end)
    + if u.closed then [EndEvent(Audio(frames, u.head, u.end))] else []
  }

  ghost function AllEvents(frames: seq<Samples>, us: seq<Utterance>): seq<SpeechEvent>
    decreases |us|
  {
    if us == [] then [] else EventsOf(frames, us[0]) + AllEvents(frames, us[1..])
  }

  /// Utterances are disjoint slices of the stream, in order, and only the last can be open.
  ghost predicate InOrder(us: seq<Utterance>, from: nat, end: nat)
    decreases |us|
  {
    us == [] ||
    (var u := us[0];
     && from <= u.head <= u.onset + 1 <= u.end <= end && from <= u.onset
     && (if u.closed then InOrder(us[1..], u.end, end) else us[1..] == [] && u.end == end))
  }

  lemma {:induction false} UtterancesInOrder(c: Setup, v: Vad, frames: seq<Samples>, base: nat)
    requires base <= |frames|
    ensures InOrder(Utterances(c, v, frames, base), base, |frames|)
    decreases |frames| - base
  {
    var p := Onset(c, v, frames, base, base);
    if p < |frames| {
      var e := Closing(c, v, frames, base, p, p + 1);
      if e < |frames| {
        UtterancesInOrder(c, c.reset(VadAt(c, v, frames, base, e + 1)), frames, e + 1);
      }
    }
  }

  // -------------------------------------------------- the machine is the segmentation

  /// r is the length of the run of speech frames ending just before frame k, and is not yet full.
  ghost predicate SpeechRun(c: Setup, v: Vad, frames: seq<Samples>, base: nat, k: nat, r: nat)
    requires base <= k <= |frames|
  {
    && r < AtLeastOne(c.minSpeechFrames) && base + r <= k
    && (forall j :: k - r <= j < k ==> Hot(c, v, frames, base, j))
    && (base + r == k || !Hot(c, v, frames, base, k - r - 1))
  }

  ghost predicate AllFrames(frames: seq<Samples>)
  {
    forall i :: 0 <= i < |frames| ==> |frames[i]| == FRAME_SAMPLES
  }

  lemma {:induction false} AudioLength(frames: seq<Samples>, from: nat, end: nat)
    requires from <= end <= |frames| && AllFrames(frames)
    ensures |Audio(frames, from, end)| == (end - from) * FRAME_SAMPLES
    decreases end
  {
    if from < end { AudioLength(frames, from, end - 1); }
  }

  lemma {:induction false} DropOfConcat(a: Samples, b: Samples, n: nat)
    requires n <= |a|
    ensures (a + b)[n..] == a[n..] + b
  {
  }

  lemma {:induction false} AudioDropFirst(frames: seq<Samples>, from: nat, end: nat)
    requires from < end <= |frames| && AllFrames(frames)
    ensures |Audio(frames, from, end)| >= FRAME_SAMPLES
    ensures Audio(frames, from, end)[FRAME_SAMPLES..] == Audio(frames, from + 1, end)
    decreases end
  {
    AudioLength(frames, from, end);
    var last := end - 1;
    if from < last {
      AudioDropFirst(frames, from, last);
      DropOfConcat(Audio(frames, from, last), frames[last], FRAME_SAMPLES);
    } else {
      assert Audio(frames, from, last) == [];
    }
  }

  /// Appending a frame and trimming moves the held window on by one frame.
  lemma {:induction false} PendingStep(c: Setup, frames: seq<Samples>, base: nat, k: nat)
    requires base <= k < |frames| && AllFrames(frames)
    ensures LastSamples(Audio(frames, HeadAt(c, base, k), k) + frames[k], MaxPending(c))
            == Audio(frames, HeadAt(c, base, k + 1), k + 1)
  {
    var from, cap := HeadAt(c, base, k), c.preRollFrames + c.minSpeechFrames;
    var longer := Audio(frames, from, k + 1);
    AudioLength(frames, from, k + 1);
    assert longer == Audio(frames, from, k) + frames[k];
    if k - base >= cap {
      assert k - from == cap && |longer| == MaxPending(c) + FRAME_SAMPLES;
      AudioDropFirst(frames, from, k + 1);
    } else {
      assert k + 1 - from <= cap && |longer| <= MaxPending(c);
    }
  }

  ghost function SilentAt(c: Setup, v: Vad, frames: seq<Samples>, base: nat, k: nat, r: nat): Memory
    requires base <= k <= |frames|
  {
    Memory(VadAt(c, v, frames, base, k), Silence(r), Audio(frames, HeadAt(c, base, k), k), [])
  }

  ghost function SpeakingAt(c: Setup, v: Vad, frames: seq<Samples>, base: nat, head: nat, k: nat, r: nat): Memory
    requires base <= k <= |frames| && head <= k
  {
    Memory(VadAt(c, v, frames, base, k), Speech(r), [], Audio(frames, head, k))
  }

  lemma {:induction false} SilentStep(c: Setup, v: Vad, frames: seq<Samples>, base: nat, k: nat, r: nat)
    requires base <= k < |frames| && AllFrames(frames)
    ensures Step(c, SilentAt(c, v, frames, base, k, r), frames[k]) ==
            if !Hot(c, v, frames, base, k) then Outcome(SilentAt(c, v, frames, base, k + 1, 0), [])
            else if r + 1 < c.minSpeechFrames then Outcome(SilentAt(c, v, frames, base, k + 1, r + 1), [])
            else Outcome(SpeakingAt(c, v, frames, base, HeadAt(c, base, k + 1), k + 1, 0),
                         [SpeechStart(Audio(frames, HeadAt(c, base, k + 1), k + 1))])
  {
    PendingStep(c, frames, base, k);
  }

  lemma {:induction false} SpeakingStep(c: Setup, v: Vad, frames: seq<Samples>, base: nat, head: nat, k: nat, r: nat)
    requires base <= k < |frames| && head <= k
    ensures Step(c, SpeakingAt(c, v, frames, base, head, k, r), frames[k]) ==
            if Hot(c, v, frames, base, k) then
              Outcome(SpeakingAt(c, v, frames, base, head, k + 1, 0), [Partial(frames[k])])
            else if r + 1 < c.hangoverFrames then
              Outcome(SpeakingAt(c, v, frames, base, head, k + 1, r + 1), [Partial(frames[k])])
            else
              Outcome(Fresh(c.reset(VadAt(c, v, frames, base, k + 1))),
                      [Partial(frames[k]), EndEvent(Audio(frames, head, k + 1))])
  {
  }

  /// The run over frames base..k.
  ghost function RunTo(c: Setup, v: Vad, frames: seq<Samples>, base: nat, k: nat): Outcome
    requires base <= k <= |frames|
    decreases k
  {
    if k == base then Outcome(Fresh(v), [])
    else
      var before := RunTo(c, v, frames, base, k - 1);
      Joined(before, Step(c, before.memory, frames[k - 1]))
  }

  lemma {:induction false} RunToIsRun(c: Setup, v: Vad, frames: seq<Samples>, base: nat, k: nat)
    requires base <= k <= |frames|
    ensures RunTo(c, v, frames, base, k) == Run(c, Fresh(v), frames[base..k])
    decreases k
  {
    if base < k {
      var last := k - 1;
      RunToIsRun(c, v, frames, base, last);
      OneMoreFrame(frames, base, last);
      RunAppend(c, Fresh(v), frames[base..last], frames[last]);
    }
  }

  lemma {:induction false} OneMoreFrame(frames: seq<Samples>, base: nat, k: nat)
    requires base <= k < |frames|
    ensures frames[base..k + 1] == frames[base..k] + [frames[k]]
  {
  }

  lemma {:induction false} SilentPhase(c: Setup, v: Vad, frames: seq<Samples>, base: nat, k: nat) returns (r: nat)
    requires base <= k <= |frames| && AllFrames(frames)
    requires forall q :: base <= q < k ==> !SpeechRunAt(c, v, frames, base, q)
    ensures SpeechRun(c, v, frames, base, k, r)
    ensures RunTo(c, v, frames, base, k) == Outcome(SilentAt(c, v, frames, base, k, r), [])
    decreases k
  {
    if k == base {
      return 0;
    }
    r := SilentPhase(c, v, frames, base, k - 1);
    SilentStep(c, v, frames, base, k - 1, r);
    if Hot(c, v, frames, base, k - 1) {
      RunExtends(c, v, frames, base, k - 1, r);
      r := r + 1;
    } else {
      r := 0;
    }
  }

  /// A hot frame completes a run exactly when the count reaches the minimum.
  lemma {:induction false} RunExtends(c: Setup, v: Vad, frames: seq<Samples>, base: nat, k: nat, r: nat)
    requires base <= k < |frames| && SpeechRun(c, v, frames, base, k, r) && Hot(c, v, frames, base, k)
    ensures SpeechRunAt(c, v, frames, base, k) <==> r + 1 >= AtLeastOne(c.minSpeechFrames)
    ensures r + 1 < AtLeastOne(c.minSpeechFrames) ==> SpeechRun(c, v, frames, base, k + 1, r + 1)
  {
    if r + 1 < AtLeastOne(c.minSpeechFrames) && base + r < k {
      assert !Hot(c, v, frames, base, k - r - 1);
    }
  }

  ghost predicate SilenceRun(c: Setup, v: Vad, frames: seq<Samples>, base: nat, p: nat, k: nat, r: nat)
    requires base <= p < k <= |frames|
  {
    && r < AtLeastOne(c.hangoverFrames) && p + 1 + r <= k
    && (forall j :: k - r <= j < k ==> !Hot(c, v, frames, base, j))
    && (p + 1 + r == k || Hot(c, v, frames, base, k - r - 1))
  }

  ghost function SpokenSoFar(frames: seq<Samples>, head: nat, p: nat, k: nat): seq<SpeechEvent>
    requires head <= p + 1 <= k <= |frames|
  {
    [SpeechStart(Audio(frames, head, p + 1))] + Partials(frames, p + 1, k)
  }

  lemma {:induction false} SpeakingPhase(c: Setup, v: Vad, frames: seq<Samples>, base: nat, p: nat, k: nat)
    returns (r: nat)
    requires base <= p < k <= |frames| && AllFrames(frames)
    requires p == Onset(c, v, frames, base, base)
    requires forall q :: p < q < k ==> !HangoverAt(c, v, frames, base, p, q)
    ensures SilenceRun(c, v, frames, base, p, k, r)
    ensures var head := HeadAt(c, base, p + 1);
            RunTo(c, v, frames, base, k)
            == Outcome(SpeakingAt(c, v, frames, base, head, k, r), SpokenSoFar(frames, head, p, k))
    decreases k
  {
    if k == p + 1 {
      Started(c, v, frames, base, p);
      r := 0;
    } else {
      var before := SpeakingPhase(c, v, frames, base, p, k - 1);
      r := if Hot(c, v, frames, base, k - 1) then 0 else before + 1;
      StillSpeaking(c, v, frames, base, p, k - 1, before);
    }
  }

  /// The frame at which the utterance starts.
  lemma {:induction false} Started(c: Setup, v: Vad, frames: seq<Samples>, base: nat, p: nat)
    requires base <= p < |frames| && AllFrames(frames) && p == Onset(c, v, frames, base, base)
    ensures var head := HeadAt(c, base, p + 1);
            RunTo(c, v, frames, base, p + 1)
            == Outcome(SpeakingAt(c, v, frames, base, head, p + 1, 0), SpokenSoFar(frames, head, p, p + 1))
  {
    var run := SilentPhase(c, v, frames, base, p);
    assert Hot(c, v, frames, base, p);
    RunExtends(c, v, frames, base, p, run);
    SilentStep(c, v, frames, base, p, run);
  }

  /// A frame that does not end it.
  lemma {:induction false} StillSpeaking(c: Setup, v: Vad, frames: seq<Samples>, base: nat, p: nat, k: nat, r: nat)
    requires base <= p < k < |frames| && AllFrames(frames) && !HangoverAt(c, v, frames, base, p, k)
    requires SilenceRun(c, v, frames, base, p, k, r)
    requires var head := HeadAt(c, base, p + 1);
             RunTo(c, v, frames, base, k)
             == Outcome(SpeakingAt(c, v, frames, base, head, k, r), SpokenSoFar(frames, head, p, k))
    ensures var head := HeadAt(c, base, p + 1);
            var r' := if Hot(c, v, frames, base, k) then 0 else r + 1;
            && SilenceRun(c, v, frames, base, p, k + 1, r')
            && RunTo(c, v, frames, base, k + 1)
               == Outcome(SpeakingAt(c, v, frames, base, head, k + 1, r'), SpokenSoFar(frames, head, p, k + 1))
  {
    var head := HeadAt(c, base, p + 1);
    SpeakingStep(c, v, frames, base, head, k, r);
    SpokenMore(frames, head, p, k);
    if !Hot(c, v, frames, base, k) {
      HangoverExtends(c, v, frames, base, p, k, r);
    }
  }

  lemma {:induction false} SpokenMore(frames: seq<Samples>, head: nat, p: nat, k: nat)
    requires head <= p + 1 <= k < |frames|
    ensures SpokenSoFar(frames, head, p, k) + [Partial(frames[k])] == SpokenSoFar(frames, head, p, k + 1)
  {
  }

  lemma {:induction false} HangoverExtends(c: Setup, v: Vad, frames: seq<Samples>, base: nat, p: nat, k: nat, r: nat)
    requires base <= p < k < |frames| && SilenceRun(c, v, frames, base, p, k, r) && !Hot(c, v, frames, base, k)
    ensures HangoverAt(c, v, frames, base, p, k) <==> r + 1 >= AtLeastOne(c.hangoverFrames)
    ensures r + 1 < AtLeastOne(c.hangoverFrames) ==> SilenceRun(c, v, frames, base, p, k + 1, r + 1)
  {
    if r + 1 < AtLeastOne(c.hangoverFrames) && p + 1 + r < k {
      assert Hot(c, v, frames, base, k - r - 1);
    }
  }

  /// The frame that completes the hangover ends the utterance and starts afresh.
  lemma {:induction false} ClosingStep(c: Setup, v: Vad, frames: seq<Samples>, base: nat, p: nat, e: nat)
    requires base <= p < e < |frames| && AllFrames(frames)
    requires p == Onset(c, v, frames, base, base) && e == Closing(c, v, frames, base, p, p + 1)
    ensures var u := Utterance(HeadAt(c, base, p + 1), p, e + 1, true);
            RunTo(c, v, frames, base, e + 1)
            == Outcome(Fresh(c.reset(VadAt(c, v, frames, base, e + 1))), EventsOf(frames, u))
  {
    var head := HeadAt(c, base, p + 1);
    var r := SpeakingPhase(c, v, frames, base, p, e);
    assert !Hot(c, v, frames, base, e);
    HangoverExtends(c, v, frames, base, p, e, r);
    SpeakingStep(c, v, frames, base, head, e, r);
    SpokenMore(frames, head, p, e);
    var end := EndEvent(Audio(frames, head, e + 1));
    assert SpokenSoFar(frames, head, p, e) + [Partial(frames[e]), end]
        == SpokenSoFar(frames, head, p, e + 1) + [end];
  }

  /// What the machine emits when started afresh at frame base.
  ghost function Emitted(c: Setup, v: Vad, frames: seq<Samples>, base: nat): seq<SpeechEvent>
    requires base <= |frames|
  {
    Run(c, Fresh(v), frames[base..]).events
  }

  lemma {:induction false} EmittedFrom(c: Setup, v: Vad, frames: seq<Samples>, base: nat, next: nat)
    requires base <= next <= |frames|
    ensures var first := RunTo(c, v, frames, base, next);
            Emitted(c, v, frames, base) == first.events + Run(c, first.memory, frames[next..]).events
  {
    RunToIsRun(c, v, frames, base, next);
    assert frames[base..] == frames[base..next] + frames[next..];
    RunConcat(c, Fresh(v), frames[base..next], frames[next..]);
  }

  lemma {:induction false} ToEnd(frames: seq<Samples>, base: nat)
    requires base <= |frames|
    ensures frames[base..|frames|] == frames[base..]
  {
  }

  lemma {:induction false} NoUtterance(c: Setup, v: Vad, frames: seq<Samples>, base: nat)
    requires base <= |frames| && AllFrames(frames) && Onset(c, v, frames, base, base) == |frames|
    ensures Emitted(c, v, frames, base) == []
  {
    var _ := SilentPhase(c, v, frames, base, |frames|);
    RunToIsRun(c, v, frames, base, |frames|);
    ToEnd(frames, base);
  }

  lemma {:induction false} OpenUtterance(c: Setup, v: Vad, frames: seq<Samples>, base: nat, p: nat)
    requires base <= p < |frames| && AllFrames(frames) && p == Onset(c, v, frames, base, base)
    requires Closing(c, v, frames, base, p, p + 1) == |frames|
    ensures Emitted(c, v, frames, base)
            == EventsOf(frames, Utterance(HeadAt(c, base, p + 1), p, |frames|, false))
  {
    var _ := SpeakingPhase(c, v, frames, base, p, |frames|);
    OpenEvents(frames, HeadAt(c, base, p + 1), p, |frames|);
    RunToIsRun(c, v, frames, base, |frames|);
    ToEnd(frames, base);
  }

  lemma {:induction false} OpenEvents(frames: seq<Samples>, head: nat, p: nat, k: nat)
    requires head <= p + 1 <= k <= |frames|
    ensures EventsOf(frames, Utterance(head, p, k, false)) == SpokenSoFar(frames, head, p, k)
  {
  }

  lemma {:induction false} ClosedUtterance(c: Setup, v: Vad, frames: seq<Samples>, base: nat, p: nat, next: nat, v': Vad)
    requires base <= p && p + 1 < next <= |frames| && AllFrames(frames) && p == Onset(c, v, frames, base, base)
    requires Closing(c, v, frames, base, p, p + 1) + 1 == next
    requires v' == c.reset(VadAt(c, v, frames, base, next))
    ensures Emitted(c, v, frames, base)
            == EventsOf(frames, Utterance(HeadAt(c, base, p + 1), p, next, true)) + Emitted(c, v', frames, next)
  {
    var e := next - 1;
    ClosingStep(c, v, frames, base, p, e);
    EmittedFrom(c, v, frames, base, next);
  }

  /// An utterance that closes, and then those after it.
  lemma {:induction false} UtteranceThen(c: Setup, v: Vad, frames: seq<Samples>, base: nat, p: nat, e: nat)
    requires base <= p < e < |frames| && p == Onset(c, v, frames, base, base)
    requires e == Closing(c, v, frames, base, p, p + 1)
    ensures Utterances(c, v, frames, base)
            == [Utterance(HeadAt(c, base, p + 1), p, e + 1, true)]
               + Utterances(c, c.reset(VadAt(c, v, frames, base, e + 1)), frames, e + 1)
  {
  }

  /// From a fresh start, the events of a run are those of the declarative segmentation.
  lemma {:induction false} RunIsSegmentation(c: Setup, v: Vad, frames: seq<Samples>, base: nat)
    requires base <= |frames| && AllFrames(frames)
    ensures Emitted(c, v, frames, base) == AllEvents(frames, Utterances(c, v, frames, base))
    decreases |frames| - base
  {
    var p := Onset(c, v, frames, base, base);
    if p == |frames| {
      NoUtterance(c, v, frames, base);
    } else {
      var e := Closing(c, v, frames, base, p, p + 1);
      if e == |frames| {
        OpenAtTheEnd(c, v, frames, base, p);
      } else {
        var v' := c.reset(VadAt(c, v, frames, base, e + 1));
        RunIsSegmentation(c, v', frames, e + 1);
        ClosedAndOn(c, v, frames, base, p, e, v');
      }
    }
  }

  lemma {:induction false} OpenAtTheEnd(c: Setup, v: Vad, frames: seq<Samples>, base: nat, p: nat)
    requires base <= p < |frames| && AllFrames(frames) && p == Onset(c, v, frames, base, base)
    requires Closing(c, v, frames, base, p, p + 1) == |frames|
    ensures Emitted(c, v, frames, base) == AllEvents(frames, Utterances(c, v, frames, base))
  {
    OpenUtterance(c, v, frames, base, p);
    OneUtterance(frames, Utterance(HeadAt(c, base, p + 1), p, |frames|, false), []);
  }

  lemma {:induction false} ClosedAndOn(c: Setup, v: Vad, frames: seq<Samples>, base: nat, p: nat, e: nat, v': Vad)
    requires base <= p < e < |frames| && AllFrames(frames) && p == Onset(c, v, frames, base, base)
    requires e == Closing(c, v, frames, base, p, p + 1) && v' == c.reset(VadAt(c, v, frames, base, e + 1))
    requires Emitted(c, v', frames, e + 1) == AllEvents(frames, Utterances(c, v', frames, e + 1))
    ensures Emitted(c, v, frames, base) == AllEvents(frames, Utterances(c, v, frames, base))
  {
    var u := Utterance(HeadAt(c, base, p + 1), p, e + 1, true);
    var rest := Utterances(c, v', frames, e + 1);
    UtteranceThen(c, v, frames, base, p, e);
    ClosedUtterance(c, v, frames, base, p, e + 1, v');
    OneUtterance(frames, u, rest);
    assert AllEvents(frames, [u] + rest) == EventsOf(frames, u) + AllEvents(frames, rest);
  }

  /// However the microphone's samples are cut into pushes, a fresh segmenter returns the events of
  /// the declarative segmentation of the stream.
  lemma {:induction false} AnyChunkingIsSegmentation(c: Setup, v: Vad, chunks: seq<Samples>)
    ensures var frames := Frames(Flatten(chunks));
            PushAll(c, Fresh(v), [], chunks).outcome.events == AllEvents(frames, Utterances(c, v, frames, 0))
  {
    var frames := Frames(Flatten(chunks));
    ChunkingIsInvisible(c, Fresh(v), [], chunks);
    assert [] + Flatten(chunks) == Flatten(chunks);
    assert frames[0..] == frames;
    RunIsSegmentation(c, v, frames, 0);
  }

  lemma {:induction false} OneUtterance(frames: seq<Samples>, u: Utterance, us: seq<Utterance>)
    ensures AllEvents(frames, [u] + us) == EventsOf(frames, u) + AllEvents(frames, us)
    ensures [u] + [] == [u]
  {
    assert ([u] + us)[1..] == us;
  }

  // ------------------------------------------------- what a listener can rely on

  /// Frames arriving, and the utterance being forced closed, in any order.
  datatype Input = Frame(samples: Samples) | Flush

  function StepInput(c: Setup, m: Memory, input: Input): Outcome
  {
    match input
    case Frame(samples) => Step(c, m, samples)
    case Flush => if m.state.Silence? then Outcome(m, []) else Outcome(AfterEnd(c, m.vad), [EndEvent(m.utterance)])
  }

  function RunInputs(c: Setup, m: Memory, inputs: seq<Input>): Outcome
    decreases |inputs|
  {
    if inputs == [] then Outcome(m, [])
    else
      var before := RunInputs(c, m, inputs[..|inputs| - 1]);
      Joined(before, StepInput(c, before.memory, inputs[|inputs| - 1]))
  }

  /// A listener following the events: is an utterance open, what has been heard of it, and has
  /// every event so far been in its place, with every SpeechEnd repeating what was heard?
  datatype Listener = Listener(open: bool, heard: Samples, fine: bool)

  function Hear(l: Listener, e: SpeechEvent): Listener
  {
    match e
    case SpeechStart(audio) => Listener(true, audio, l.fine && !l.open)
    case Partial(audio) => Listener(l.open, l.heard + audio, l.fine && l.open)
    case SpeechEnd(audio, secs) =>
      Listener(false, [], l.fine && l.open && audio == l.heard && secs * SAMPLE_RATE as real == |audio| as real)
  }

  function Listen(events: seq<SpeechEvent>): Listener
    decreases |events|
  {
    if events == [] then Listener(false, [], true)
    else Hear(Listen(events[..|events| - 1]), events[|events| - 1])
  }

  lemma {:induction false} ListenOn(e: seq<SpeechEvent>, f: seq<SpeechEvent>)
    requires |f| <= 2
    ensures f == [] ==> Listen(e + f) == Listen(e)
    ensures |f| == 1 ==> Listen(e + f) == Hear(Listen(e), f[0])
    ensures |f| == 2 ==> Listen(e + f) == Hear(Hear(Listen(e), f[0]), f[1])
  {
    if f == [] {
      assert e + f == e;
    } else {
      var init := f[..|f| - 1];
      assert (e + f)[..|e + f| - 1] == e + init;
      ListenOn(e, init);
    }
  }

  ghost predicate Follows(l: Listener, m: Memory)
  {
    l.fine && (l.open <==> m.state.Speech?) && (l.open ==> m.utterance == l.heard)
  }

  lemma {:induction false} HearNothing(before: seq<SpeechEvent>, m: Memory, after: Memory)
    requires Follows(Listen(before), m) && m.state.Silence? && after.state.Silence?
    ensures Follows(Listen(before + []), after)
  {
    ListenOn(before, []);
  }

  lemma {:induction false} HearStart(before: seq<SpeechEvent>, m: Memory, after: Memory, audio: Samples)
    requires Follows(Listen(before), m) && m.state.Silence? && after.state.Speech? && after.utterance == audio
    ensures Follows(Listen(before + [SpeechStart(audio)]), after)
  {
    ListenOn(before, [SpeechStart(audio)]);
  }

  lemma {:induction false} HearPartial(before: seq<SpeechEvent>, m: Memory, after: Memory, frame: Samples)
    requires Follows(Listen(before), m) && m.state.Speech? && after.state.Speech? && after.utterance == m.utterance + frame
    ensures Follows(Listen(before + [Partial(frame)]), after)
  {
    ListenOn(before, [Partial(frame)]);
  }

  lemma {:induction false} HearEnd(before: seq<SpeechEvent>, m: Memory, after: Memory)
    requires Follows(Listen(before), m) && m.state.Speech? && after.state.Silence?
    ensures Follows(Listen(before + [EndEvent(m.utterance)]), after)
  {
    ListenOn(before, [EndEvent(m.utterance)]);
  }

  lemma {:induction false} HearPartialAndEnd(before: seq<SpeechEvent>, m: Memory, after: Memory, frame: Samples)
    requires Follows(Listen(before), m) && m.state.Speech? && after.state.Silence?
    ensures Follows(Listen(before + [Partial(frame), EndEvent(m.utterance + frame)]), after)
  {
    var speaking := m.(utterance := m.utterance + frame);
    HearPartial(before, m, speaking, frame);
    HearEnd(before + [Partial(frame)], speaking, after);
    assert before + [Partial(frame)] + [EndEvent(m.utterance + frame)]
           == before + [Partial(frame), EndEvent(m.utterance + frame)];
  }

  lemma {:induction false} HearSilent(c: Setup, m: Memory, frame: Samples, before: seq<SpeechEvent>)
    requires Follows(Listen(before), m) && m.state.Silence?
    ensures var r := Step(c, m, frame); Follows(Listen(before + r.events), r.memory)
  {
    var r := Step(c, m, frame);
    if r.memory.state.Silence? {
      HearNothing(before, m, r.memory);
    } else {
      HearStart(before, m, r.memory, r.memory.utterance);
    }
  }

  lemma {:induction false} HearSpeaking(c: Setup, m: Memory, frame: Samples, before: seq<SpeechEvent>)
    requires Follows(Listen(before), m) && m.state.Speech?
    ensures var r := Step(c, m, frame); Follows(Listen(before + r.events), r.memory)
  {
    var r := Step(c, m, frame);
    if r.memory.state.Speech? {
      HearPartial(before, m, r.memory, frame);
    } else {
      HearPartialAndEnd(before, m, r.memory, frame);
    }
  }

  lemma {:induction false} HearStep(c: Setup, m: Memory, input: Input, before: seq<SpeechEvent>)
    requires Follows(Listen(before), m)
    ensures var r := StepInput(c, m, input); Follows(Listen(before + r.events), r.memory)
  {
    match input {
      case Frame(frame) =>
        if m.state.Silence? { HearSilent(c, m, frame, before); } else { HearSpeaking(c, m, frame, before); }
      case Flush =>
        if m.state.Silence? { HearNothing(before, m, m); } else { HearEnd(before, m, AfterEnd(c, m.vad)); }
    }
  }

  /// Starts, partials and ends alternate properly, and each SpeechEnd carries exactly the audio of
  /// its SpeechStart and its Partials, whatever frames and flushes arrive.
  lemma {:induction false} StreamIsWellBracketed(c: Setup, v: Vad, inputs: seq<Input>)
    ensures var r := RunInputs(c, Fresh(v), inputs); Follows(Listen(r.events), r.memory)
    decreases |inputs|
  {
    if inputs != [] {
      StreamIsWellBracketed(c, v, inputs[..|inputs| - 1]);
      var before := RunInputs(c, Fresh(v), inputs[..|inputs| - 1]);
      HearStep(c, before.memory, inputs[|inputs| - 1], before.events);
    }
  }

  // ------------------------------------------------------- a flush between pushes

  function Inputs(frames: seq<Samples>): (r: seq<Input>)
    ensures |r| == |frames|
  {
    seq(|frames|, i requires 0 <= i < |frames| => Frame(frames[i]))
  }

  lemma {:induction false} InputsAreFrames(c: Setup, m: Memory, before: seq<Input>, frames: seq<Samples>)
    ensures RunInputs(c, m, before + Inputs(frames))
            == Joined(RunInputs(c, m, before), Run(c, RunInputs(c, m, before).memory, frames))
    decreases |frames|
  {
    var all := before + Inputs(frames);
    var first := RunInputs(c, m, before);
    if frames == [] {
      assert all == before && first.events + [] == first.events;
    } else {
      var n := |frames| - 1;
      assert Inputs(frames)[..n] == Inputs(frames[..n]);
      assert all[..|all| - 1] == before + Inputs(frames[..n]) && all[|all| - 1] == Frame(frames[n]);
      InputsAreFrames(c, m, before, frames[..n]);
      var run := Run(c, first.memory, frames[..n]);
      JoinedAssoc(first, run, Step(c, run.memory, frames[n]));
    }
  }

  /// A flush in silence changes nothing; a flush in an utterance ends it, and what follows is segmented
  /// afresh.
  lemma {:induction false} FlushBetween(c: Setup, v: Vad, f: seq<Samples>, g: seq<Samples>)
    requires AllFrames(f) && AllFrames(g)
    ensures var m := Run(c, Fresh(v), f).memory;
            RunInputs(c, Fresh(v), Inputs(f) + [Flush] + Inputs(g)).events
            == if m.state.Silence? then AllEvents(f + g, Utterances(c, v, f + g, 0))
               else AllEvents(f, Utterances(c, v, f, 0)) + [EndEvent(m.utterance)]
                    + AllEvents(g, Utterances(c, c.reset(m.vad), g, 0))
  {
    FlushRun(c, v, f, g);
    var m := Run(c, Fresh(v), f).memory;
    if m.state.Silence? {
      RunConcat(c, Fresh(v), f, g);
      FromTheStart(c, v, f + g);
    } else {
      FromTheStart(c, v, f);
      FromTheStart(c, c.reset(m.vad), g);
    }
  }

  lemma {:induction false} FromTheStart(c: Setup, v: Vad, frames: seq<Samples>)
    requires AllFrames(frames)
    ensures Run(c, Fresh(v), frames).events == AllEvents(frames, Utterances(c, v, frames, 0))
  {
    assert frames[0..] == frames;
    RunIsSegmentation(c, v, frames, 0);
  }

  lemma {:induction false} FlushRun(c: Setup, v: Vad, f: seq<Samples>, g: seq<Samples>)
    ensures var before := Run(c, Fresh(v), f);
            RunInputs(c, Fresh(v), Inputs(f) + [Flush] + Inputs(g)).events
            == if before.memory.state.Silence? then before.events + Run(c, before.memory, g).events
               else before.events + [EndEvent(before.memory.utterance)] + Run(c, AfterEnd(c, before.memory.vad), g).events
  {
    var before := Run(c, Fresh(v), f);
    var flushed := Inputs(f) + [Flush];
    InputsAreFrames(c, Fresh(v), [], f);
    assert [] + Inputs(f) == Inputs(f);
    assert RunInputs(c, Fresh(v), []).events + before.events == before.events;
    assert flushed[..|flushed| - 1] == Inputs(f);
    assert before.events + [] == before.events;
    InputsAreFrames(c, Fresh(v), flushed, g);
  }

  // ------------------------------------------------- any number of flushes, anywhere

  /// The detector once all frames have been heard.
  ghost function VadLeft(c: Setup, v: Vad, frames: seq<Samples>, base: nat): Vad
    requires base <= |frames|
    decreases |frames| - base
  {
    var p := Onset(c, v, frames, base, base);
    var e := if p == |frames| then p else Closing(c, v, frames, base, p, p + 1);
    if e == |frames| then VadAt(c, v, frames, base, |frames|)
    else VadLeft(c, c.reset(VadAt(c, v, frames, base, e + 1)), frames, e + 1)
  }

  ghost function StillOpen(us: seq<Utterance>): Option<Utterance>
  {
    if us == [] || us[|us| - 1].closed then None else Some(us[|us| - 1])
  }

  /// The events of frames f, heard from a fresh start, and of the inputs after them: a flush ends the
  /// utterance that is open, with its audio so far, and segmentation starts afresh; with none open it
  /// is as if it had not been.
  ghost function Declared(c: Setup, v: Vad, f: seq<Samples>, inputs: seq<Input>): seq<SpeechEvent>
    decreases |inputs|
  {
    var us := Utterances(c, v, f, 0);
    if inputs == [] then AllEvents(f, us)
    else if inputs[0].Frame? then Declared(c, v, f + [inputs[0].samples], inputs[1..])
    else if StillOpen(us).None? then Declared(c, v, f, inputs[1..])
    else
      AllEvents(f, us) + [EndEvent(Audio(f, StillOpen(us).value.head, |f|))]
      + Declared(c, c.reset(VadLeft(c, v, f, 0)), [], inputs[1..])
  }

  /// The machine's memory at the end of a stretch is what the segmentation leaves open.
  ghost predicate Leaves(c: Setup, v: Vad, frames: seq<Samples>, base: nat, m: Memory)
    requires base <= |frames|
  {
    var last := StillOpen(Utterances(c, v, frames, base));
    && m.vad == VadLeft(c, v, frames, base)
    && (m.state.Speech? <==> last.Some?)
    && (last.Some? ==> m.utterance == Audio(frames, last.value.head, |frames|))
  }

  lemma {:induction false} LeavesSilence(c: Setup, v: Vad, frames: seq<Samples>, base: nat, m: Memory)
    requires base <= |frames| && AllFrames(frames) && Onset(c, v, frames, base, base) == |frames|
    requires m == Run(c, Fresh(v), frames[base..]).memory
    ensures Leaves(c, v, frames, base, m)
  {
    var _ := SilentPhase(c, v, frames, base, |frames|);
    RunToIsRun(c, v, frames, base, |frames|);
    ToEnd(frames, base);
  }

  lemma {:induction false} LeavesOpen(c: Setup, v: Vad, frames: seq<Samples>, base: nat, p: nat, m: Memory)
    requires base <= p < |frames| && AllFrames(frames) && p == Onset(c, v, frames, base, base)
    requires Closing(c, v, frames, base, p, p + 1) == |frames|
    requires m == Run(c, Fresh(v), frames[base..]).memory
    ensures Leaves(c, v, frames, base, m)
  {
    var _ := SpeakingPhase(c, v, frames, base, p, |frames|);
    RunToIsRun(c, v, frames, base, |frames|);
    ToEnd(frames, base);
  }

  lemma {:induction false} RunAfter(c: Setup, v: Vad, frames: seq<Samples>, base: nat, next: nat)
    requires base <= next <= |frames|
    ensures Run(c, Fresh(v), frames[base..]).memory
            == Run(c, RunTo(c, v, frames, base, next).memory, frames[next..]).memory
  {
    RunToIsRun(c, v, frames, base, next);
    assert frames[base..] == frames[base..next] + frames[next..];
    RunConcat(c, Fresh(v), frames[base..next], frames[next..]);
  }

  lemma {:induction false} OpenAmongTheRest(u: Utterance, rest: seq<Utterance>)
    requires u.closed
    ensures StillOpen([u] + rest) == StillOpen(rest)
  {
    assert rest != [] ==> ([u] + rest)[|rest|] == rest[|rest| - 1];
  }

  lemma {:induction false} LeavesRest(c: Setup, v: Vad, frames: seq<Samples>, base: nat, p: nat, next: nat, v': Vad, m: Memory)
    requires base <= p && p + 1 < next <= |frames| && p == Onset(c, v, frames, base, base)
    requires Closing(c, v, frames, base, p, p + 1) + 1 == next && v' == c.reset(VadAt(c, v, frames, base, next))
    requires Leaves(c, v', frames, next, m)
    ensures Leaves(c, v, frames, base, m)
  {
    UtteranceThen(c, v, frames, base, p, next - 1);
    OpenAmongTheRest(Utterance(HeadAt(c, base, p + 1), p, next, true), Utterances(c, v', frames, next));
  }

  /// The end of an utterance is a fresh start.
  lemma {:induction false} ClosedRunsOn(c: Setup, v: Vad, frames: seq<Samples>, base: nat, p: nat, next: nat, v': Vad)
    requires base <= p && p + 1 < next <= |frames| && AllFrames(frames) && p == Onset(c, v, frames, base, base)
    requires Closing(c, v, frames, base, p, p + 1) + 1 == next && v' == c.reset(VadAt(c, v, frames, base, next))
    ensures Run(c, Fresh(v), frames[base..]).memory == Run(c, Fresh(v'), frames[next..]).memory
  {
    ClosingStep(c, v, frames, base, p, next - 1);
    RunAfter(c, v, frames, base, next);
  }

  lemma {:induction false} RunLeaves(c: Setup, v: Vad, frames: seq<Samples>, base: nat, m: Memory)
    requires base <= |frames| && AllFrames(frames) && m == Run(c, Fresh(v), frames[base..]).memory
    ensures Leaves(c, v, frames, base, m)
    decreases |frames| - base
  {
    var p := Onset(c, v, frames, base, base);
    if p == |frames| {
      LeavesSilence(c, v, frames, base, m);
    } else {
      var e := Closing(c, v, frames, base, p, p + 1);
      if e == |frames| {
        LeavesOpen(c, v, frames, base, p, m);
      } else {
        var next := e + 1;
        var v' := c.reset(VadAt(c, v, frames, base, next));
        ClosedRunsOn(c, v, frames, base, p, next, v');
        RunLeaves(c, v', frames, next, m);
        LeavesRest(c, v, frames, base, p, next, v', m);
      }
    }
  }

  lemma {:induction false} FirstInput(c: Setup, m: Memory, inputs: seq<Input>)
    requires inputs != []
    ensures var r := StepInput(c, m, inputs[0]);
            RunInputs(c, m, inputs) == Joined(r, RunInputs(c, r.memory, inputs[1..]))
    decreases |inputs|
  {
    var (r, n) := (StepInput(c, m, inputs[0]), |inputs| - 1);
    if n == 0 {
      assert inputs[..0] == [] && inputs[1..] == [];
      assert r.events + [] == r.events && [] + r.events == r.events;
    } else {
      FirstInput(c, m, inputs[..n]);
      assert inputs[..n][1..] == inputs[1..][..n - 1];
      var before := RunInputs(c, r.memory, inputs[1..][..n - 1]);
      JoinedAssoc(r, before, StepInput(c, before.memory, inputs[n]));
    }
  }

  ghost predicate WholeFrames(inputs: seq<Input>)
  {
    forall i :: 0 <= i < |inputs| ==> inputs[i].Frame? ==> |inputs[i].samples| == FRAME_SAMPLES
  }

  lemma {:induction false} FrameHeard(c: Setup, v: Vad, f: seq<Samples>, inputs: seq<Input>, x: Samples)
    requires inputs != [] && inputs[0] == Frame(x)
    ensures var (before, after) := (Run(c, Fresh(v), f), Run(c, Fresh(v), f + [x]));
            before.events + RunInputs(c, before.memory, inputs).events
            == after.events + RunInputs(c, after.memory, inputs[1..]).events
  {
    FirstInput(c, Run(c, Fresh(v), f).memory, inputs);
    RunAppend(c, Fresh(v), f, x);
  }

  lemma {:induction false} FramesThen(c: Setup, v: Vad, f: seq<Samples>, inputs: seq<Input>)
    requires AllFrames(f) && WholeFrames(inputs)
    ensures var before := Run(c, Fresh(v), f);
            before.events + RunInputs(c, before.memory, inputs).events == Declared(c, v, f, inputs)
    decreases |inputs|, 1
  {
    if inputs == [] {
      FromTheStart(c, v, f);
    } else if inputs[0].Frame? {
      FramesThen(c, v, f + [inputs[0].samples], inputs[1..]);
      FrameHeard(c, v, f, inputs, inputs[0].samples);
    } else {
      FlushThen(c, v, f, inputs);
    }
  }

  lemma {:induction false} FlushThen(c: Setup, v: Vad, f: seq<Samples>, inputs: seq<Input>)
    requires AllFrames(f) && WholeFrames(inputs) && inputs != [] && inputs[0].Flush?
    ensures var before := Run(c, Fresh(v), f);
            before.events + RunInputs(c, before.memory, inputs).events == Declared(c, v, f, inputs)
    decreases |inputs|, 0
  {
    var before := Run(c, Fresh(v), f);
    assert f[0..] == f;
    RunLeaves(c, v, f, 0, before.memory);
    if before.memory.state.Silence? {
      FramesThen(c, v, f, inputs[1..]);
      FlushUnheard(c, before, inputs);
    } else {
      var v' := c.reset(VadLeft(c, v, f, 0));
      FramesThen(c, v', [], inputs[1..]);
      FlushHeard(c, before, inputs, v');
      FromTheStart(c, v, f);
      var rest := RunInputs(c, Fresh(v'), inputs[1..]).events;
      Grouped(before.events, [EndEvent(before.memory.utterance)], rest);
    }
  }

  lemma {:induction false} FlushUnheard(c: Setup, before: Outcome, inputs: seq<Input>)
    requires inputs != [] && inputs[0].Flush? && before.memory.state.Silence?
    ensures RunInputs(c, before.memory, inputs).events == RunInputs(c, before.memory, inputs[1..]).events
  {
    FirstInput(c, before.memory, inputs);
    Grouped([], [], RunInputs(c, before.memory, inputs[1..]).events);
  }

  lemma {:induction false} FlushHeard(c: Setup, before: Outcome, inputs: seq<Input>, v': Vad)
    requires inputs != [] && inputs[0].Flush? && before.memory.state.Speech? && v' == c.reset(before.memory.vad)
    ensures RunInputs(c, before.memory, inputs).events
            == [EndEvent(before.memory.utterance)] + RunInputs(c, Fresh(v'), inputs[1..]).events
  {
    FirstInput(c, before.memory, inputs);
  }

  lemma {:induction false} Grouped(a: seq<SpeechEvent>, b: seq<SpeechEvent>, d: seq<SpeechEvent>)
    ensures a + (b + d) == a + b + d && [] + d == d
  {
  }

  /// For whole frames and flushes in any order and number, a fresh segmenter emits what is declared.
  lemma {:induction false} AnyInputsAreSegmented(c: Setup, v: Vad, inputs: seq<Input>)
    requires WholeFrames(inputs)
    ensures RunInputs(c, Fresh(v), inputs).events == Declared(c, v, [], inputs)
  {
    FramesThen(c, v, [], inputs);
    Grouped([], [], RunInputs(c, Fresh(v), inputs).events);
  }
}
