// Replay records (crates/diag/src/replay.rs): a line-oriented printer and its parser.
//
// The sets and maps of a record are printed in some order; the program's sorted containers fix
// one, and the theorems hold for every order.

module Replay {
  import opened Common
  import opened Text
  import opened ReplayText

  const SCHEMA := "outloud-replay v1"
  const LEGACY_SCHEMA := "aqua-replay v1"

  // ------------------------------------------------------------------------ records

  datatype ErrorClass = Environment | Permission | Configuration | Bug

  datatype EnvFacts = EnvFacts(axTrusted: bool, destinationIsTerminal: bool, hasDisplay: bool, hasClipboard: bool,
                               varsPresent: set<string>, commands: set<string>)
  datatype Transport = Transport(name: string, reason: string)
  datatype Ax = Ax(role: string, title: string, text: string, strategy: string)
  datatype Intent = Intent(kind: string, fromChars: U64, toChars: U64)
  datatype Transform = Transform(beforeChars: U64, afterChars: U64, changedStart: U64, removedChars: U64, insertedChars: U64)
  datatype Write = Write(ok: bool, detail: string, errorClass: Option<ErrorClass>)

  datatype Record = Record(platform: string, env: EnvFacts, transport: Option<Transport>, ax: Option<Ax>,
                           intent: Option<Intent>, transform: Option<Transform>, write: Option<Write>,
                           timings: map<string, U64>)

  const BLANK := Record("", EnvFacts(false, false, false, false, {}, {}), None, None, None, None, None, map[])

  // --------------------------------------------------------------------------- keys

  datatype Key =
    | Platform | AxTrusted | DestinationIsTerminal | HasDisplay | HasClipboard | EnvVar | EnvCmd
    | TransportName | TransportReason | AxRole | AxTitle | AxText | AxStrategy
    | IntentKind | IntentFrom | IntentTo
    | BeforeChars | AfterChars | ChangedStart | RemovedChars | InsertedChars
    | WriteOk | WriteDetail | WriteClass | Timing

  function KeyText(k: Key): string
  {
    match k
    case Platform => "platform"
    case AxTrusted => "env.ax_trusted"
    case DestinationIsTerminal => "env.destination_is_terminal"
    case HasDisplay => "env.has_display"
    case HasClipboard => "env.has_clipboard"
    case EnvVar => "env.var"
    case EnvCmd => "env.cmd"
    case TransportName => "transport.name"
    case TransportReason => "transport.reason"
    case AxRole => "ax.role"
    case AxTitle => "ax.title"
    case AxText => "ax.text"
    case AxStrategy => "ax.strategy"
    case IntentKind => "intent.kind"
    case IntentFrom => "intent.from_chars"
    case IntentTo => "intent.to_chars"
    case BeforeChars => "transform.before_chars"
    case AfterChars => "transform.after_chars"
    case ChangedStart => "transform.changed_start"
    case RemovedChars => "transform.removed_chars"
    case InsertedChars => "transform.inserted_chars"
    case WriteOk => "write.ok"
    case WriteDetail => "write.detail"
    case WriteClass => "write.class"
    case Timing => "timing"
  }

  const KEYS: seq<Key> := [
    Platform, AxTrusted, DestinationIsTerminal, HasDisplay, HasClipboard, EnvVar, EnvCmd,
    TransportName, TransportReason, AxRole, AxTitle, AxText, AxStrategy,
    IntentKind, IntentFrom, IntentTo,
    BeforeChars, AfterChars, ChangedStart, RemovedChars, InsertedChars,
    WriteOk, WriteDetail, WriteClass, Timing]

  function KeyAmong(s: string, keys: seq<Key>): Option<Key>
  {
    if keys == [] then None
    else if KeyText(keys[0]) == s then Some(keys[0])
    else KeyAmong(s, keys[1..])
  }

  /// The parser's dispatch on the text of a key.
  function KeyOf(s: string): Option<Key>
  {
    KeyAmong(s, KEYS)
  }

  lemma {:induction false} KeysDiffer(a: Key, b: Key)
    requires a != b
    ensures KeyText(a) != KeyText(b)
  {
    var s, t := KeyText(a), KeyText(b);
    if |s| == |t| && s[4] == t[4] {
      assert |s| == 23;
      assert s[10] != t[10];
    }
  }

  lemma {:induction false} KeyAmongThese(k: Key, keys: seq<Key>)
    ensures KeyAmong(KeyText(k), keys) == if k in keys then Some(k) else None
    decreases |keys|
  {
    if keys != [] {
      if keys[0] != k { KeysDiffer(keys[0], k); }
      KeyAmongThese(k, keys[1..]);
    }
  }

  lemma {:induction false} KeyOfText(k: Key)
    ensures KeyOf(KeyText(k)) == Some(k)
  {
    KeyAmongThese(k, KEYS);
    KeyListed(k);
  }

  lemma {:induction false} KeyListed(k: Key)
    ensures k in KEYS
  {
    match k
    case Platform => assert KEYS[0] == k;
    case AxTrusted => assert KEYS[1] == k;
    case DestinationIsTerminal => assert KEYS[2] == k;
    case HasDisplay => assert KEYS[3] == k;
    case HasClipboard => assert KEYS[4] == k;
    case EnvVar => assert KEYS[5] == k;
    case EnvCmd => assert KEYS[6] == k;
    case TransportName => assert KEYS[7] == k;
    case TransportReason => assert KEYS[8] == k;
    case AxRole => assert KEYS[9] == k;
    case AxTitle => assert KEYS[10] == k;
    case AxText => assert KEYS[11] == k;
    case AxStrategy => assert KEYS[12] == k;
    case IntentKind => assert KEYS[13] == k;
    case IntentFrom => assert KEYS[14] == k;
    case IntentTo => assert KEYS[15] == k;
    case BeforeChars => assert KEYS[16] == k;
    case AfterChars => assert KEYS[17] == k;
    case ChangedStart => assert KEYS[18] == k;
    case RemovedChars => assert KEYS[19] == k;
    case InsertedChars => assert KEYS[20] == k;
    case WriteOk => assert KEYS[21] == k;
    case WriteDetail => assert KEYS[22] == k;
    case WriteClass => assert KEYS[23] == k;
    case Timing => assert KEYS[24] == k;
  }

  /// Keys are non-empty and free of white space.
  predicate Solid(s: string)
  {
    s != [] && forall i :: 0 <= i < |s| ==> '.' <= s[i] <= 'z'
  }

  lemma {:induction false} KeyIsSolid(k: Key)
    ensures Solid(KeyText(k))
  {
    if k.Platform? || k.AxTrusted? || k.DestinationIsTerminal? || k.HasDisplay? || k.HasClipboard? { SolidKeys1(k); }
    else if k.EnvVar? || k.EnvCmd? || k.TransportName? || k.TransportReason? || k.AxRole? || k.AxTitle? { SolidKeys2(k); }
    else if k.AxText? || k.AxStrategy? || k.IntentKind? || k.IntentFrom? || k.IntentTo? { SolidKeys3(k); }
    else if k.BeforeChars? || k.AfterChars? || k.ChangedStart? || k.RemovedChars? { SolidKeys4(k); }
    else { SolidKeys5(k); }
  }

  lemma {:induction false} SolidKeys1(k: Key)
    requires k.Platform? || k.AxTrusted? || k.DestinationIsTerminal? || k.HasDisplay? || k.HasClipboard?
    ensures Solid(KeyText(k))
  {
  }

  lemma {:induction false} SolidKeys2(k: Key)
    requires k.EnvVar? || k.EnvCmd? || k.TransportName? || k.TransportReason? || k.AxRole? || k.AxTitle?
    ensures Solid(KeyText(k))
  {
  }

  lemma {:induction false} SolidKeys3(k: Key)
    requires k.AxText? || k.AxStrategy? || k.IntentKind? || k.IntentFrom? || k.IntentTo?
    ensures Solid(KeyText(k))
  {
  }

  lemma {:induction false} SolidKeys4(k: Key)
    requires k.BeforeChars? || k.AfterChars? || k.ChangedStart? || k.RemovedChars?
    ensures Solid(KeyText(k))
  {
  }

  lemma {:induction false} SolidKeys5(k: Key)
    requires k.InsertedChars? || k.WriteOk? || k.WriteDetail? || k.WriteClass? || k.Timing?
    ensures Solid(KeyText(k))
  {
  }

  // -------------------------------------------------------------------------- fields

  // A record is printed as a sequence of typed fields, one per line, and parsed back into one.

  datatype Kind = TextKind | FlagKind | NumberKind | ClassKind | TimingKind

  function KindOf(k: Key): Kind
  {
    match k
    case AxTrusted | DestinationIsTerminal | HasDisplay | HasClipboard | WriteOk => FlagKind
    case IntentFrom | IntentTo | BeforeChars | AfterChars | ChangedStart | RemovedChars | InsertedChars => NumberKind
    case WriteClass => ClassKind
    case Timing => TimingKind
    case _ => TextKind
  }

  datatype Field =
    | TextField(key: Key, text: string)
    | FlagField(key: Key, flag: bool)
    | NumberField(key: Key, number: U64)
    | ClassField(errorClass: ErrorClass)
    | TimingField(stage: string, micros: U64)
  {
    predicate WellKeyed()
    {
      (TextField? ==> KindOf(key) == TextKind) && (FlagField? ==> KindOf(key) == FlagKind)
      && (NumberField? ==> KindOf(key) == NumberKind)
    }
  }

  // Sections under assembly: the section so far, or a default one.
  function TransportOf(r: Record): Transport { if r.transport.None? then Transport("", "") else r.transport.value }
  function AxOf(r: Record): Ax { if r.ax.None? then Ax("", "", "", "") else r.ax.value }
  function IntentOf(r: Record): Intent { if r.intent.None? then Intent("", 0, 0) else r.intent.value }
  function TransformOf(r: Record): Transform { if r.transform.None? then Transform(0, 0, 0, 0, 0) else r.transform.value }
  function WriteOf(r: Record): Write { if r.write.None? then Write(false, "", None) else r.write.value }

  /// What the parser does with a field it has read.
  function Store(r: Record, f: Field): Record
  {
    match f
    case TextField(key, v) => StoreText(r, key, v)
    case FlagField(key, b) => StoreFlag(r, key, b)
    case NumberField(key, n) => StoreNumber(r, key, n)
    case ClassField(c) => r.(write := Some(WriteOf(r).(errorClass := Some(c))))
    case TimingField(stage, micros) => r.(timings := r.timings[stage := micros])
  }

  function StoreText(r: Record, key: Key, v: string): Record
  {
    match key
    case Platform => r.(platform := v)
    case EnvVar => r.(env := r.env.(varsPresent := r.env.varsPresent + {v}))
    case EnvCmd => r.(env := r.env.(commands := r.env.commands + {v}))
    case TransportName => r.(transport := Some(TransportOf(r).(name := v)))
    case TransportReason => r.(transport := Some(TransportOf(r).(reason := v)))
    case AxRole => r.(ax := Some(AxOf(r).(role := v)))
    case AxTitle => r.(ax := Some(AxOf(r).(title := v)))
    case AxText => r.(ax := Some(AxOf(r).(text := v)))
    case AxStrategy => r.(ax := Some(AxOf(r).(strategy := v)))
    case IntentKind => r.(intent := Some(IntentOf(r).(kind := v)))
    case WriteDetail => r.(write := Some(WriteOf(r).(detail := v)))
    case _ => r
  }

  function StoreFlag(r: Record, key: Key, b: bool): Record
  {
    match key
    case AxTrusted => r.(env := r.env.(axTrusted := b))
    case DestinationIsTerminal => r.(env := r.env.(destinationIsTerminal := b))
    case HasDisplay => r.(env := r.env.(hasDisplay := b))
    case HasClipboard => r.(env := r.env.(hasClipboard := b))
    case WriteOk => r.(write := Some(WriteOf(r).(ok := b)))
    case _ => r
  }

  function StoreNumber(r: Record, key: Key, n: U64): Record
  {
    match key
    case IntentFrom => r.(intent := Some(IntentOf(r).(fromChars := n)))
    case IntentTo => r.(intent := Some(IntentOf(r).(toChars := n)))
    case BeforeChars => r.(transform := Some(TransformOf(r).(beforeChars := n)))
    case AfterChars => r.(transform := Some(TransformOf(r).(afterChars := n)))
    case ChangedStart => r.(transform := Some(TransformOf(r).(changedStart := n)))
    case RemovedChars => r.(transform := Some(TransformOf(r).(removedChars := n)))
    case InsertedChars => r.(transform := Some(TransformOf(r).(insertedChars := n)))
    case _ => r
  }

  // ------------------------------------------------------------------------ printing

  /// The orders in which the sets and the timings are printed.
  datatype Orders = Orders(vars: seq<string>, commands: seq<string>, stages: seq<string>)

  ghost predicate Enumerates(order: seq<string>, s: set<string>)
  {
    forall x :: x in order <==> x in s
  }

  ghost predicate OrdersOf(o: Orders, r: Record)
  {
    Enumerates(o.vars, r.env.varsPresent) && Enumerates(o.commands, r.env.commands)
    && Enumerates(o.stages, r.timings.Keys)
  }

  function HeadFields(r: Record): seq<Field>
  {
    [TextField(Platform, r.platform), FlagField(AxTrusted, r.env.axTrusted),
     FlagField(DestinationIsTerminal, r.env.destinationIsTerminal),
     FlagField(HasDisplay, r.env.hasDisplay), FlagField(HasClipboard, r.env.hasClipboard)]
  }

  function TextFields(key: Key, values: seq<string>): seq<Field>
  {
    seq(|values|, i requires 0 <= i < |values| => TextField(key, values[i]))
  }

  function TransportFields(t: Option<Transport>): seq<Field>
  {
    if t.None? then [] else [TextField(TransportName, t.value.name), TextField(TransportReason, t.value.reason)]
  }

  function AxFields(a: Option<Ax>): seq<Field>
  {
    if a.None? then []
    else [TextField(AxRole, a.value.role), TextField(AxTitle, a.value.title),
          TextField(AxText, a.value.text), TextField(AxStrategy, a.value.strategy)]
  }

  function IntentFields(i: Option<Intent>): seq<Field>
  {
    if i.None? then []
    else [TextField(IntentKind, i.value.kind), NumberField(IntentFrom, i.value.fromChars), NumberField(IntentTo, i.value.toChars)]
  }

  function TransformFields(t: Option<Transform>): seq<Field>
  {
    if t.None? then []
    else [NumberField(BeforeChars, t.value.beforeChars), NumberField(AfterChars, t.value.afterChars),
          NumberField(ChangedStart, t.value.changedStart), NumberField(RemovedChars, t.value.removedChars),
          NumberField(InsertedChars, t.value.insertedChars)]
  }

  function WriteFields(w: Option<Write>): seq<Field>
  {
    if w.None? then []
    else [FlagField(WriteOk, w.value.ok), TextField(WriteDetail, w.value.detail)]
         + if w.value.errorClass.None? then [] else [ClassField(w.value.errorClass.value)]
  }

  function TimingFields(stages: seq<string>, timings: map<string, U64>): seq<Field>
    requires forall s :: s in stages ==> s in timings
  {
    seq(|stages|, i requires 0 <= i < |stages| => TimingField(stages[i], timings[stages[i]]))
  }

  function Fields(r: Record, o: Orders): seq<Field>
    requires forall s :: s in o.stages ==> s in r.timings
  {
    HeadFields(r) + TextFields(EnvVar, o.vars) + TextFields(EnvCmd, o.commands)
    + TransportFields(r.transport) + AxFields(r.ax) + IntentFields(r.intent) + TransformFields(r.transform)
    + WriteFields(r.write) + TimingFields(o.stages, r.timings)
  }

  function FlagText(b: bool): string { if b then "true" else "false" }

  function ClassText(c: ErrorClass): string
  {
    match c
    case Environment => "environment"
    case Permission => "permission"
    case Configuration => "configuration"
    case Bug => "bug"
  }

  function TimingText(stage: string, micros: nat): string { stage + " " + Decimal(micros) }

  function KeyOfField(f: Field): Key
  {
    match f
    case ClassField(_) => WriteClass
    case TimingField(_, _) => Timing
    case _ => f.key
  }

  function ValueText(f: Field): string
  {
    match f
    case TextField(_, v) => v
    case FlagField(_, b) => FlagText(b)
    case NumberField(_, n) => Decimal(n)
    case ClassField(c) => ClassText(c)
    case TimingField(stage, micros) => TimingText(stage, micros)
  }

  /// One pushed line, without its newline.
  function LineOf(f: Field): string
  {
    KeyText(KeyOfField(f)) + " " + Flat(ValueText(f))
  }

  function Unlines(lines: seq<string>): string
  {
    if lines == [] then [] else lines[0] + "\n" + Unlines(lines[1..])
  }

  function LinesOf(fields: seq<Field>): (lines: seq<string>)
    ensures |lines| == |fields| && forall i :: 0 <= i < |fields| ==> lines[i] == LineOf(fields[i])
  {
    seq(|fields|, i requires 0 <= i < |fields| => LineOf(fields[i]))
  }

  function SerializeSpec(r: Record, o: Orders): string
    requires forall s :: s in o.stages ==> s in r.timings
  {
    Unlines([SCHEMA] + LinesOf(Fields(r, o)))
  }

  method Serialize(r: Record, o: Orders) returns (out: string)
    requires forall s :: s in o.stages ==> s in r.timings
    ensures out == SerializeSpec(r, o)
  {
    out := PushAll(Fields(r, o));
  }

  /// The schema line, then one line per field.
  method PushAll(fields: seq<Field>) returns (out: string)
    ensures out == Unlines([SCHEMA] + LinesOf(fields))
  {
    out := SCHEMA + "\n";
    assert Unlines([SCHEMA]) == out by { assert [SCHEMA] + [] == [SCHEMA]; }
    for i := 0 to |fields|
      invariant out == Unlines([SCHEMA] + LinesOf(fields[..i]))
    {
      var line := LineOf(fields[i]);
      LinesOfMore(fields, i);
      UnlinesAppend([SCHEMA] + LinesOf(fields[..i]), line);
      out := out + (line + "\n");
    }
    assert fields[..|fields|] == fields;
  }

  lemma {:induction false} OneMore(first: string, lines: seq<string>, more: seq<string>)
    requires |more| == |lines| + 1 && forall j :: 0 <= j < |lines| ==> more[j] == lines[j]
    ensures [first] + more == ([first] + lines) + [more[|lines|]]
  {
  }

  lemma {:induction false} LinesOfMore(fields: seq<Field>, i: nat)
    requires i < |fields|
    ensures [SCHEMA] + LinesOf(fields[..i + 1]) == ([SCHEMA] + LinesOf(fields[..i])) + [LineOf(fields[i])]
  {
    var (lines, more) := (LinesOf(fields[..i]), LinesOf(fields[..i + 1]));
    forall j | 0 <= j < i ensures more[j] == lines[j] {
      assert fields[..i + 1][j] == fields[..i][j];
    }
    OneMore(SCHEMA, lines, more);
  }

  lemma {:induction false} UnlinesAppend(lines: seq<string>, line: string)
    ensures Unlines(lines + [line]) == Unlines(lines) + (line + "\n")
    decreases |lines|
  {
    if lines == [] {
      assert [line] + [] == [line] && Unlines([line]) == line + "\n" + Unlines([]);
    } else {
      assert (lines + [line])[1..] == lines[1..] + [line];
      UnlinesAppend(lines[1..], line);
      assert lines[0] + "\n" + (Unlines(lines[1..]) + (line + "\n")) == (lines[0] + "\n" + Unlines(lines[1..])) + (line + "\n");
    }
  }

  // ------------------------------------------------------------------------- parsing

  datatype Parsed = Ok(record: Record) | Err(line: nat)

  function ParseFlag(v: string): Option<bool>
  {
    if v == "true" then Some(true) else if v == "false" then Some(false) else None
  }

  function ParseClass(v: string): Option<ErrorClass>
  {
    if v == "environment" then Some(Environment)
    else if v == "permission" then Some(Permission)
    else if v == "configuration" then Some(Configuration)
    else if v == "bug" then Some(Bug)
    else None
  }

  function ParseTiming(v: string): Option<Field>
  {
    var parts := SplitOnce(v);
    if parts.None? then None
    else
      var micros := ParseU64(parts.value.1);
      if micros.None? then None else Some(TimingField(parts.value.0, micros.value))
  }

  /// The field a key and its value text denote; None is an error.
  function ReadField(key: Key, v: string): Option<Field>
  {
    match KindOf(key)
    case TextKind => Some(TextField(key, v))
    case FlagKind => var b := ParseFlag(v); if b.None? then None else Some(FlagField(key, b.value))
    case NumberKind => var n := ParseU64(v); if n.None? then None else Some(NumberField(key, n.value))
    case ClassKind => var c := ParseClass(v); if c.None? then None else Some(ClassField(c.value))
    case TimingKind => ParseTiming(v)
  }

  datatype LineMeaning = Skipped | Malformed | Means(field: Field)

  /// Blank lines and unknown keys are skipped.
  function ReadLine(line: string): LineMeaning
  {
    var line := TrimEnd(line);
    if line == [] then Skipped
    else
      var parts := SplitOnce(line);
      if parts.None? then Malformed
      else
        var key := KeyOf(parts.value.0);
        if key.None? then Skipped
        else
          var f := ReadField(key.value, parts.value.1);
          if f.None? then Malformed else Means(f.value)
  }

  /// The lines after the schema line; `number` is the 1-based number of the first of them.
  function ParseLines(r: Record, lines: seq<string>, number: nat): Parsed
    decreases |lines|
  {
    if lines == [] then Ok(r)
    else
      match ReadLine(lines[0])
      case Skipped => ParseLines(r, lines[1..], number + 1)
      case Malformed => Err(number)
      case Means(f) => ParseLines(Store(r, f), lines[1..], number + 1)
  }

  predicate IsSchema(line: string)
  {
    var first := TrimStart(TrimEnd(line)); first == SCHEMA || first == LEGACY_SCHEMA
  }

  function ParseSpec(text: string): Parsed
  {
    var lines := Lines(text);
    if lines == [] || !IsSchema(lines[0]) then Err(1) else ParseLines(BLANK, lines[1..], 2)
  }

  method Parse(text: string) returns (result: Parsed)
    ensures result == ParseSpec(text)
  {
    var lines := Lines(text);
    if lines == [] || !IsSchema(lines[0]) {
      return Err(1);
    }
    result := ParseBody(lines);
  }

  /// The loop over the lines after the first.
  method ParseBody(lines: seq<string>) returns (result: Parsed)
    requires lines != []
    ensures result == ParseLines(BLANK, lines[1..], 2)
  {
    ghost var goal := ParseLines(BLANK, lines[1..], 2);
    var rec := BLANK;
    var idx := 1;
    ghost var rest := lines[1..];
    while idx < |lines|
      invariant 1 <= idx <= |lines| && rest == lines[idx..]
      invariant goal == ParseLines(rec, rest, idx + 1)
    {
      var next := idx + 1;
      assert rest[0] == lines[idx] && rest[1..] == lines[next..];
      match ReadLine(lines[idx]) {
        case Skipped =>
        case Malformed => return Err(next);
        case Means(f) => rec := Store(rec, f);
      }
      rest := rest[1..];
      idx := next;
    }
    return Ok(rec);
  }
}
