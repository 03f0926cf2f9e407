// Printing a replay record and parsing it back gives the record exactly when every text in it is
// one the line format can carry; and lines with unknown keys never matter.

module ReplayRoundTrip {
  import opened Common
  import opened Text
  import opened ReplayText
  import opened Replay

  // --------------------------------------------------------- what the format can carry

  /// Non-empty, on one line, and not ending in white space.
  predicate Clean(v: string)
  {
    v != [] && '\n' !in v && !IsSpace(v[|v| - 1])
  }

  predicate CleanStage(s: string)
  {
    ' ' !in s && '\n' !in s
  }

  ghost predicate CleanRecord(r: Record)
  {
    && Clean(r.platform)
    && (forall v :: v in r.env.varsPresent ==> Clean(v))
    && (forall v :: v in r.env.commands ==> Clean(v))
    && (r.transport.Some? ==> Clean(r.transport.value.name) && Clean(r.transport.value.reason))
    && (r.ax.Some? ==> Clean(r.ax.value.role) && Clean(r.ax.value.title)
                       && Clean(r.ax.value.text) && Clean(r.ax.value.strategy))
    && (r.intent.Some? ==> Clean(r.intent.value.kind))
    && (r.write.Some? ==> Clean(r.write.value.detail))
    && (forall s :: s in r.timings ==> CleanStage(s))
  }

  predicate CleanField(f: Field)
  {
    match f
    case TextField(_, v) => Clean(v)
    case TimingField(s, _) => CleanStage(s)
    case _ => true
  }

  // ----------------------------------------------------------- one line, there and back

  /// A value as it comes back: flattened, without trailing white space.
  function Norm(v: string): string { TrimEnd(Flat(v)) }

  lemma {:induction false} NormOf(v: string)
    ensures Norm(v) != [] ==> Clean(Norm(v)) && v != []
    ensures Norm(v) != [] && Norm(v) == v <==> Clean(v)
  {
    if Clean(v) { assert Flat(v) == v; }
  }

  lemma {:induction false} FlagRead(b: bool)
    ensures Clean(FlagText(b)) && ParseFlag(FlagText(b)) == Some(b)
  {
    assert FlagText(b)[|FlagText(b)| - 1] == 'e';
  }

  lemma {:induction false} NumberRead(n: U64)
    ensures Clean(Decimal(n)) && ParseU64(Decimal(n)) == Some(n)
  {
    ParseDecimal(n);
    assert IsDigit(Decimal(n)[|Decimal(n)| - 1]);
    assert forall i :: 0 <= i < |Decimal(n)| ==> IsDigit(Decimal(n)[i]);
  }

  lemma {:induction false} ClassRead(c: ErrorClass)
    ensures Clean(ClassText(c)) && ParseClass(ClassText(c)) == Some(c)
  {
    match c
    case Environment => assert ClassText(c)[10] == 't' && |ClassText(c)| == 11;
    case Permission => assert ClassText(c)[0] == 'p' && ClassText(c)[9] == 'n' && |ClassText(c)| == 10;
    case Configuration => assert ClassText(c)[0] == 'c' && ClassText(c)[12] == 'n' && |ClassText(c)| == 13;
    case Bug => assert ClassText(c)[2] == 'g' && |ClassText(c)| == 3;
  }

  lemma {:induction false} TimingNorm(stage: string, micros: U64)
    ensures Norm(TimingText(stage, micros)) == Flat(stage) + " " + Decimal(micros)
  {
    var v, n, s := TimingText(stage, micros), Decimal(micros), Flat(stage);
    assert forall i :: 0 <= i < |n| ==> IsDigit(n[i]);
    assert Flat(v) == s + " " + n;
    var last := |n| - 1;
    assert Flat(v)[|Flat(v)| - 1] == n[last];
  }

  lemma {:induction false} TimingRead(stage: string, micros: U64)
    ensures ParseTiming(Norm(TimingText(stage, micros)))
            == if CleanStage(stage) then Some(TimingField(stage, micros)) else None
  {
    TimingNorm(stage, micros);
    var s, n := Flat(stage), Decimal(micros);
    if CleanStage(stage) {
      NumberRead(micros);
      SplitJoined(stage, n);
    } else {
      SpaceOfUnclean(stage);
      FirstSpaceInside(s, n);
      NoNumberWithSpace(SplitOnce(s + " " + n).value.1);
    }
  }

  lemma {:induction false} SpaceOfUnclean(stage: string)
    requires !CleanStage(stage)
    ensures ' ' in Flat(stage)
  {
    var i :| 0 <= i < |stage| && (stage[i] == ' ' || stage[i] == '\n');
    assert Flat(stage)[i] == ' ';
  }

  lemma {:induction false} FirstSpaceInside(s: string, n: string)
    requires ' ' in s
    ensures SplitOnce(s + " " + n).Some? && ' ' in SplitOnce(s + " " + n).value.1
  {
    var t, i := s + " " + n, IndexOf(s, ' ');
    var j :| 0 <= j < |s| && s[j] == ' ';
    assert i <= j;
    assert forall k :: 0 <= k < i ==> t[k] == s[k];
    IndexAt(t, ' ', i);
    assert t[i + 1..][|s| - i - 1] == t[|s|] == ' ';
  }

  /// Trimming and splitting a printed line gives back the key and the trimmed value.
  lemma {:induction false} Reread(k: string, v: string)
    requires Solid(k)
    ensures var line := TrimEnd(k + " " + v);
            if TrimEnd(v) == [] then line == k && SplitOnce(line) == None
            else line != [] && SplitOnce(line) == Some((k, TrimEnd(v)))
  {
    TrimEndConcat(k + " ", v);
    TrimEndConcat(k, " ");
    assert TrimEnd(" ") == [] && TrimEnd(k) == k;
    if TrimEnd(v) != [] {
      SplitJoined(k, TrimEnd(v));
    }
  }

  /// The field that comes back: a text is trimmed, anything else is unchanged.
  function NormField(f: Field): Field
  {
    if f.TextField? then f.(text := Norm(f.text)) else f
  }

  /// A field whose text vanishes, or whose stage would be split in the wrong place.
  predicate Lost(f: Field)
  {
    match f
    case TextField(_, v) => Norm(v) == []
    case TimingField(s, _) => !CleanStage(s)
    case _ => false
  }

  ghost predicate Comes(f: Field)
  {
    if Lost(f) then Norm(ValueText(f)) == [] || ReadField(KeyOfField(f), Norm(ValueText(f))) == None
    else Norm(ValueText(f)) != [] && ReadField(KeyOfField(f), Norm(ValueText(f))) == Some(NormField(f))
  }

  lemma {:induction false} TextComes(f: Field)
    requires f.TextField? && f.WellKeyed()
    ensures Comes(f)
  {
  }

  lemma {:induction false} FlagComes(f: Field)
    requires f.FlagField? && f.WellKeyed()
    ensures Comes(f)
  {
    FlagRead(f.flag);
    NormOf(FlagText(f.flag));
  }

  lemma {:induction false} NumberComes(f: Field)
    requires f.NumberField? && f.WellKeyed()
    ensures Comes(f)
  {
    NumberRead(f.number);
    NormOf(Decimal(f.number));
  }

  lemma {:induction false} ClassKeyReads(v: string, c: ErrorClass)
    requires ParseClass(v) == Some(c)
    ensures ReadField(WriteClass, v) == Some(ClassField(c))
  {
  }

  lemma {:induction false} ClassComes(f: Field)
    requires f.ClassField?
    ensures Comes(f)
  {
    var v := ClassText(f.errorClass);
    ClassRead(f.errorClass);
    NormOf(v);
    assert ValueText(f) == v && KeyOfField(f) == WriteClass;
    ClassKeyReads(v, f.errorClass);
  }

  lemma {:induction false} TimingComes(f: Field)
    requires f.TimingField?
    ensures Comes(f)
  {
    var v := Norm(TimingText(f.stage, f.micros));
    assert v != [] by { TimingNorm(f.stage, f.micros); }
    assert ValueText(f) == TimingText(f.stage, f.micros) && KeyOfField(f) == Timing;
    TimingRead(f.stage, f.micros);
    TimingKeyReads(v);
  }

  lemma {:induction false} TimingKeyReads(v: string)
    ensures ReadField(Timing, v) == ParseTiming(v)
  {
  }

  lemma {:induction false} ValueRead(f: Field)
    requires f.WellKeyed()
    ensures Comes(f)
  {
    match f
    case TextField(_, _) => TextComes(f);
    case FlagField(_, _) => FlagComes(f);
    case NumberField(_, _) => NumberComes(f);
    case ClassField(_) => ClassComes(f);
    case TimingField(_, _) => TimingComes(f);
  }

  lemma {:induction false} LineRead(f: Field)
    requires f.WellKeyed()
    ensures ReadLine(LineOf(f)) == if Lost(f) then Malformed else Means(NormField(f))
  {
    KeyIsSolid(KeyOfField(f));
    KeyOfText(KeyOfField(f));
    Reread(KeyText(KeyOfField(f)), Flat(ValueText(f)));
    ValueRead(f);
  }

  // ------------------------------------------------------------------------ all lines

  ghost predicate AllWellKeyed(fs: seq<Field>)
  {
    forall i :: 0 <= i < |fs| ==> fs[i].WellKeyed()
  }

  function StoreAll(r: Record, fs: seq<Field>): Record
    decreases |fs|
  {
    if fs == [] then r else StoreAll(Store(r, fs[0]), fs[1..])
  }

  function NormFields(fs: seq<Field>): (gs: seq<Field>)
    ensures |gs| == |fs| && forall i :: 0 <= i < |fs| ==> gs[i] == NormField(fs[i])
  {
    seq(|fs|, i requires 0 <= i < |fs| => NormField(fs[i]))
  }

  ghost predicate SomeLost(fs: seq<Field>)
  {
    exists i :: 0 <= i < |fs| && Lost(fs[i])
  }

  lemma {:induction false} SomeLostHead(fs: seq<Field>)
    requires fs != []
    ensures SomeLost(fs) <==> Lost(fs[0]) || SomeLost(fs[1..])
  {
    if i :| 0 <= i < |fs| && Lost(fs[i]) {
      if i > 0 { assert Lost(fs[1..][i - 1]); }
    }
    if j :| 0 <= j < |fs[1..]| && Lost(fs[1..][j]) {
      assert Lost(fs[j + 1]);
    }
  }

  lemma {:induction false} OneLine(r: Record, lines: seq<string>, number: nat)
    requires lines != [] && !ReadLine(lines[0]).Skipped?
    ensures ParseLines(r, lines, number) ==
            if ReadLine(lines[0]).Malformed? then Err(number)
            else ParseLines(Store(r, ReadLine(lines[0]).field), lines[1..], number + 1)
  {
  }

  lemma {:induction false} LinesRead(r: Record, fs: seq<Field>, number: nat)
    requires AllWellKeyed(fs)
    ensures var parsed := ParseLines(r, LinesOf(fs), number);
            if SomeLost(fs) then parsed.Err? else parsed == Ok(StoreAll(r, NormFields(fs)))
    decreases |fs|
  {
    if fs != [] {
      LineRead(fs[0]);
      SomeLostHead(fs);
      OneLine(r, LinesOf(fs), number);
      if !Lost(fs[0]) {
        assert LinesOf(fs)[1..] == LinesOf(fs[1..]) && NormFields(fs)[1..] == NormFields(fs[1..]);
        LinesRead(Store(r, NormField(fs[0])), fs[1..], number + 1);
      }
    }
  }

  lemma {:induction false} LinesOfUnlines(lines: seq<string>)
    requires forall i :: 0 <= i < |lines| ==> '\n' !in lines[i]
    ensures Lines(Unlines(lines)) == lines
    decreases |lines|
  {
    if lines != [] {
      LinesOfLine(lines[0], Unlines(lines[1..]));
      LinesOfUnlines(lines[1..]);
    }
  }

  lemma {:induction false} SchemaRecognised()
    ensures IsSchema(SCHEMA) && '\n' !in SCHEMA
  {
    assert SCHEMA[|SCHEMA| - 1] == '1' && SCHEMA[0] == 'o';
    assert TrimEnd(SCHEMA) == SCHEMA;
  }

  lemma {:induction false} OnOneLine(f: Field)
    ensures '\n' !in LineOf(f)
  {
    KeyIsSolid(KeyOfField(f));
  }

  lemma {:induction false} FieldsWellKeyed(r: Record, o: Orders)
    requires forall s :: s in o.stages ==> s in r.timings
    ensures AllWellKeyed(Fields(r, o))
  {
    HeadWellKeyed(r);
    SectionsWellKeyed(r);
    var a := HeadFields(r) + TextFields(EnvVar, o.vars) + TextFields(EnvCmd, o.commands);
    assert AllWellKeyed(a);
    var b := a + TransportFields(r.transport) + AxFields(r.ax) + IntentFields(r.intent);
    assert AllWellKeyed(b);
    assert AllWellKeyed(b + TransformFields(r.transform) + WriteFields(r.write));
  }

  lemma {:induction false} HeadWellKeyed(r: Record)
    ensures AllWellKeyed(HeadFields(r))
  {
  }

  lemma {:induction false} SectionsWellKeyed(r: Record)
    ensures AllWellKeyed(TransportFields(r.transport)) && AllWellKeyed(AxFields(r.ax)) && AllWellKeyed(IntentFields(r.intent))
    ensures AllWellKeyed(TransformFields(r.transform)) && AllWellKeyed(WriteFields(r.write))
  {
    GeometryWellKeyed(r.transform);
    WriteWellKeyed(r.write);
  }

  lemma {:induction false} GeometryWellKeyed(t: Option<Transform>)
    ensures AllWellKeyed(TransformFields(t))
  {
  }

  lemma {:induction false} WriteWellKeyed(w: Option<Write>)
    ensures AllWellKeyed(WriteFields(w))
  {
  }

  lemma {:induction false} ParseOfSerialize(r: Record, o: Orders)
    requires forall s :: s in o.stages ==> s in r.timings
    ensures var parsed, fs := ParseSpec(SerializeSpec(r, o)), Fields(r, o);
            if SomeLost(fs) then parsed.Err? else parsed == Ok(StoreAll(BLANK, NormFields(fs)))
  {
    var fs := Fields(r, o);
    var lines := [SCHEMA] + LinesOf(fs);
    SchemaRecognised();
    forall i | 0 <= i < |lines|
      ensures '\n' !in lines[i]
    {
      if i > 0 { OnOneLine(fs[i - 1]); }
    }
    LinesOfUnlines(lines);
    assert lines[1..] == LinesOf(fs);
    FieldsWellKeyed(r, o);
    LinesRead(BLANK, fs, 2);
  }

  // ------------------------------------------------------- fields make up the record

  lemma {:induction false} StoreAllConcat(r: Record, a: seq<Field>, b: seq<Field>)
    ensures StoreAll(r, a + b) == StoreAll(StoreAll(r, a), b)
    decreases |a|
  {
    if a == [] {
      assert a + b == b;
    } else {
      assert (a + b)[1..] == a[1..] + b;
      StoreAllConcat(Store(r, a[0]), a[1..], b);
    }
  }

  lemma {:induction false} StoreFew(r: Record, a: Field, b: Field, c: Field)
    ensures StoreAll(r, []) == r && StoreAll(r, [a]) == Store(r, a)
    ensures StoreAll(r, [a, b]) == Store(Store(r, a), b)
    ensures StoreAll(r, [a, b, c]) == Store(Store(Store(r, a), b), c)
  {
    StoreHeadTail(r, a, []);
    StoreHeadTail(r, a, [b]);
    StoreHeadTail(Store(r, a), b, []);
    StoreHeadTail(r, a, [b, c]);
    StoreHeadTail(Store(r, a), b, [c]);
    StoreHeadTail(Store(Store(r, a), b), c, []);
    assert [a] + [] == [a] && [b] + [] == [b] && [c] + [] == [c];
    assert [a] + [b] == [a, b] && [a] + [b, c] == [a, b, c] && [b] + [c] == [b, c];
  }

  lemma {:induction false} StoreHeadTail(r: Record, a: Field, rest: seq<Field>)
    ensures StoreAll(r, [a] + rest) == StoreAll(Store(r, a), rest)
  {
    assert ([a] + rest)[1..] == rest;
  }

  lemma {:induction false} StoreHead(r: Record)
    ensures StoreAll(BLANK, HeadFields(r)) == BLANK.(platform := r.platform, env := r.env.(varsPresent := {}, commands := {}))
  {
    var f := HeadFields(r);
    assert f == [f[0], f[1], f[2]] + [f[3], f[4]];
    StoreAllConcat(BLANK, [f[0], f[1], f[2]], [f[3], f[4]]);
    StoreFew(BLANK, f[0], f[1], f[2]);
    StoreFew(StoreAll(BLANK, [f[0], f[1], f[2]]), f[3], f[4], f[4]);
  }

  function Members(vs: seq<string>): set<string> { set v | v in vs }

  lemma {:induction false} StoreVars(r: Record, vs: seq<string>)
    ensures StoreAll(r, TextFields(EnvVar, vs)) == r.(env := r.env.(varsPresent := r.env.varsPresent + Members(vs)))
    decreases |vs|
  {
    if vs == [] {
      assert r.env.varsPresent + Members(vs) == r.env.varsPresent;
    } else {
      var f := TextFields(EnvVar, vs);
      assert f[0] == TextField(EnvVar, vs[0]) && f[1..] == TextFields(EnvVar, vs[1..]);
      StoreVars(Store(r, f[0]), vs[1..]);
      MembersHead(r.env.varsPresent, vs);
    }
  }

  lemma {:induction false} StoreCommands(r: Record, vs: seq<string>)
    ensures StoreAll(r, TextFields(EnvCmd, vs)) == r.(env := r.env.(commands := r.env.commands + Members(vs)))
    decreases |vs|
  {
    if vs == [] {
      assert r.env.commands + Members(vs) == r.env.commands;
    } else {
      var f := TextFields(EnvCmd, vs);
      assert f[0] == TextField(EnvCmd, vs[0]) && f[1..] == TextFields(EnvCmd, vs[1..]);
      StoreCommands(Store(r, f[0]), vs[1..]);
      MembersHead(r.env.commands, vs);
    }
  }

  lemma {:induction false} MembersHead(s: set<string>, vs: seq<string>)
    requires vs != []
    ensures s + {vs[0]} + Members(vs[1..]) == s + Members(vs)
  {
    assert vs == [vs[0]] + vs[1..];
  }

  lemma {:induction false} StoreTransport(r: Record, t: Option<Transport>)
    requires r.transport == None
    ensures StoreAll(r, TransportFields(t)) == r.(transport := t)
  {
    if t.Some? {
      var f := TransportFields(t);
      StoreFew(r, f[0], f[1], f[1]);
    }
  }

  lemma {:induction false} StoreAx(r: Record, a: Option<Ax>)
    requires r.ax == None
    ensures StoreAll(r, AxFields(a)) == r.(ax := a)
  {
    if a.Some? {
      var f := AxFields(a);
      assert f == [f[0], f[1]] + [f[2], f[3]];
      StoreAllConcat(r, [f[0], f[1]], [f[2], f[3]]);
      StoreFew(r, f[0], f[1], f[1]);
      StoreFew(StoreAll(r, [f[0], f[1]]), f[2], f[3], f[3]);
    }
  }

  lemma {:induction false} StoreIntent(r: Record, i: Option<Intent>)
    requires r.intent == None
    ensures StoreAll(r, IntentFields(i)) == r.(intent := i)
  {
    if i.Some? {
      var f := IntentFields(i);
      StoreFew(r, f[0], f[1], f[2]);
    }
  }

  lemma {:induction false} StoreTransform(r: Record, t: Option<Transform>)
    requires r.transform == None
    ensures StoreAll(r, TransformFields(t)) == r.(transform := t)
  {
    if t.Some? {
      var f := TransformFields(t);
      assert f == [f[0], f[1], f[2]] + [f[3], f[4]];
      StoreAllConcat(r, [f[0], f[1], f[2]], [f[3], f[4]]);
      StoreFew(r, f[0], f[1], f[2]);
      StoreFew(StoreAll(r, [f[0], f[1], f[2]]), f[3], f[4], f[4]);
    }
  }

  lemma {:induction false} StoreWrite(r: Record, w: Option<Write>)
    requires r.write == None
    ensures StoreAll(r, WriteFields(w)) == r.(write := w)
  {
    if w.Some? {
      var f := WriteFields(w);
      if w.value.errorClass.Some? {
        assert f == [f[0], f[1], f[2]];
        StoreFew(r, f[0], f[1], f[2]);
      } else {
        assert f == [f[0], f[1]];
        StoreFew(r, f[0], f[1], f[1]);
      }
    }
  }

  lemma {:induction false} StoreTimings(r: Record, stages: seq<string>, m: map<string, U64>)
    requires forall s :: s in stages ==> s in m
    ensures var t := StoreAll(r, TimingFields(stages, m));
            && t == r.(timings := t.timings)
            && (forall s :: s in t.timings <==> s in r.timings || s in stages)
            && (forall s :: s in t.timings ==> t.timings[s] == if s in stages then m[s] else r.timings[s])
    decreases |stages|
  {
    if stages != [] {
      assert TimingFields(stages, m)[1..] == TimingFields(stages[1..], m);
      StoreTimings(Store(r, TimingField(stages[0], m[stages[0]])), stages[1..], m);
      assert stages == [stages[0]] + stages[1..];
    }
  }

  /// Storing a record's own fields rebuilds it.
  lemma {:induction false} Rebuild(r: Record, o: Orders)
    requires OrdersOf(o, r)
    ensures StoreAll(BLANK, Fields(r, o)) == r
  {
    var f1 := HeadFields(r);
    var f2 := f1 + TextFields(EnvVar, o.vars);
    var f3 := f2 + TextFields(EnvCmd, o.commands);
    StoreAllConcat(BLANK, f1, TextFields(EnvVar, o.vars));
    StoreAllConcat(BLANK, f2, TextFields(EnvCmd, o.commands));
    StoreHead(r);
    var x1 := StoreAll(BLANK, f1);
    StoreVars(x1, o.vars);
    assert {} + Members(o.vars) == r.env.varsPresent && {} + Members(o.commands) == r.env.commands;
    StoreCommands(StoreAll(BLANK, f2), o.commands);
    assert StoreAll(BLANK, f3) == BLANK.(platform := r.platform, env := r.env);
    RebuildSections(r, o, f3);
  }

  lemma {:induction false} RebuildSections(r: Record, o: Orders, f3: seq<Field>)
    requires OrdersOf(o, r) && StoreAll(BLANK, f3) == BLANK.(platform := r.platform, env := r.env)
    ensures StoreAll(BLANK, f3 + TransportFields(r.transport) + AxFields(r.ax) + IntentFields(r.intent)
                            + TransformFields(r.transform) + WriteFields(r.write) + TimingFields(o.stages, r.timings)) == r
  {
    var x := BLANK.(platform := r.platform, env := r.env);
    var f4 := f3 + TransportFields(r.transport);
    var f5 := f4 + AxFields(r.ax);
    var f6 := f5 + IntentFields(r.intent);
    var f7 := f6 + TransformFields(r.transform);
    var f8 := f7 + WriteFields(r.write);
    StoreAllConcat(BLANK, f3, TransportFields(r.transport)); StoreTransport(x, r.transport);
    StoreAllConcat(BLANK, f4, AxFields(r.ax)); StoreAx(StoreAll(BLANK, f4), r.ax);
    StoreAllConcat(BLANK, f5, IntentFields(r.intent)); StoreIntent(StoreAll(BLANK, f5), r.intent);
    StoreAllConcat(BLANK, f6, TransformFields(r.transform)); StoreTransform(StoreAll(BLANK, f6), r.transform);
    StoreAllConcat(BLANK, f7, WriteFields(r.write)); StoreWrite(StoreAll(BLANK, f7), r.write);
    StoreAllConcat(BLANK, f8, TimingFields(o.stages, r.timings)); StoreTimings(StoreAll(BLANK, f8), o.stages, r.timings);
    assert StoreAll(StoreAll(BLANK, f8), TimingFields(o.stages, r.timings)).timings == r.timings;
  }

  // -------------------------------------------------------- what parsing can ever yield

  predicate CleanOrBlank(v: string) { v == "" || Clean(v) }

  ghost predicate Parseable(r: Record)
  {
    && CleanOrBlank(r.platform)
    && (forall v :: v in r.env.varsPresent ==> Clean(v))
    && (forall v :: v in r.env.commands ==> Clean(v))
    && CleanOrBlank(TransportOf(r).name) && CleanOrBlank(TransportOf(r).reason)
    && CleanOrBlank(AxOf(r).role) && CleanOrBlank(AxOf(r).title)
    && CleanOrBlank(AxOf(r).text) && CleanOrBlank(AxOf(r).strategy)
    && CleanOrBlank(IntentOf(r).kind) && CleanOrBlank(WriteOf(r).detail)
    && (forall s :: s in r.timings ==> CleanStage(s))
  }

  lemma {:induction false} StoreTextParseable(r: Record, key: Key, v: string)
    requires Parseable(r) && Clean(v)
    ensures Parseable(StoreText(r, key, v))
  {
  }

  lemma {:induction false} StoreParseable(r: Record, f: Field)
    requires Parseable(r) && CleanField(f)
    ensures Parseable(Store(r, f))
  {
    match f
    case TextField(key, v) => StoreTextParseable(r, key, v);
    case FlagField(key, b) => StoreOthersParseable(r, key, b, 0);
    case NumberField(key, n) => StoreOthersParseable(r, key, false, n);
    case _ =>
  }

  lemma {:induction false} StoreOthersParseable(r: Record, key: Key, b: bool, n: U64)
    requires Parseable(r)
    ensures Parseable(StoreFlag(r, key, b)) && Parseable(StoreNumber(r, key, n))
  {
  }

  lemma {:induction false} StoreAllParseable(r: Record, fs: seq<Field>)
    requires Parseable(r) && forall i :: 0 <= i < |fs| ==> CleanField(fs[i])
    ensures Parseable(StoreAll(r, fs))
    decreases |fs|
  {
    if fs != [] {
      assert CleanField(fs[0]);
      forall i | 0 <= i < |fs[1..]|
        ensures CleanField(fs[1..][i])
      {
        assert fs[1..][i] == fs[i + 1];
      }
      StoreParseable(r, fs[0]);
      StoreAllParseable(Store(r, fs[0]), fs[1..]);
    }
  }

  ghost predicate NoneBlank(r: Record)
  {
    && r.platform != ""
    && (r.transport.Some? ==> r.transport.value.name != "" && r.transport.value.reason != "")
    && (r.ax.Some? ==> r.ax.value.role != "" && r.ax.value.title != "" && r.ax.value.text != "" && r.ax.value.strategy != "")
    && (r.intent.Some? ==> r.intent.value.kind != "")
    && (r.write.Some? ==> r.write.value.detail != "")
  }

  predicate InSections(r: Record, f: Field)
  {
    || f in HeadFields(r) || f in TransportFields(r.transport) || f in AxFields(r.ax)
    || f in IntentFields(r.intent) || f in WriteFields(r.write)
  }

  lemma {:induction false} SectionFieldKept(r: Record, o: Orders, f: Field)
    requires OrdersOf(o, r) && !SomeLost(Fields(r, o)) && InSections(r, f)
    ensures !Lost(f)
  {
    assert f in Fields(r, o);
    var i :| 0 <= i < |Fields(r, o)| && Fields(r, o)[i] == f;
  }

  /// A section none of whose fields is lost has no blank text.
  lemma {:induction false} KeptMeansNotBlank(r: Record)
    requires forall f :: InSections(r, f) ==> !Lost(f)
    ensures NoneBlank(r)
  {
    assert Norm("") == "";
    assert InSections(r, HeadFields(r)[0]);
    if r.transport.Some? {
      var f := TransportFields(r.transport);
      assert InSections(r, f[0]) && InSections(r, f[1]);
    }
    if r.ax.Some? {
      var f := AxFields(r.ax);
      assert InSections(r, f[0]) && InSections(r, f[1]) && InSections(r, f[2]) && InSections(r, f[3]);
    }
    if r.intent.Some? { assert InSections(r, IntentFields(r.intent)[0]); }
    if r.write.Some? { assert InSections(r, WriteFields(r.write)[1]); }
  }

  lemma {:induction false} NothingLostNothingBlank(r: Record, o: Orders)
    requires OrdersOf(o, r) && !SomeLost(Fields(r, o))
    ensures NoneBlank(r)
  {
    forall f | InSections(r, f) ensures !Lost(f) { SectionFieldKept(r, o, f); }
    KeptMeansNotBlank(r);
  }

  lemma {:induction false} CleanFields(r: Record, o: Orders)
    requires OrdersOf(o, r) && CleanRecord(r)
    ensures forall f :: f in Fields(r, o) ==> CleanField(f)
  {
    forall f | f in Fields(r, o)
      ensures CleanField(f)
    {
      if f in TextFields(EnvVar, o.vars) || f in TextFields(EnvCmd, o.commands) || f in TimingFields(o.stages, r.timings) {
      } else {
        assert f in HeadFields(r) || f in TransportFields(r.transport) || f in AxFields(r.ax)
            || f in IntentFields(r.intent) || f in TransformFields(r.transform) || f in WriteFields(r.write);
      }
    }
  }

  /// Parsing what was printed gives back the record exactly when the record is clean.
  lemma {:induction false} RoundTripIffClean(r: Record, o: Orders)
    requires OrdersOf(o, r)
    ensures ParseSpec(SerializeSpec(r, o)) == Ok(r) <==> CleanRecord(r)
  {
    ParseOfSerialize(r, o);
    if CleanRecord(r) {
      CleanRoundTrip(r, o);
    }
    if ParseSpec(SerializeSpec(r, o)) == Ok(r) {
      UncleanIsLost(r, o);
    }
  }

  lemma {:induction false} CleanRoundTrip(r: Record, o: Orders)
    requires OrdersOf(o, r) && CleanRecord(r)
    ensures ParseSpec(SerializeSpec(r, o)) == Ok(r)
  {
    ParseOfSerialize(r, o);
    CleanFields(r, o);
    var fs := Fields(r, o);
    forall i | 0 <= i < |fs|
      ensures !Lost(fs[i]) && NormField(fs[i]) == fs[i]
    {
      assert fs[i] in fs;
      if fs[i].TextField? { NormOf(fs[i].text); }
    }
    assert NormFields(fs) == fs;
    Rebuild(r, o);
  }

  lemma {:induction false} FieldsClean(r: Record, o: Orders)
    requires OrdersOf(o, r) && forall i :: 0 <= i < |Fields(r, o)| ==> !Lost(Fields(r, o)[i])
    ensures var fs := NormFields(Fields(r, o)); forall i :: 0 <= i < |fs| ==> CleanField(fs[i])
  {
    var fs := NormFields(Fields(r, o));
    forall i | 0 <= i < |fs|
      ensures CleanField(fs[i])
    {
      var f := Fields(r, o)[i];
      assert !Lost(f);
      if f.TextField? { NormOf(f.text); }
    }
  }

  lemma {:induction false} BlankParseable()
    ensures Parseable(BLANK)
  {
  }

  lemma {:induction false} UncleanIsLost(r: Record, o: Orders)
    requires OrdersOf(o, r) && ParseSpec(SerializeSpec(r, o)) == Ok(r)
    ensures CleanRecord(r)
  {
    ParseOfSerialize(r, o);
    NothingLostNothingBlank(r, o);
    FieldsClean(r, o);
    BlankParseable();
    StoreAllParseable(BLANK, NormFields(Fields(r, o)));
  }

  // --------------------------------------------------------- forward compatibility

  /// A well-formed line whose key this version does not know.
  predicate Foreign(line: string)
  {
    var line := TrimEnd(line);
    line != [] && SplitOnce(line).Some? && KeyOf(SplitOnce(line).value.0).None?
  }

  ghost predicate Agree(a: Parsed, b: Parsed)
  {
    if a.Ok? then b == a else b.Err?
  }

  /// Inserting such a line anywhere after the schema line does not change the result.
  lemma {:induction false} ForeignLinesIgnored(r: Record, before: seq<string>, line: string, after: seq<string>, n: nat, m: nat)
    requires Foreign(line)
    ensures Agree(ParseLines(r, before + after, n), ParseLines(r, before + [line] + after, m))
    decreases |before|
  {
    if before == [] {
      assert before + after == after && (before + [line] + after)[1..] == after;
      NumberingIrrelevant(r, after, n, m + 1);
    } else {
      assert (before + after)[1..] == before[1..] + after;
      assert (before + [line] + after)[1..] == before[1..] + [line] + after;
      match ReadLine(before[0])
      case Skipped => ForeignLinesIgnored(r, before[1..], line, after, n + 1, m + 1);
      case Malformed =>
      case Means(f) => ForeignLinesIgnored(Store(r, f), before[1..], line, after, n + 1, m + 1);
    }
  }

  lemma {:induction false} NumberingIrrelevant(r: Record, lines: seq<string>, n: nat, m: nat)
    ensures Agree(ParseLines(r, lines, n), ParseLines(r, lines, m))
    decreases |lines|
  {
    if lines != [] {
      match ReadLine(lines[0])
      case Skipped => NumberingIrrelevant(r, lines[1..], n + 1, m + 1);
      case Malformed =>
      case Means(f) => NumberingIrrelevant(Store(r, f), lines[1..], n + 1, m + 1);
    }
  }
}
