// What the parser makes of any text, line by line: which line stops it, and from which line each part
// of the record comes.

module ReplayReading {
  import opened Common
  import opened Text
  import opened ReplayText
  import opened Replay

  // ------------------------------------------------------------------- what a line says

  /// The line is the key, a space and the value, up to white space at its end.
  ghost predicate Says(line: string, key: string, v: string) { TrimEnd(line) == key + " " + v }

  ghost predicate Speaks(line: string, key: string) { exists v :: Says(line, key, v) }

  lemma {:induction false} AmongIsText(s: string, keys: seq<Key>)
    ensures KeyAmong(s, keys).Some? ==> KeyText(KeyAmong(s, keys).value) == s
  {
    if keys != [] && KeyText(keys[0]) != s { AmongIsText(s, keys[1..]); }
  }

  lemma {:induction false} KeyOfIs(s: string)
    ensures KeyOf(s).Some? ==> KeyText(KeyOf(s).value) == s
  {
    AmongIsText(s, KEYS);
  }

  lemma {:induction false} Unsplit(s: string)
    ensures SplitOnce(s).Some? ==> s == SplitOnce(s).value.0 + " " + SplitOnce(s).value.1
    ensures SplitOnce(s).Some? ==> ' ' !in SplitOnce(s).value.0
    ensures SplitOnce(s).None? <==> ' ' !in s
  {
    var i := IndexOf(s, ' ');
    if i < |s| { assert s == s[..i] + [s[i]] + s[i + 1..]; }
  }

  lemma {:induction false} SplitsAt(k: Key, s: string, v: string)
    ensures s == KeyText(k) + " " + v <==> SplitOnce(s) == Some((KeyText(k), v))
  {
    KeyIsSolid(k);
    SplitJoined(KeyText(k), v);
    Unsplit(s);
  }

  /// What is read of a line with a known key.
  lemma {:induction false} SaysReads(line: string, k: Key, v: string)
    requires Says(line, KeyText(k), v)
    ensures ReadLine(line) == if ReadField(k, v).None? then Malformed else Means(ReadField(k, v).value)
  {
    SplitsAt(k, TrimEnd(line), v);
    KeyOfText(k);
  }

  lemma {:induction false} ReadFieldKey(k: Key, v: string)
    ensures ReadField(k, v).Some? ==> KeyOfField(ReadField(k, v).value) == k && ReadField(k, v).value.WellKeyed()
  {
  }

  /// A line that means something says it.
  lemma {:induction false} ReadsSaid(line: string) returns (v: string)
    requires ReadLine(line).Means?
    ensures var f := ReadLine(line).field;
            f.WellKeyed() && Says(line, KeyText(KeyOfField(f)), v) && ReadField(KeyOfField(f), v) == Some(f)
  {
    var parts := SplitOnce(TrimEnd(line)).value;
    var k := KeyOf(parts.0).value;
    v := parts.1;
    Unsplit(TrimEnd(line));
    KeyOfIs(parts.0);
    ReadFieldKey(k, v);
  }

  lemma {:induction false} OneKey(line: string, j: Key, k: Key, v: string, w: string)
    requires Says(line, KeyText(j), v) && Says(line, KeyText(k), w)
    ensures j == k && v == w
  {
    SplitsAt(j, TrimEnd(line), v);
    SplitsAt(k, TrimEnd(line), w);
    if j != k { KeysDiffer(j, k); }
  }

  // -------------------------------------------------------------------- which line stops it

  predicate AllSpaces(s: string) { forall i :: 0 <= i < |s| ==> IsSpace(s[i]) }

  /// s with white space before and after it.
  ghost predicate Padded(line: string, s: string)
  {
    exists a, b :: AllSpaces(a) && AllSpaces(b) && line == a + s + b
  }

  lemma {:induction false} TrimStartIs(a: string, s: string)
    requires AllSpaces(a) && s != [] && !IsSpace(s[0])
    ensures TrimStart(a + s) == s
    decreases |a|
  {
    if a == [] {
      assert a + s == s;
    } else {
      assert (a + s)[1..] == a[1..] + s;
      TrimStartIs(a[1..], s);
    }
  }

  lemma {:induction false} TrimStartDrops(s: string) returns (a: string)
    ensures AllSpaces(a) && s == a + TrimStart(s)
  {
    a := [];
    if s != [] && IsSpace(s[0]) {
      var b := TrimStartDrops(s[1..]);
      a := [s[0]] + b;
      assert s == [s[0]] + s[1..];
    } else {
      assert [] + s == s;
    }
  }

  lemma {:induction false} TrimEndNone(b: string)
    requires AllSpaces(b)
    ensures TrimEnd(b) == []
    decreases |b|
  {
    if b != [] { TrimEndNone(b[..|b| - 1]); }
  }

  lemma {:induction false} PaddedTrims(a: string, s: string, b: string)
    requires s != [] && !IsSpace(s[0]) && !IsSpace(s[|s| - 1]) && AllSpaces(a) && AllSpaces(b)
    ensures TrimStart(TrimEnd(a + s + b)) == s
  {
    TrimEndNone(b);
    TrimEndConcat(a + s, b);
    TrimEndConcat(a, s);
    assert TrimEnd(s) == s;
    TrimStartIs(a, s);
  }

  lemma {:induction false} TrimsPadded(line: string)
    ensures Padded(line, TrimStart(TrimEnd(line)))
  {
    var (t, s) := (TrimEnd(line), TrimStart(TrimEnd(line)));
    var a := TrimStartDrops(t);
    var b := line[|t|..];
    assert line == a + s + b;
    assert AllSpaces(b);
  }

  lemma {:induction false} TrimmedIff(line: string, s: string)
    requires s != [] && !IsSpace(s[0]) && !IsSpace(s[|s| - 1])
    ensures TrimStart(TrimEnd(line)) == s <==> Padded(line, s)
  {
    TrimsPadded(line);
    if Padded(line, s) {
      var a, b :| AllSpaces(a) && AllSpaces(b) && line == a + s + b;
      PaddedTrims(a, s, b);
    }
  }

  lemma {:induction false} SchemaIff(line: string)
    ensures IsSchema(line) <==> Padded(line, "outloud-replay v1") || Padded(line, "aqua-replay v1")
  {
    var (now, then_) := ("outloud-replay v1", "aqua-replay v1");
    assert now[0] == 'o' && now[|now| - 1] == '1' && then_[0] == 'a' && then_[|then_| - 1] == '1';
    TrimmedIff(line, now);
    TrimmedIff(line, then_);
  }

  predicate AllZeros(s: string) { forall i :: 0 <= i < |s| ==> s[i] == '0' }

  /// Nothing but digits: zeros, then the number as it is printed; a plus sign may stand before them.
  ghost predicate IsNumber(v: string, n: nat)
  {
    exists plus, zeros :: Written(v, plus, zeros, n)
  }

  ghost predicate Written(v: string, plus: string, zeros: string, n: nat)
  {
    (plus == "" || plus == "+") && AllZeros(zeros) && v == plus + zeros + Decimal(n)
  }

  /// One more digit after zeros and a number.
  lemma {:induction false} OneMoreDigit(zeros: string, n: nat, c: char) returns (more: string)
    requires AllZeros(zeros) && IsDigit(c)
    ensures AllZeros(more) && zeros + Decimal(n) + [c] == more + Decimal(n * 10 + (c as int - '0' as int))
  {
    DigitOf(c);
    if n == 0 {
      more := zeros + "0";
      assert Decimal(0) == "0" && Decimal(c as int - '0' as int) == [c];
    } else {
      more := zeros;
      assert Decimal(n * 10 + (c as int - '0' as int)) == Decimal(n) + [c];
      assert zeros + Decimal(n) + [c] == zeros + (Decimal(n) + [c]);
    }
  }

  lemma {:induction false} Zeros(d: string) returns (zeros: string)
    requires d != [] && AllDigits(d)
    ensures AllZeros(zeros) && d == zeros + Decimal(ValueOf(d))
    decreases |d|
  {
    var (init, c) := (d[..|d| - 1], d[|d| - 1]);
    assert d == init + [c];
    if init == [] {
      DigitOf(c);
      zeros := [];
      assert d == [] + [c] && ValueOf([]) == 0;
    } else {
      var before := Zeros(init);
      zeros := OneMoreDigit(before, ValueOf(init), c);
    }
  }

  lemma {:induction false} DigitOf(c: char)
    requires IsDigit(c)
    ensures Digit(c as int - '0' as int) == c
  {
  }

  lemma {:induction false} ZerosCountNothing(zeros: string, d: string)
    requires AllZeros(zeros) && AllDigits(d)
    ensures AllDigits(zeros + d) && ValueOf(zeros + d) == ValueOf(d)
    decreases |zeros| + |d|
  {
    if d != [] {
      assert (zeros + d)[..|zeros + d| - 1] == zeros + d[..|d| - 1];
      ZerosCountNothing(zeros, d[..|d| - 1]);
    } else if zeros != [] {
      assert (zeros + d)[..|zeros + d| - 1] == zeros[..|zeros| - 1] + d;
      ZerosCountNothing(zeros[..|zeros| - 1], d);
    }
  }

  /// A value is read as n exactly when it is a way of writing n that fits into 64 bits.
  lemma {:induction false} NumberIff(v: string, n: nat)
    ensures ParseU64(v) == Some(n) <==> n < LIMIT && IsNumber(v, n)
  {
    if ParseU64(v) == Some(n) {
      var plus, zeros := ReadIsWritten(v, n);
    }
    if IsNumber(v, n) {
      var plus, zeros :| Written(v, plus, zeros, n);
      WrittenIsRead(zeros, plus, n);
    }
  }

  lemma {:induction false} ReadIsWritten(v: string, n: nat) returns (plus: string, zeros: string)
    requires ParseU64(v) == Some(n)
    ensures Written(v, plus, zeros, n)
  {
    plus := if v[0] == '+' then "+" else "";
    var digits := v[|plus|..];
    assert AllDigits(digits) && digits != [] && ValueOf(digits) == n;
    zeros := Zeros(digits);
    Rejoined(v, plus, digits, zeros, Decimal(n));
  }

  lemma {:induction false} Rejoined(v: string, plus: string, digits: string, zeros: string, number: string)
    requires plus <= v && digits == v[|plus|..] && digits == zeros + number
    ensures v == plus + zeros + number
  {
    assert v == plus + digits;
  }

  lemma {:induction false} WrittenIsRead(zeros: string, plus: string, n: nat)
    requires AllZeros(zeros) && (plus == "" || plus == "+")
    ensures ParseU64(plus + zeros + Decimal(n)) == if n < LIMIT then Some(n) else None
  {
    var (v, d) := (plus + zeros + Decimal(n), zeros + Decimal(n));
    ValueOfDecimal(n);
    ZerosCountNothing(zeros, Decimal(n));
    assert IsDigit(d[0]);
    if plus == "" { assert v == d; } else { assert v[1..] == d; }
  }

  ghost predicate IsU64(v: string, n: nat) { n < LIMIT && IsNumber(v, n) }

  ghost predicate TimingSays(v: string, stage: string, n: nat)
  {
    ' ' !in stage && exists digits :: v == stage + " " + digits && IsU64(digits, n)
  }

  /// The value is one the key can take.
  ghost predicate Readable(k: Key, v: string)
  {
    match KindOf(k)
    case TextKind => true
    case FlagKind => v == "true" || v == "false"
    case NumberKind => exists n :: IsU64(v, n)
    case ClassKind => v == "environment" || v == "permission" || v == "configuration" || v == "bug"
    case TimingKind => exists stage, n :: TimingSays(v, stage, n)
  }

  lemma {:induction false} TimingSaid(v: string, stage: string, n: nat)
    requires TimingSays(v, stage, n)
    ensures n < LIMIT && ParseTiming(v) == Some(TimingField(stage, n))
  {
    var digits :| v == stage + " " + digits && IsU64(digits, n);
    SplitJoined(stage, digits);
    NumberIff(digits, n);
  }

  lemma {:induction false} TimingRead(v: string, stage: string, n: U64)
    requires ParseTiming(v) == Some(TimingField(stage, n))
    ensures TimingSays(v, stage, n)
  {
    var (a, b) := SplitOnce(v).value;
    Unsplit(v);
    NumberIff(b, n);
    assert v == stage + " " + b && IsU64(b, n);
  }

  lemma {:induction false} NumberReadable(k: Key, v: string)
    requires KindOf(k) == NumberKind
    ensures ReadField(k, v).Some? <==> Readable(k, v)
  {
    if ParseU64(v).Some? {
      var n: nat := ParseU64(v).value;
      NumberIff(v, n);
      assert IsU64(v, n);
    }
    if n :| IsU64(v, n) { NumberIff(v, n); }
  }

  lemma {:induction false} TimingReadable(v: string)
    ensures ReadField(Timing, v).Some? <==> Readable(Timing, v)
  {
    if ParseTiming(v).Some? {
      var f := ParseTiming(v).value;
      TimingRead(v, f.stage, f.micros);
    }
    if stage, n :| TimingSays(v, stage, n) { TimingSaid(v, stage, n); }
  }

  lemma {:induction false} OthersReadable(k: Key, v: string)
    requires KindOf(k) != NumberKind && KindOf(k) != TimingKind
    ensures ReadField(k, v).Some? <==> Readable(k, v)
  {
  }

  lemma {:induction false} ReadableIff(k: Key, v: string)
    ensures ReadField(k, v).Some? <==> Readable(k, v)
  {
    if KindOf(k) == NumberKind { NumberReadable(k, v); }
    else if KindOf(k) == TimingKind { TimingReadable(v); }
    else { OthersReadable(k, v); }
  }

  ghost predicate Unreadable(line: string, k: Key, v: string) { Says(line, KeyText(k), v) && !Readable(k, v) }

  /// A line with no value at all, or with one that its key cannot take.
  ghost predicate Bad(line: string)
  {
    TrimEnd(line) != "" && (' ' !in TrimEnd(line) || exists k, v :: Unreadable(line, k, v))
  }

  lemma {:induction false} BadIff(line: string)
    ensures ReadLine(line).Malformed? <==> Bad(line)
  {
    var t := TrimEnd(line);
    Unsplit(t);
    if k, v :| Unreadable(line, k, v) {
      SaysReads(line, k, v);
      ReadableIff(k, v);
    }
    if t != "" && SplitOnce(t).Some? && KeyOf(SplitOnce(t).value.0).Some? {
      var (k, v) := (KeyOf(SplitOnce(t).value.0).value, SplitOnce(t).value.1);
      KeyOfIs(SplitOnce(t).value.0);
      ReadableIff(k, v);
      assert ReadField(k, v).None? ==> Unreadable(line, k, v);
    }
  }

  /// Line m is bad, and none before it is.
  ghost predicate FirstBad(lines: seq<string>, m: int)
  {
    0 <= m < |lines| && Bad(lines[m]) && forall j :: 0 <= j < m ==> !Bad(lines[j])
  }

  ghost predicate FirstTrue(b: seq<bool>, m: int) { 0 <= m < |b| && b[m] && forall j :: 0 <= j < m ==> !b[j] }

  lemma {:induction false} LaterTrue(b: seq<bool>, m: int)
    requires b != []
    ensures FirstTrue(b, m) <==> if b[0] then m == 0 else FirstTrue(b[1..], m - 1)
  {
    assert forall j :: 1 <= j < |b| ==> b[j] == b[1..][j - 1];
  }

  /// What each line means.
  function Meanings(lines: seq<string>): (ms: seq<LineMeaning>)
    ensures |ms| == |lines| && forall i :: 0 <= i < |lines| ==> ms[i] == ReadLine(lines[i])
  {
    seq(|lines|, i requires 0 <= i < |lines| => ReadLine(lines[i]))
  }

  function Folded(r: Record, ms: seq<LineMeaning>, number: nat): Parsed
    decreases |ms|
  {
    if ms == [] then Ok(r)
    else
      match ms[0]
      case Skipped => Folded(r, ms[1..], number + 1)
      case Malformed => Err(number)
      case Means(f) => Folded(Store(r, f), ms[1..], number + 1)
  }

  lemma {:induction false} ParseFolds(r: Record, lines: seq<string>, number: nat)
    ensures ParseLines(r, lines, number) == Folded(r, Meanings(lines), number)
    decreases |lines|
  {
    if lines != [] {
      assert Meanings(lines)[1..] == Meanings(lines[1..]);
      match ReadLine(lines[0])
      case Skipped => ParseFolds(r, lines[1..], number + 1);
      case Malformed =>
      case Means(f) => ParseFolds(Store(r, f), lines[1..], number + 1);
    }
  }

  lemma {:induction false} StopsAt(r: Record, ms: seq<LineMeaning>, bad: seq<bool>, number: nat, n: nat)
    requires |bad| == |ms| && forall i :: 0 <= i < |ms| ==> bad[i] == ms[i].Malformed?
    ensures Folded(r, ms, number) == Err(n) <==> FirstTrue(bad, n - number)
    decreases |ms|
  {
    if ms != [] {
      var (rest, more) := (ms[1..], bad[1..]);
      LaterTrue(bad, n - number);
      match ms[0]
      case Skipped => StopsAt(r, rest, more, number + 1, n);
      case Malformed =>
      case Means(f) => StopsAt(Store(r, f), rest, more, number + 1, n);
    }
  }

  lemma {:induction false} StopsAtBad(r: Record, lines: seq<string>, number: nat, n: nat)
    ensures ParseLines(r, lines, number) == Err(n) <==> FirstBad(lines, n - number)
  {
    var ms := Meanings(lines);
    var bad := seq(|ms|, i requires 0 <= i < |ms| => ms[i].Malformed?);
    forall i | 0 <= i < |lines| ensures bad[i] == Bad(lines[i]) { BadIff(lines[i]); }
    ParseFolds(r, lines, number);
    StopsAt(r, ms, bad, number, n);
  }

  /// The first line is the name of the format, of this program or of the one it comes from.
  ghost predicate Named(lines: seq<string>)
  {
    lines != [] && (Padded(lines[0], "outloud-replay v1") || Padded(lines[0], "aqua-replay v1"))
  }

  lemma {:induction false} NamedIff(lines: seq<string>)
    ensures Named(lines) <==> lines != [] && IsSchema(lines[0])
  {
    if lines != [] { SchemaIff(lines[0]); }
  }

  /// A text is refused at line 1 exactly when that is not the name of the format; and else at the first
  /// of the lines after it that has no value or one its key cannot take, counting from 1.
  lemma {:induction false} ErrIff(text: string, n: nat)
    ensures ParseSpec(text) == Err(n)
            <==> if Named(Lines(text)) then FirstBad(Lines(text)[1..], n - 2) else n == 1
  {
    NamedIff(Lines(text));
    if Named(Lines(text)) { StopsAtBad(BLANK, Lines(text)[1..], 2, n); }
  }

  // ------------------------------------------------------- where the parts of a record come from

  /// Of the lines that are of a kind, line i is the last.
  ghost predicate LastOf(ms: seq<LineMeaning>, mine: Field -> bool, i: int)
  {
    0 <= i < |ms| && IsMine(ms[i], mine) && forall j :: i < j < |ms| ==> !IsMine(ms[j], mine)
  }

  ghost predicate NoneOf(ms: seq<LineMeaning>, mine: Field -> bool)
  {
    forall j :: 0 <= j < |ms| ==> !IsMine(ms[j], mine)
  }

  predicate IsMine(m: LineMeaning, mine: Field -> bool) { m.Means? && mine(m.field) }

  /// Storing a field of the kind sets the part, and storing any other leaves it.
  ghost predicate SetBy<T>(part: Record -> T, mine: Field -> bool, value: Field -> T)
  {
    forall r: Record, f: Field :: f.WellKeyed() ==> part(Store(r, f)) == if mine(f) then value(f) else part(r)
  }

  ghost predicate WellRead(ms: seq<LineMeaning>) { forall i :: 0 <= i < |ms| && ms[i].Means? ==> ms[i].field.WellKeyed() }

  /// A part is what the last line of its kind says.
  lemma {:induction false} LastCounts<T>(part: Record -> T, mine: Field -> bool, value: Field -> T, r: Record,
                                         ms: seq<LineMeaning>, number: nat, end: Record)
    requires SetBy(part, mine, value) && WellRead(ms) && Folded(r, ms, number) == Ok(end)
    ensures NoneOf(ms, mine) ==> part(end) == part(r)
    ensures forall i :: LastOf(ms, mine, i) ==> part(end) == value(ms[i].field)
    decreases |ms|
  {
    if ms != [] {
      var (m, rest) := (ms[0], ms[1..]);
      var next := if m.Means? then Store(r, m.field) else r;
      assert WellRead(rest);
      LastCounts(part, mine, value, next, rest, number + 1, end);
      assert part(next) == if IsMine(m, mine) then value(m.field) else part(r);
      assert NoneOf(ms, mine) ==> NoneOf(rest, mine);
      forall i | LastOf(ms, mine, i) ensures part(end) == value(ms[i].field) {
        if i == 0 {
          assert NoneOf(rest, mine) by { forall j | 0 <= j < |rest| ensures !IsMine(rest[j], mine) { assert rest[j] == ms[j + 1]; } }
        } else {
          assert LastOf(rest, mine, i - 1) by { forall j | i - 1 < j < |rest| ensures !IsMine(rest[j], mine) { assert rest[j] == ms[j + 1]; } }
        }
      }
    }
  }

  lemma {:induction false} LastExists(ms: seq<LineMeaning>, mine: Field -> bool)
    ensures NoneOf(ms, mine) || exists i :: LastOf(ms, mine, i)
    decreases |ms|
  {
    if ms != [] {
      var n := |ms| - 1;
      if IsMine(ms[n], mine) {
        assert LastOf(ms, mine, n);
      } else {
        LastExists(ms[..n], mine);
        if i :| LastOf(ms[..n], mine, i) { assert LastOf(ms, mine, i); }
      }
    }
  }

  /// A part that says whether there is such a line.
  lemma {:induction false} SomeCounts(part: Record -> bool, mine: Field -> bool, ms: seq<LineMeaning>, end: Record)
    requires SetBy(part, mine, _ => true) && WellRead(ms) && Folded(BLANK, ms, 2) == Ok(end) && !part(BLANK)
    ensures part(end) <==> exists i :: 0 <= i < |ms| && IsMine(ms[i], mine)
  {
    LastCounts(part, mine, _ => true, BLANK, ms, 2, end);
    LastExists(ms, mine);
  }

  /// Every line has a meaning or is skipped, and the record is what they store.
  ghost predicate Makes(lines: seq<string>, ms: seq<LineMeaning>, end: Record)
  {
    && ms == Meanings(lines) && WellRead(ms) && Folded(BLANK, ms, 2) == Ok(end)
    && forall i :: 0 <= i < |ms| ==> !ms[i].Malformed?
  }

  lemma {:induction false} NoneMalformed(r: Record, ms: seq<LineMeaning>, number: nat)
    requires Folded(r, ms, number).Ok?
    ensures forall i :: 0 <= i < |ms| ==> !ms[i].Malformed?
    decreases |ms|
  {
    if ms != [] {
      NoneMalformed(if ms[0].Means? then Store(r, ms[0].field) else r, ms[1..], number + 1);
      assert forall i :: 1 <= i < |ms| ==> ms[i] == ms[1..][i - 1];
    }
  }

  lemma {:induction false} MeaningsWellRead(lines: seq<string>)
    ensures WellRead(Meanings(lines))
  {
    forall i | 0 <= i < |lines| && ReadLine(lines[i]).Means? ensures ReadLine(lines[i]).field.WellKeyed() {
      var v := ReadsSaid(lines[i]);
    }
  }

  lemma {:induction false} OkMakes(lines: seq<string>, end: Record)
    requires ParseLines(BLANK, lines, 2) == Ok(end)
    ensures Makes(lines, Meanings(lines), end)
  {
    ParseFolds(BLANK, lines, 2);
    NoneMalformed(BLANK, Meanings(lines), 2);
    MeaningsWellRead(lines);
  }

  // ----------------------------------------------------------------------------- by key

  ghost predicate LastAt(lines: seq<string>, key: string, v: string, i: int)
  {
    0 <= i < |lines| && Says(lines[i], key, v) && forall j :: i < j < |lines| ==> !Speaks(lines[j], key)
  }

  /// The last line with the key has the value.
  ghost predicate LastSays(lines: seq<string>, key: string, v: string) { exists i :: LastAt(lines, key, v, i) }

  ghost predicate NoneSays(lines: seq<string>, key: string) { forall j :: 0 <= j < |lines| ==> !Speaks(lines[j], key) }

  function Of(k: Key): Field -> bool { f => KeyOfField(f) == k }

  lemma {:induction false} LineOfKind(line: string, k: Key)
    requires !ReadLine(line).Malformed?
    ensures Speaks(line, KeyText(k)) <==> IsMine(ReadLine(line), Of(k))
    ensures forall v :: Says(line, KeyText(k), v) ==> ReadLine(line).Means? && ReadField(k, v) == Some(ReadLine(line).field)
  {
    forall v | Says(line, KeyText(k), v)
      ensures ReadLine(line).Means? && ReadField(k, v) == Some(ReadLine(line).field) && KeyOfField(ReadLine(line).field) == k
    {
      SaysReads(line, k, v);
      ReadFieldKey(k, v);
    }
    if IsMine(ReadLine(line), Of(k)) {
      var v := ReadsSaid(line);
      assert Says(line, KeyText(k), v);
    }
  }

  lemma {:induction false} LinesOfKind(lines: seq<string>, ms: seq<LineMeaning>, end: Record, k: Key)
    requires Makes(lines, ms, end)
    ensures NoneSays(lines, KeyText(k)) <==> NoneOf(ms, Of(k))
    ensures forall i, v :: LastAt(lines, KeyText(k), v, i) ==> LastOf(ms, Of(k), i) && ReadField(k, v) == Some(ms[i].field)
  {
    forall i | 0 <= i < |lines|
      ensures Speaks(lines[i], KeyText(k)) <==> IsMine(ms[i], Of(k))
      ensures forall v :: Says(lines[i], KeyText(k), v) ==> ms[i].Means? && ReadField(k, v) == Some(ms[i].field)
    {
      LineOfKind(lines[i], k);
    }
    forall i, v | LastAt(lines, KeyText(k), v, i) ensures LastOf(ms, Of(k), i) && ReadField(k, v) == Some(ms[i].field) {
      assert Speaks(lines[i], KeyText(k));
    }
  }

  /// A part set by one key is what the last line with that key says.
  lemma {:induction false} PartIs<T>(part: Record -> T, k: Key, value: Field -> T, lines: seq<string>, ms: seq<LineMeaning>, end: Record)
    requires SetBy(part, Of(k), value) && Makes(lines, ms, end)
    ensures NoneSays(lines, KeyText(k)) ==> part(end) == part(BLANK)
    ensures forall v :: LastSays(lines, KeyText(k), v) ==> ReadField(k, v).Some? && part(end) == value(ReadField(k, v).value)
  {
    LinesOfKind(lines, ms, end, k);
    LastCounts(part, Of(k), value, BLANK, ms, 2, end);
  }

  function FlagWord(b: bool): string { if b then "true" else "false" }

  /// The value is a way of writing what the field holds.
  ghost predicate Writes(v: string, f: Field)
  {
    match f
    case TextField(_, t) => v == t
    case FlagField(_, b) => v == FlagWord(b)
    case NumberField(_, n) => IsU64(v, n)
    case ClassField(c) =>
      v == if c == Environment then "environment" else if c == Permission then "permission"
           else if c == Configuration then "configuration" else "bug"
    case TimingField(s, n) => TimingSays(v, s, n)
  }

  lemma {:induction false} WritesWhatIsRead(k: Key, v: string)
    ensures ReadField(k, v).Some? ==> Writes(v, ReadField(k, v).value)
  {
    match KindOf(k)
    case NumberKind => if ParseU64(v).Some? { NumberIff(v, ParseU64(v).value); }
    case TimingKind => if ParseTiming(v).Some? { TimingRead(v, ParseTiming(v).value.stage, ParseTiming(v).value.micros); }
    case _ =>
  }

  // ------------------------------------------------------------------------- the record

  /// What the record holds under each key that stands for one value; blank in a section that is not
  /// there. The kind of failure may be missing.
  function Held(r: Record, k: Key): Option<Field>
  {
    match k
    case Platform => Some(TextField(k, r.platform))
    case AxTrusted => Some(FlagField(k, r.env.axTrusted))
    case DestinationIsTerminal => Some(FlagField(k, r.env.destinationIsTerminal))
    case HasDisplay => Some(FlagField(k, r.env.hasDisplay))
    case HasClipboard => Some(FlagField(k, r.env.hasClipboard))
    case TransportName => Some(TextField(k, if r.transport.Some? then r.transport.value.name else ""))
    case TransportReason => Some(TextField(k, if r.transport.Some? then r.transport.value.reason else ""))
    case AxRole => Some(TextField(k, if r.ax.Some? then r.ax.value.role else ""))
    case AxTitle => Some(TextField(k, if r.ax.Some? then r.ax.value.title else ""))
    case AxText => Some(TextField(k, if r.ax.Some? then r.ax.value.text else ""))
    case AxStrategy => Some(TextField(k, if r.ax.Some? then r.ax.value.strategy else ""))
    case IntentKind => Some(TextField(k, if r.intent.Some? then r.intent.value.kind else ""))
    case IntentFrom => Some(NumberField(k, if r.intent.Some? then r.intent.value.fromChars else 0))
    case IntentTo => Some(NumberField(k, if r.intent.Some? then r.intent.value.toChars else 0))
    case BeforeChars => Some(NumberField(k, if r.transform.Some? then r.transform.value.beforeChars else 0))
    case AfterChars => Some(NumberField(k, if r.transform.Some? then r.transform.value.afterChars else 0))
    case ChangedStart => Some(NumberField(k, if r.transform.Some? then r.transform.value.changedStart else 0))
    case RemovedChars => Some(NumberField(k, if r.transform.Some? then r.transform.value.removedChars else 0))
    case InsertedChars => Some(NumberField(k, if r.transform.Some? then r.transform.value.insertedChars else 0))
    case WriteOk => Some(FlagField(k, r.write.Some? && r.write.value.ok))
    case WriteDetail => Some(TextField(k, if r.write.Some? then r.write.value.detail else ""))
    case WriteClass =>
      if r.write.Some? && r.write.value.errorClass.Some? then Some(ClassField(r.write.value.errorClass.value)) else None
    case EnvVar | EnvCmd | Timing => None
  }

  /// Keys that may stand for many values.
  predicate Many(k: Key) { k == EnvVar || k == EnvCmd || k == Timing }

  lemma {:induction false} HeldAmongTexts(r: Record, key: Key, v: string, k: Key)
    requires KindOf(key) == TextKind && KindOf(k) == TextKind && !Many(k)
    ensures Held(StoreText(r, key, v), k) == if key == k then Some(TextField(k, v)) else Held(r, k)
  {
  }

  lemma {:induction false} HeldBesideTexts(r: Record, key: Key, v: string, k: Key)
    requires KindOf(key) == TextKind && KindOf(k) != TextKind
    ensures Held(StoreText(r, key, v), k) == Held(r, k)
  {
  }

  lemma {:induction false} HeldText(r: Record, key: Key, v: string, k: Key)
    requires KindOf(key) == TextKind && !Many(k)
    ensures Held(StoreText(r, key, v), k) == if key == k then Some(TextField(k, v)) else Held(r, k)
  {
    if KindOf(k) == TextKind { HeldAmongTexts(r, key, v, k); } else { HeldBesideTexts(r, key, v, k); }
  }

  lemma {:induction false} HeldFlag(r: Record, key: Key, b: bool, k: Key)
    requires KindOf(key) == FlagKind && !Many(k)
    ensures Held(StoreFlag(r, key, b), k) == if key == k then Some(FlagField(k, b)) else Held(r, k)
  {
  }

  lemma {:induction false} HeldNumber(r: Record, key: Key, n: U64, k: Key)
    requires KindOf(key) == NumberKind && !Many(k)
    ensures Held(StoreNumber(r, key, n), k) == if key == k then Some(NumberField(k, n)) else Held(r, k)
  {
  }

  lemma {:induction false} HeldStored(r: Record, f: Field, k: Key)
    requires f.WellKeyed() && !Many(k)
    ensures Held(Store(r, f), k) == if KeyOfField(f) == k then Some(f) else Held(r, k)
  {
    match f
    case TextField(key, v) => HeldText(r, key, v, k);
    case FlagField(key, b) => HeldFlag(r, key, b, k);
    case NumberField(key, n) => HeldNumber(r, key, n, k);
    case _ =>
  }

  datatype Section = Outside | InTransport | InAx | InIntent | InTransform | InWrite

  function SectionOf(k: Key): Section
  {
    match k
    case TransportName | TransportReason => InTransport
    case AxRole | AxTitle | AxText | AxStrategy => InAx
    case IntentKind | IntentFrom | IntentTo => InIntent
    case BeforeChars | AfterChars | ChangedStart | RemovedChars | InsertedChars => InTransform
    case WriteOk | WriteDetail | WriteClass => InWrite
    case _ => Outside
  }

  predicate Present(r: Record, s: Section)
  {
    match s
    case Outside => true
    case InTransport => r.transport.Some?
    case InAx => r.ax.Some?
    case InIntent => r.intent.Some?
    case InTransform => r.transform.Some?
    case InWrite => r.write.Some?
  }

  lemma {:induction false} PresentText(r: Record, key: Key, v: string, s: Section)
    requires KindOf(key) == TextKind && s != Outside
    ensures Present(StoreText(r, key, v), s) <==> SectionOf(key) == s || Present(r, s)
  {
  }

  lemma {:induction false} PresentFlag(r: Record, key: Key, b: bool, s: Section)
    requires KindOf(key) == FlagKind && s != Outside
    ensures Present(StoreFlag(r, key, b), s) <==> SectionOf(key) == s || Present(r, s)
  {
  }

  lemma {:induction false} PresentNumber(r: Record, key: Key, n: U64, s: Section)
    requires KindOf(key) == NumberKind && s != Outside
    ensures Present(StoreNumber(r, key, n), s) <==> SectionOf(key) == s || Present(r, s)
  {
  }

  lemma {:induction false} PresentStored(r: Record, f: Field, s: Section)
    requires f.WellKeyed() && s != Outside
    ensures Present(Store(r, f), s) <==> SectionOf(KeyOfField(f)) == s || Present(r, s)
  {
    match f
    case TextField(key, v) => PresentText(r, key, v, s);
    case FlagField(key, b) => PresentFlag(r, key, b, s);
    case NumberField(key, n) => PresentNumber(r, key, n, s);
    case _ =>
  }

  lemma {:induction false} SetsText(r: Record, key: Key, v: string)
    requires KindOf(key) == TextKind
    ensures StoreText(r, key, v).env.varsPresent == r.env.varsPresent + if key == EnvVar then {v} else {}
    ensures StoreText(r, key, v).env.commands == r.env.commands + if key == EnvCmd then {v} else {}
    ensures StoreText(r, key, v).timings == r.timings
  {
  }

  lemma {:induction false} SetsOthers(r: Record, key: Key, b: bool, n: U64)
    ensures var (x, y) := (StoreFlag(r, key, b), StoreNumber(r, key, n));
            && x.env.varsPresent == y.env.varsPresent == r.env.varsPresent && x.env.commands == y.env.commands == r.env.commands
            && x.timings == y.timings == r.timings
  {
  }

  lemma {:induction false} SetsStored(r: Record, f: Field)
    requires f.WellKeyed()
    ensures Store(r, f).env.varsPresent == r.env.varsPresent + if KeyOfField(f) == EnvVar then {f.text} else {}
    ensures Store(r, f).env.commands == r.env.commands + if KeyOfField(f) == EnvCmd then {f.text} else {}
    ensures Store(r, f).timings == if f.TimingField? then r.timings[f.stage := f.micros] else r.timings
  {
    match f
    case TextField(key, v) => SetsText(r, key, v);
    case FlagField(key, b) => SetsOthers(r, key, b, 0);
    case NumberField(key, n) => SetsOthers(r, key, false, n);
    case _ =>
  }

  lemma {:induction false} HeldPart(lines: seq<string>, ms: seq<LineMeaning>, end: Record, k: Key)
    requires Makes(lines, ms, end) && !Many(k)
    ensures NoneSays(lines, KeyText(k)) ==> Held(end, k) == Held(BLANK, k)
    ensures forall v :: LastSays(lines, KeyText(k), v) ==> ReadField(k, v).Some? && Held(end, k) == ReadField(k, v)
  {
    var (part, value) := ((r: Record) => Held(r, k), (f: Field) => Some(f));
    forall r: Record, f: Field | f.WellKeyed() ensures part(Store(r, f)) == if Of(k)(f) then value(f) else part(r) {
      HeldStored(r, f, k);
    }
    PartIs(part, k, value, lines, ms, end);
  }

  /// What is held under a key is what the last line with that key says, and blank without one.
  lemma {:induction false} HeldIs(lines: seq<string>, ms: seq<LineMeaning>, end: Record, k: Key)
    requires Makes(lines, ms, end) && !Many(k)
    ensures NoneSays(lines, KeyText(k)) ==> Held(end, k) == Held(BLANK, k)
    ensures forall v :: LastSays(lines, KeyText(k), v) ==> Held(end, k).Some? && Writes(v, Held(end, k).value)
  {
    HeldPart(lines, ms, end, k);
    forall v | LastSays(lines, KeyText(k), v) ensures Held(end, k).Some? && Writes(v, Held(end, k).value) {
      WritesWhatIsRead(k, v);
    }
  }

  ghost predicate SectionSaid(lines: seq<string>, s: Section)
  {
    exists i, k :: 0 <= i < |lines| && SectionOf(k) == s && Speaks(lines[i], KeyText(k))
  }

  /// A section is there exactly if some line has one of its keys.
  lemma {:induction false} PresentIs(lines: seq<string>, ms: seq<LineMeaning>, end: Record, s: Section)
    requires Makes(lines, ms, end) && s != Outside
    ensures Present(end, s) <==> SectionSaid(lines, s)
  {
    var (part, mine) := ((r: Record) => Present(r, s), (f: Field) => SectionOf(KeyOfField(f)) == s);
    forall r: Record, f: Field | f.WellKeyed() ensures part(Store(r, f)) == if mine(f) then true else part(r) {
      PresentStored(r, f, s);
    }
    SomeCounts(part, mine, ms, end);
    SectionLines(lines, ms, end, s, mine);
  }

  lemma {:induction false} SectionLines(lines: seq<string>, ms: seq<LineMeaning>, end: Record, s: Section, mine: Field -> bool)
    requires Makes(lines, ms, end) && forall f :: mine(f) <==> SectionOf(KeyOfField(f)) == s
    ensures (exists i :: 0 <= i < |ms| && IsMine(ms[i], mine)) <==> SectionSaid(lines, s)
  {
    if i :| 0 <= i < |ms| && IsMine(ms[i], mine) {
      var k := KeyOfField(ms[i].field);
      LineOfKind(lines[i], k);
      assert Speaks(lines[i], KeyText(k));
    }
    if i, k :| 0 <= i < |lines| && SectionOf(k) == s && Speaks(lines[i], KeyText(k)) {
      LineOfKind(lines[i], k);
      assert IsMine(ms[i], mine);
    }
  }

  ghost predicate MemberSays(lines: seq<string>, key: string, v: string)
  {
    exists i :: 0 <= i < |lines| && Says(lines[i], key, v)
  }

  lemma {:induction false} SetPart(part: Record -> set<string>, k: Key, lines: seq<string>, ms: seq<LineMeaning>, end: Record, v: string)
    requires (k == EnvVar || k == EnvCmd) && part(BLANK) == {} && Makes(lines, ms, end)
    requires forall r: Record, f: Field :: f.WellKeyed() ==> part(Store(r, f)) == part(r) + if KeyOfField(f) == k then {f.text} else {}
    ensures v in part(end) <==> MemberSays(lines, KeyText(k), v)
  {
    var (has, mine) := ((r: Record) => v in part(r), (f: Field) => f == TextField(k, v));
    SomeCounts(has, mine, ms, end);
    forall i | 0 <= i < |lines| ensures Says(lines[i], KeyText(k), v) <==> IsMine(ms[i], mine) { MemberLine(lines[i], k, v); }
  }

  lemma {:induction false} MemberLine(line: string, k: Key, v: string)
    requires !ReadLine(line).Malformed? && KindOf(k) == TextKind
    ensures Says(line, KeyText(k), v) <==> ReadLine(line) == Means(TextField(k, v))
  {
    LineOfKind(line, k);
    if ReadLine(line) == Means(TextField(k, v)) { var w := ReadsSaid(line); }
  }

  /// The two sets hold each value said, and no other.
  lemma {:induction false} SetsAre(lines: seq<string>, ms: seq<LineMeaning>, end: Record, v: string)
    requires Makes(lines, ms, end)
    ensures v in end.env.varsPresent <==> MemberSays(lines, KeyText(EnvVar), v)
    ensures v in end.env.commands <==> MemberSays(lines, KeyText(EnvCmd), v)
  {
    var (vars, commands) := ((r: Record) => r.env.varsPresent, (r: Record) => r.env.commands);
    forall r: Record, f: Field | f.WellKeyed()
      ensures vars(Store(r, f)) == vars(r) + if KeyOfField(f) == EnvVar then {f.text} else {}
      ensures commands(Store(r, f)) == commands(r) + if KeyOfField(f) == EnvCmd then {f.text} else {}
    {
      SetsStored(r, f);
    }
    SetPart(vars, EnvVar, lines, ms, end, v);
    SetPart(commands, EnvCmd, lines, ms, end, v);
  }

  ghost predicate TimingLine(line: string, stage: string, n: nat)
  {
    exists v :: Says(line, KeyText(Timing), v) && TimingSays(v, stage, n)
  }

  ghost predicate TimesStage(line: string, stage: string) { exists n :: TimingLine(line, stage, n) }

  ghost predicate StageSaid(lines: seq<string>, stage: string)
  {
    exists i :: 0 <= i < |lines| && TimesStage(lines[i], stage)
  }

  /// Of the lines that time the stage, line i is the last, and it says n.
  ghost predicate LastTiming(lines: seq<string>, stage: string, n: nat, i: int)
  {
    0 <= i < |lines| && TimingLine(lines[i], stage, n) && forall j :: i < j < |lines| ==> !TimesStage(lines[j], stage)
  }

  lemma {:induction false} TimingKeyRead(v: string, f: Field)
    requires ParseTiming(v) == Some(f)
    ensures ReadField(Timing, v) == Some(f)
  {
  }

  lemma {:induction false} TimingLineRead(line: string, s: string, n: nat)
    requires TimingLine(line, s, n)
    ensures n < LIMIT && ReadLine(line) == Means(TimingField(s, n))
  {
    var v :| Says(line, KeyText(Timing), v) && TimingSays(v, s, n);
    TimingSaid(v, s, n);
    TimingKeyRead(v, TimingField(s, n));
    SaysReads(line, Timing, v);
  }

  lemma {:induction false} TimingLineSaid(line: string, s: string, n: U64)
    requires ReadLine(line) == Means(TimingField(s, n))
    ensures TimingLine(line, s, n)
  {
    var v := ReadsSaid(line);
    TimingWasRead(v, s, n);
    TimingRead(v, s, n);
  }

  lemma {:induction false} TimingWasRead(v: string, s: string, n: U64)
    requires ReadField(KeyOfField(TimingField(s, n)), v) == Some(TimingField(s, n))
    ensures ParseTiming(v) == Some(TimingField(s, n))
  {
  }

  lemma {:induction false} StageLine(line: string, s: string)
    requires !ReadLine(line).Malformed?
    ensures TimesStage(line, s) <==> IsMine(ReadLine(line), (f: Field) => f.TimingField? && f.stage == s)
  {
    if n :| TimingLine(line, s, n) { TimingLineRead(line, s, n); }
    if IsMine(ReadLine(line), (f: Field) => f.TimingField? && f.stage == s) { TimingLineSaid(line, s, ReadLine(line).field.micros); }
  }

  function MicrosOf(f: Field): Option<U64> { if f.TimingField? then Some(f.micros) else None }

  /// A stage has the time last said of it, and is there if one is said.
  lemma {:induction false} TimingIs(lines: seq<string>, ms: seq<LineMeaning>, end: Record, s: string)
    requires Makes(lines, ms, end)
    ensures s in end.timings <==> StageSaid(lines, s)
    ensures forall n, i :: LastTiming(lines, s, n, i) ==> s in end.timings && end.timings[s] == n
  {
    var (part, mine) := ((r: Record) => if s in r.timings then Some(r.timings[s]) else None, (f: Field) => f.TimingField? && f.stage == s);
    forall r: Record, f: Field | f.WellKeyed() ensures part(Store(r, f)) == if mine(f) then MicrosOf(f) else part(r) {
      SetsStored(r, f);
    }
    LastCounts(part, mine, MicrosOf, BLANK, ms, 2, end);
    LastExists(ms, mine);
    forall i | 0 <= i < |lines| ensures TimesStage(lines[i], s) <==> IsMine(ms[i], mine) { StageLine(lines[i], s); }
    forall n, i | LastTiming(lines, s, n, i) ensures s in end.timings && end.timings[s] == n {
      TimingLineRead(lines[i], s, n);
      assert TimesStage(lines[i], s);
      assert LastOf(ms, mine, i);
    }
  }

  /// Of a text that is not refused: what the record holds under each key is what the last line with that
  /// key says, and blank without one; a section is there exactly if a line has one of its keys; the two
  /// sets hold each value said; and each stage has the time last said of it.
  lemma {:induction false} RecordIs(text: string, r: Record)
    requires ParseSpec(text) == Ok(r)
    ensures var lines := Lines(text)[1..];
            && (forall k :: !Many(k) && NoneSays(lines, KeyText(k)) ==> Held(r, k) == Held(BLANK, k))
            && (forall k, v :: !Many(k) && LastSays(lines, KeyText(k), v) ==> Held(r, k).Some? && Writes(v, Held(r, k).value))
            && (forall s :: s != Outside ==> (Present(r, s) <==> SectionSaid(lines, s)))
            && (forall v :: v in r.env.varsPresent <==> MemberSays(lines, KeyText(EnvVar), v))
            && (forall v :: v in r.env.commands <==> MemberSays(lines, KeyText(EnvCmd), v))
            && (forall s :: s in r.timings <==> StageSaid(lines, s))
            && (forall s, n, i :: LastTiming(lines, s, n, i) ==> s in r.timings && r.timings[s] == n)
  {
    var lines := Lines(text)[1..];
    var ms := Meanings(lines);
    OkMakes(lines, r);
    forall k | !Many(k)
      ensures NoneSays(lines, KeyText(k)) ==> Held(r, k) == Held(BLANK, k)
      ensures forall v :: LastSays(lines, KeyText(k), v) ==> Held(r, k).Some? && Writes(v, Held(r, k).value)
    {
      HeldIs(lines, ms, r, k);
    }
    forall s | s != Outside ensures Present(r, s) <==> SectionSaid(lines, s) { PresentIs(lines, ms, r, s); }
    forall v
      ensures v in r.env.varsPresent <==> MemberSays(lines, KeyText(EnvVar), v)
      ensures v in r.env.commands <==> MemberSays(lines, KeyText(EnvCmd), v)
    {
      SetsAre(lines, ms, r, v);
    }
    forall s
      ensures s in r.timings <==> StageSaid(lines, s)
      ensures forall n, i :: LastTiming(lines, s, n, i) ==> s in r.timings && r.timings[s] == n
    {
      TimingIs(lines, ms, r, s);
    }
  }

  /// The names of the keys, as they stand in a text.
  lemma {:induction false} KeyNames()
    ensures KeyText(Platform) == "platform" && KeyText(AxTrusted) == "env.ax_trusted"
    ensures KeyText(DestinationIsTerminal) == "env.destination_is_terminal"
    ensures KeyText(HasDisplay) == "env.has_display" && KeyText(HasClipboard) == "env.has_clipboard"
    ensures KeyText(EnvVar) == "env.var" && KeyText(EnvCmd) == "env.cmd"
    ensures KeyText(TransportName) == "transport.name" && KeyText(TransportReason) == "transport.reason"
    ensures KeyText(AxRole) == "ax.role" && KeyText(AxTitle) == "ax.title"
    ensures KeyText(AxText) == "ax.text" && KeyText(AxStrategy) == "ax.strategy"
    ensures KeyText(IntentKind) == "intent.kind" && KeyText(IntentFrom) == "intent.from_chars"
    ensures KeyText(IntentTo) == "intent.to_chars"
    ensures KeyText(BeforeChars) == "transform.before_chars" && KeyText(AfterChars) == "transform.after_chars"
    ensures KeyText(ChangedStart) == "transform.changed_start" && KeyText(RemovedChars) == "transform.removed_chars"
    ensures KeyText(InsertedChars) == "transform.inserted_chars"
    ensures KeyText(WriteOk) == "write.ok" && KeyText(WriteDetail) == "write.detail"
    ensures KeyText(WriteClass) == "write.class" && KeyText(Timing) == "timing"
  {
  }

  // ------------------------------------------------------------------ what is printed, and where

  /// The place of a key among the lines of a record.
  function Place(k: Key): nat
  {
    match k
    case Platform => 0
    case AxTrusted => 1
    case DestinationIsTerminal => 2
    case HasDisplay => 3
    case HasClipboard => 4
    case EnvVar => 5
    case EnvCmd => 6
    case TransportName => 7
    case TransportReason => 8
    case AxRole => 9
    case AxTitle => 10
    case AxText => 11
    case AxStrategy => 12
    case IntentKind => 13
    case IntentFrom => 14
    case IntentTo => 15
    case BeforeChars => 16
    case AfterChars => 17
    case ChangedStart => 18
    case RemovedChars => 19
    case InsertedChars => 20
    case WriteOk => 21
    case WriteDetail => 22
    case WriteClass => 23
    case Timing => 24
  }

  function PlaceOf(f: Field): nat { Place(KeyOfField(f)) }

  /// The fields stand in the order of their keys, none twice unless it may stand for many values.
  ghost predicate Ordered(fs: seq<Field>, lo: nat, hi: nat)
  {
    && (forall i :: 0 <= i < |fs| ==> lo <= PlaceOf(fs[i]) < hi)
    && forall i, j :: 0 <= i < j < |fs| ==>
         PlaceOf(fs[i]) < PlaceOf(fs[j]) || (PlaceOf(fs[i]) == PlaceOf(fs[j]) && Many(KeyOfField(fs[i])))
  }

  lemma {:induction false} OrderedConcat(a: seq<Field>, b: seq<Field>, lo: nat, mid: nat, hi: nat)
    requires Ordered(a, lo, mid) && Ordered(b, mid, hi) && lo <= mid <= hi
    ensures Ordered(a + b, lo, hi)
  {
  }

  lemma {:induction false} RisingIsOrdered(fs: seq<Field>, places: seq<nat>, lo: nat, hi: nat)
    requires |places| == |fs| && forall i :: 0 <= i < |fs| ==> PlaceOf(fs[i]) == places[i]
    requires forall i :: 0 <= i < |places| ==> lo <= places[i] < hi
    requires forall i, j :: 0 <= i < j < |places| ==> places[i] < places[j]
    ensures Ordered(fs, lo, hi)
  {
  }

  lemma {:induction false} HeadOrdered(r: Record)
    ensures Ordered(HeadFields(r), 0, 5)
  {
    RisingIsOrdered(HeadFields(r), [0, 1, 2, 3, 4], 0, 5);
  }

  lemma {:induction false} ManyOrdered(key: Key, values: seq<string>)
    requires key == EnvVar || key == EnvCmd
    ensures Ordered(TextFields(key, values), Place(key), Place(key) + 1)
  {
  }

  lemma {:induction false} TransportOrdered(t: Option<Transport>)
    ensures Ordered(TransportFields(t), 7, 9)
  {
    if t.Some? { RisingIsOrdered(TransportFields(t), [7, 8], 7, 9); }
  }

  lemma {:induction false} AxOrdered(a: Option<Ax>)
    ensures Ordered(AxFields(a), 9, 13)
  {
    if a.Some? { RisingIsOrdered(AxFields(a), [9, 10, 11, 12], 9, 13); }
  }

  lemma {:induction false} IntentOrdered(i: Option<Intent>)
    ensures Ordered(IntentFields(i), 13, 16)
  {
    if i.Some? { RisingIsOrdered(IntentFields(i), [13, 14, 15], 13, 16); }
  }

  lemma {:induction false} TransformOrdered(t: Option<Transform>)
    ensures Ordered(TransformFields(t), 16, 21)
  {
    if t.Some? { RisingIsOrdered(TransformFields(t), [16, 17, 18, 19, 20], 16, 21); }
  }

  lemma {:induction false} WriteOrdered(w: Option<Write>)
    ensures Ordered(WriteFields(w), 21, 24)
  {
    if w.Some? {
      var fs := WriteFields(w);
      if w.value.errorClass.Some? { RisingIsOrdered(fs, [21, 22, 23], 21, 24); } else { RisingIsOrdered(fs, [21, 22], 21, 24); }
    }
  }

  lemma {:induction false} TimingOrdered(stages: seq<string>, timings: map<string, U64>)
    requires forall s :: s in stages ==> s in timings
    ensures Ordered(TimingFields(stages, timings), 24, 25)
  {
  }

  /// What is printed of a record, line by line: its fields in the order of the format.
  lemma {:induction false} PrintedInOrder(r: Record, o: Orders)
    requires forall s :: s in o.stages ==> s in r.timings
    ensures Ordered(Fields(r, o), 0, 25)
  {
    var a := HeadFields(r) + TextFields(EnvVar, o.vars) + TextFields(EnvCmd, o.commands) + TransportFields(r.transport);
    FrontInOrder(r, o, a);
    var b := a + AxFields(r.ax);
    AxOrdered(r.ax);
    OrderedConcat(a, AxFields(r.ax), 0, 9, 13);
    var c := b + IntentFields(r.intent);
    IntentOrdered(r.intent);
    OrderedConcat(b, IntentFields(r.intent), 0, 13, 16);
    BackInOrder(r, o, c);
  }

  lemma {:induction false} FrontInOrder(r: Record, o: Orders, fs: seq<Field>)
    requires fs == HeadFields(r) + TextFields(EnvVar, o.vars) + TextFields(EnvCmd, o.commands) + TransportFields(r.transport)
    ensures Ordered(fs, 0, 9)
  {
    HeadOrdered(r);
    ManyOrdered(EnvVar, o.vars);
    ManyOrdered(EnvCmd, o.commands);
    TransportOrdered(r.transport);
    var a := HeadFields(r) + TextFields(EnvVar, o.vars);
    OrderedConcat(HeadFields(r), TextFields(EnvVar, o.vars), 0, 5, 6);
    var b := a + TextFields(EnvCmd, o.commands);
    OrderedConcat(a, TextFields(EnvCmd, o.commands), 0, 6, 7);
    OrderedConcat(b, TransportFields(r.transport), 0, 7, 9);
  }

  lemma {:induction false} BackInOrder(r: Record, o: Orders, fs: seq<Field>)
    requires (forall s :: s in o.stages ==> s in r.timings) && Ordered(fs, 0, 16)
    ensures Ordered(fs + TransformFields(r.transform) + WriteFields(r.write) + TimingFields(o.stages, r.timings), 0, 25)
  {
    TransformOrdered(r.transform);
    WriteOrdered(r.write);
    TimingOrdered(o.stages, r.timings);
    var a := fs + TransformFields(r.transform);
    OrderedConcat(fs, TransformFields(r.transform), 0, 16, 21);
    var b := a + WriteFields(r.write);
    OrderedConcat(a, WriteFields(r.write), 0, 21, 24);
    OrderedConcat(b, TimingFields(o.stages, r.timings), 0, 24, 25);
  }
}
