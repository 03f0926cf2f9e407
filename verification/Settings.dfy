// The settings: the schema with its constraints (crates/config/src/schema.rs), and the checks of a
// configuration document against it (crates/config/src/validate.rs).
//
// A document is the tree that the TOML parser yields. The hotkey and integer parsers, and
// lower-casing, are parameters; the schema is any table of distinct keys with valid defaults.

module Settings {
  import opened Common
  import Profiles

  // ---- Schema --------------------------------------------------------------------------------------

  datatype Value = Str(s: string) | Bool(b: bool) | Int(i: int) | List(items: seq<string>)

  datatype Constraint = Any | OneOf(options: seq<string>) | HotkeyChord | IntRange(lo: int, hi: int)

  datatype KeySpec = KeySpec(key: string, default: Value, constraint: Constraint)

  type Schema = seq<KeySpec>

  datatype Parsers = Parsers(chord: string -> bool, integer: string -> Option<int>, fold: Fold)

  /// `Constraint::check`.
  predicate Passes(p: Parsers, c: Constraint, v: Value)
  {
    match (c, v)
    case (Any, _) => true
    case (OneOf(options), Str(s)) => s in options
    case (HotkeyChord, Str(s)) => p.chord(s)
    case (IntRange(lo, hi), Int(i)) => lo <= i <= hi
    case _ => false
  }

  /// What a constraint admits: a string among the options, or one that reads as a chord, or a number
  /// between the bounds, the bounds included; without one, anything.
  predicate Admits(p: Parsers, c: Constraint, v: Value)
  {
    || c.Any?
    || (v.Str? && c.OneOf? && exists i :: 0 <= i < |c.options| && c.options[i] == v.s)
    || (v.Str? && c.HotkeyChord? && p.chord(v.s))
    || (v.Int? && c.IntRange? && !(v.i < c.lo || v.i > c.hi))
  }

  lemma {:induction false} PassesIff(p: Parsers, c: Constraint, v: Value)
    ensures Passes(p, c, v) <==> Admits(p, c, v)
  {
    if c.OneOf? && v.Str? && v.s in c.options {
      var i :| 0 <= i < |c.options| && c.options[i] == v.s;
    }
  }

  predicate SameType(a: Value, b: Value)
  {
    a.Str? == b.Str? && a.Bool? == b.Bool? && a.Int? == b.Int? && a.List? == b.List?
  }

  function SpecFrom(sch: Schema, key: string, i: nat): (r: Option<KeySpec>)
    requires i <= |sch|
    ensures r.Some? ==> r.value.key == key && r.value in sch
    ensures r.None? ==> forall k :: i <= k < |sch| ==> sch[k].key != key
    decreases |sch| - i
  {
    if i == |sch| then None else if sch[i].key == key then Some(sch[i]) else SpecFrom(sch, key, i + 1)
  }

  /// `spec_for`.
  function SpecFor(sch: Schema, key: string): Option<KeySpec> { SpecFrom(sch, key, 0) }

  /// The value has the type the schema gives the key and passes its constraint.
  predicate Valid(p: Parsers, sch: Schema, key: string, v: Value)
  {
    var spec := SpecFor(sch, key);
    spec.Some? && SameType(v, spec.value.default) && Passes(p, spec.value.constraint, v)
  }

  ghost predicate AllValid(p: Parsers, sch: Schema, values: map<string, Value>)
  {
    forall k :: k in values ==> Valid(p, sch, k, values[k])
  }

  ghost predicate GoodSchema(p: Parsers, sch: Schema)
  {
    && (forall i, j :: 0 <= i < j < |sch| ==> sch[i].key != sch[j].key)
    && (forall i :: 0 <= i < |sch| ==> Passes(p, sch[i].constraint, sch[i].default))
  }

  // ---- Documents -----------------------------------------------------------------------------------

  datatype Item =
    | Text(text: string)
    | Number(number: int)
    | Flag(flag: bool)
    | Array(elements: seq<Item>)
    | Table(entries: seq<(string, Item)>)
    | Inline(fields: seq<(string, Item)>)
    | Other

  type Entries = seq<(string, Item)>

  function Path(prefix: string, key: string): string
  {
    if prefix == [] then key else prefix + "." + key
  }

  predicate ProfileLocal(path: string) { path == "profile" || "profile." <= path }

  /// `flatten`, from entry i of a table on: dotted keys and leaves; an inline table is a leaf.
  function Flattened(prefix: string, table: Item, i: nat): Entries
    requires table.Table? && i <= |table.entries|
    decreases table, |table.entries| - i
  {
    if i == |table.entries| then []
    else
      var item := table.entries[i].1;
      var path := Path(prefix, table.entries[i].0);
      (if ProfileLocal(path) then [] else if item.Table? then Flattened(path, item, 0) else [(path, item)])
      + Flattened(prefix, table, i + 1)
  }

  function Texts(elements: seq<Item>): Option<seq<string>>
  {
    if elements == [] then Some([])
    else if !elements[0].Text? || Texts(elements[1..]).None? then None
    else Some([elements[0].text] + Texts(elements[1..]).value)
  }

  /// `coerce`, guided by the type of the default.
  function Coerce(item: Item, template: Value): (r: Option<Value>)
    ensures r.Some? ==> SameType(r.value, template)
  {
    match template
    case Str(_) => if item.Text? then Some(Str(item.text)) else None
    case Bool(_) => if item.Flag? then Some(Bool(item.flag)) else None
    case Int(_) => if item.Number? then Some(Int(item.number)) else None
    case List(_) =>
      if item.Array? && Texts(item.elements).Some? then Some(List(Texts(item.elements).value)) else None
  }

  /// `check_setting`: the value it inserts, if it inserts one.
  function Checked(p: Parsers, sch: Schema, key: string, item: Item): (r: Option<Value>)
    ensures r.Some? ==> Valid(p, sch, key, r.value)
  {
    var spec := SpecFor(sch, key);
    if spec.None? then None
    else
      var v := Coerce(item, spec.value.default);
      if v.Some? && Passes(p, spec.value.constraint, v.value) then v else None
  }

  /// The settings of a list of dotted keys: for each key, the last entry that passes.
  function Settled(p: Parsers, sch: Schema, flat: Entries): (r: map<string, Value>)
    ensures AllValid(p, sch, r)
  {
    if flat == [] then map[]
    else
      var (key, item) := flat[|flat| - 1];
      var before := Settled(p, sch, flat[..|flat| - 1]);
      var v := Checked(p, sch, key, item);
      if v.Some? then before[key := v.value] else before
  }

  /// What `check_setting` reports of an entry that it does not accept.
  datatype Complaint = UnknownKey(key: string) | WrongType(key: string) | InvalidValue(key: string)

  function Complaints(p: Parsers, sch: Schema, key: string, item: Item): seq<Complaint>
  {
    var spec := SpecFor(sch, key);
    if spec.None? then [UnknownKey(key)]
    else if Coerce(item, spec.value.default).None? then [WrongType(key)]
    else if Passes(p, spec.value.constraint, Coerce(item, spec.value.default).value) then []
    else [InvalidValue(key)]
  }

  function Refused(p: Parsers, sch: Schema, flat: Entries): seq<Complaint>
  {
    if flat == [] then []
    else
      var (key, item) := flat[|flat| - 1];
      Refused(p, sch, flat[..|flat| - 1]) + Complaints(p, sch, key, item)
  }

  /// There is an entry for the key that is this kind of wrong.
  ghost predicate Unknown(sch: Schema, flat: Entries, key: string)
  {
    (exists i :: 0 <= i < |flat| && flat[i].0 == key) && forall k :: k in sch ==> k.key != key
  }

  ghost predicate Mistyped(sch: Schema, flat: Entries, key: string)
  {
    exists i :: 0 <= i < |flat| && flat[i].0 == key && SpecFor(sch, key).Some?
                && Coerce(flat[i].1, SpecFor(sch, key).value.default).None?
  }

  ghost predicate OutOfBounds(p: Parsers, sch: Schema, flat: Entries, key: string)
  {
    exists i :: 0 <= i < |flat| && flat[i].0 == key && SpecFor(sch, key).Some?
                && Coerce(flat[i].1, SpecFor(sch, key).value.default).Some?
                && !Passes(p, SpecFor(sch, key).value.constraint, Coerce(flat[i].1, SpecFor(sch, key).value.default).value)
  }

  lemma {:induction false} ComplaintFrom(p: Parsers, sch: Schema, flat: Entries, c: Complaint)
    ensures c in Refused(p, sch, flat) <==>
              exists i :: 0 <= i < |flat| && c in Complaints(p, sch, flat[i].0, flat[i].1)
    decreases |flat|
  {
    if flat != [] {
      var init := flat[..|flat| - 1];
      ComplaintFrom(p, sch, init, c);
      assert forall i :: 0 <= i < |init| ==> init[i] == flat[i];
    }
  }

  /// A key is reported as unknown exactly when the schema does not have it, as mistyped and as out of
  /// bounds exactly when an entry of it is.
  lemma {:induction false} RefusedIff(p: Parsers, sch: Schema, flat: Entries, key: string)
    ensures UnknownKey(key) in Refused(p, sch, flat) <==> Unknown(sch, flat, key)
    ensures WrongType(key) in Refused(p, sch, flat) <==> Mistyped(sch, flat, key)
    ensures InvalidValue(key) in Refused(p, sch, flat) <==> OutOfBounds(p, sch, flat, key)
  {
    ComplaintFrom(p, sch, flat, UnknownKey(key));
    ComplaintFrom(p, sch, flat, WrongType(key));
    ComplaintFrom(p, sch, flat, InvalidValue(key));
    assert SpecFor(sch, key).None? <==> forall k :: k in sch ==> k.key != key;
  }

  /// And no entry is dropped in silence.
  lemma {:induction false} NoneDropped(p: Parsers, sch: Schema, flat: Entries, i: nat)
    requires i < |flat|
    ensures flat[i].0 in Settled(p, sch, flat)
            || exists c :: c in Complaints(p, sch, flat[i].0, flat[i].1) && c in Refused(p, sch, flat)
  {
    LastValidWins(p, sch, flat, flat[i].0);
    if Checked(p, sch, flat[i].0, flat[i].1).None? {
      var c := Complaints(p, sch, flat[i].0, flat[i].1)[0];
      ComplaintFrom(p, sch, flat, c);
    }
  }

  /// The complaints are those of the entries at the given places, which rise; every entry with a
  /// complaint is at one of them.
  ghost predicate ListsBad(p: Parsers, sch: Schema, flat: Entries, at: seq<nat>, errors: seq<Complaint>)
  {
    && |at| == |errors|
    && (forall n :: 0 <= n < |at| ==> Complains(p, sch, flat, at[n], errors[n]))
    && (forall n :: 0 < n < |at| ==> at[n - 1] < at[n])
    && (forall i, c :: Complains(p, sch, flat, i, c) ==> i in at)
  }

  ghost predicate Complains(p: Parsers, sch: Schema, flat: Entries, i: int, c: Complaint)
  {
    0 <= i < |flat| && Complaints(p, sch, flat[i].0, flat[i].1) == [c]
  }

  ghost predicate AllListed(p: Parsers, sch: Schema, flat: Entries, errors: seq<Complaint>)
  {
    exists at :: ListsBad(p, sch, flat, at, errors)
  }

  lemma {:induction false} OneComplaint(p: Parsers, sch: Schema, key: string, item: Item)
    ensures var c := Complaints(p, sch, key, item); c == [] || c == [c[0]]
    ensures Complaints(p, sch, key, item) == [] <==> Checked(p, sch, key, item).Some?
  {
  }

  lemma {:induction false} RefusedListed(p: Parsers, sch: Schema, flat: Entries) returns (at: seq<nat>)
    ensures ListsBad(p, sch, flat, at, Refused(p, sch, flat))
    decreases |flat|
  {
    if flat == [] {
      return [];
    }
    var (init, n) := (flat[..|flat| - 1], |flat| - 1);
    var (key, item) := flat[n];
    var before := RefusedListed(p, sch, init);
    var (errors, more) := (Refused(p, sch, init), Complaints(p, sch, key, item));
    OneComplaint(p, sch, key, item);
    forall i, c | 0 <= i < n ensures Complains(p, sch, flat, i, c) <==> Complains(p, sch, init, i, c) { assert init[i] == flat[i]; }
    if more == [] {
      at := before;
      assert errors + [] == errors;
    } else {
      at := before + [n];
      OneMoreListed(p, sch, flat, init, before, errors, more[0]);
    }
  }

  lemma {:induction false} OneMoreListed(p: Parsers, sch: Schema, flat: Entries, init: Entries, at: seq<nat>,
                                         errors: seq<Complaint>, c: Complaint)
    requires |flat| == |init| + 1 && ListsBad(p, sch, init, at, errors) && Complains(p, sch, flat, |init|, c)
    requires forall i, d :: 0 <= i < |init| ==> (Complains(p, sch, flat, i, d) <==> Complains(p, sch, init, i, d))
    ensures ListsBad(p, sch, flat, at + [|init|], errors + [c])
  {
    var (more, longer) := (at + [|init|], errors + [c]);
    forall n | 0 <= n < |more| ensures Complains(p, sch, flat, more[n], longer[n]) {
      if n < |at| { assert Complains(p, sch, init, at[n], errors[n]); }
    }
    forall n | 0 < n < |more| ensures more[n - 1] < more[n] { assert Complains(p, sch, init, at[n - 1], errors[n - 1]); }
    forall i, d | Complains(p, sch, flat, i, d) ensures i in more {
      if i < |init| { assert Complains(p, sch, init, i, d); }
    }
  }

  method CheckAll(p: Parsers, sch: Schema, flat: Entries) returns (values: map<string, Value>, errors: seq<Complaint>)
    ensures values == Settled(p, sch, flat) && errors == Refused(p, sch, flat)
    ensures AllListed(p, sch, flat, errors)
  {
    values, errors := map[], [];
    for i := 0 to |flat|
      invariant values == Settled(p, sch, flat[..i]) && errors == Refused(p, sch, flat[..i])
    {
      assert flat[..i + 1][..i] == flat[..i];
      var (key, item) := flat[i];
      var v := Checked(p, sch, key, item);
      if v.Some? {
        values := values[key := v.value];
      }
      errors := errors + Complaints(p, sch, key, item);
    }
    assert flat[..|flat|] == flat;
    var at := RefusedListed(p, sch, flat);
  }

  /// What the file says of a key is what its last acceptable entry says.
  lemma {:induction false} LastValidWins(p: Parsers, sch: Schema, flat: Entries, key: string)
    ensures key in Settled(p, sch, flat) <==>
              exists i :: 0 <= i < |flat| && flat[i].0 == key && Checked(p, sch, key, flat[i].1).Some?
    ensures forall i :: 0 <= i < |flat| && flat[i].0 == key && Checked(p, sch, key, flat[i].1).Some?
                        && (forall j :: i < j < |flat| && flat[j].0 == key ==> Checked(p, sch, key, flat[j].1).None?)
                        ==> key in Settled(p, sch, flat)
                            && Settled(p, sch, flat)[key] == Checked(p, sch, key, flat[i].1).value
    decreases |flat|
  {
    if flat != [] {
      var init := flat[..|flat| - 1];
      LastValidWins(p, sch, init, key);
      assert forall i :: 0 <= i < |init| ==> init[i] == flat[i];
    }
  }

  // ---- Profiles in a document ----------------------------------------------------------------------

  /// A profile: its name and matcher, and its overrides.
  datatype Scoped = Scoped(matcher: Profiles.Profile, overrides: map<string, Value>)

  function Entry(entries: Entries, key: string): Option<Item>
  {
    if entries == [] then None else if entries[0].0 == key then Some(entries[0].1) else Entry(entries[1..], key)
  }

  function KindNamed(key: string): Option<Profiles.Kind>
  {
    if key == "bundle-id" then Some(Profiles.BundleId)
    else if key == "process-name" then Some(Profiles.ProcessName)
    else if key == "window-class" then Some(Profiles.WindowClass)
    else None
  }

  /// The names of the matchers.
  predicate MatcherNamed(key: string, kind: Profiles.Kind)
  {
    || (key == "bundle-id" && kind.BundleId?) || (key == "process-name" && kind.ProcessName?)
    || (key == "window-class" && kind.WindowClass?)
  }

  lemma {:induction false} KindNamedIff(key: string, kind: Profiles.Kind)
    ensures KindNamed(key) == Some(kind) <==> MatcherNamed(key, kind)
  {
  }

  /// The matchers of a match table; None if an entry is no string or has an unknown name.
  function Matchers(name: string, entries: Entries): Option<seq<Profiles.Profile>>
  {
    if entries == [] then Some([])
    else
      var (key, item) := entries[0];
      var rest := Matchers(name, entries[1..]);
      if !item.Text? || KindNamed(key).None? || rest.None? then None
      else Some([Profiles.Profile(name, KindNamed(key).value, item.text)] + rest.value)
  }

  function Fields(item: Item): Option<Entries>
  {
    if item.Table? then Some(item.entries) else if item.Inline? then Some(item.fields) else None
  }

  function Overriding(entries: Entries): Entries
  {
    if entries == [] then []
    else
      var (key, item) := entries[0];
      (if key == "match" then [] else if item.Table? then Flattened(key, item, 0) else [(key, item)])
      + Overriding(entries[1..])
  }

  /// `parse_profile`: a table with exactly one matcher.
  function ParseProfile(p: Parsers, sch: Schema, name: string, body: Item): (r: Option<Scoped>)
    ensures r.Some? ==> AllValid(p, sch, r.value.overrides)
  {
    if !body.Table? then None
    else
      var m := Entry(body.entries, "match");
      if m.None? || Fields(m.value).None? then None
      else
        var found := Matchers(name, Fields(m.value).value);
        if found.None? || |found.value| != 1 then None
        else Some(Scoped(found.value[0], Settled(p, sch, Overriding(body.entries))))
  }

  lemma {:induction false} MatchersAre(name: string, entries: Entries)
    ensures var m := Matchers(name, entries);
            && (m.Some? <==> forall e :: e in entries ==> e.1.Text? && KindNamed(e.0).Some?)
            && (m.Some? ==> |m.value| == |entries| && forall i :: 0 <= i < |entries| ==>
                  m.value[i] == Profiles.Profile(name, KindNamed(entries[i].0).value, entries[i].1.text))
  {
    if entries != [] {
      MatchersAre(name, entries[1..]);
      assert entries == [entries[0]] + entries[1..];
    }
  }

  /// A profile is accepted exactly when it is a table whose match table has one entry, a known matcher
  /// with a string; that is its matcher, and it has the profile's name.
  lemma {:induction false} ProfileAcceptedIff(p: Parsers, sch: Schema, name: string, body: Item)
    ensures var m := if body.Table? then Entry(body.entries, "match") else None;
            var fields := if m.Some? then Fields(m.value) else None;
            var r := ParseProfile(p, sch, name, body);
            && (r.Some? <==> fields.Some? && |fields.value| == 1 && fields.value[0].1.Text? && KindNamed(fields.value[0].0).Some?)
            && (r.Some? ==> r.value.matcher
                            == Profiles.Profile(name, KindNamed(fields.value[0].0).value, fields.value[0].1.text))
  {
    if body.Table? && Entry(body.entries, "match").Some? {
      var fields := Fields(Entry(body.entries, "match").value);
      if fields.Some? {
        MatchersAre(name, fields.value);
        if |fields.value| == 1 {
          assert fields.value[0] in fields.value;
        }
      }
    }
  }

  function ParseProfiles(p: Parsers, sch: Schema, entries: Entries): (r: seq<Scoped>)
    ensures forall x :: x in r ==> AllValid(p, sch, x.overrides)
  {
    if entries == [] then []
    else
      var first := ParseProfile(p, sch, entries[0].0, entries[0].1);
      (if first.Some? then [first.value] else []) + ParseProfiles(p, sch, entries[1..])
  }

  function ProfilesOf(p: Parsers, sch: Schema, doc: Entries): (r: seq<Scoped>)
    ensures forall x :: x in r ==> AllValid(p, sch, x.overrides)
  {
    var item := Entry(doc, "profile");
    if item.Some? && item.value.Table? then ParseProfiles(p, sch, item.value.entries) else []
  }

  /// The dotted keys that are settings.
  function SettingsOf(flat: Entries): Entries
  {
    if flat == [] then []
    else (if flat[0].0 == "schema-version" || "profile." <= flat[0].0 then [] else [flat[0]]) + SettingsOf(flat[1..])
  }

  function FileValues(p: Parsers, sch: Schema, doc: Entries): (r: map<string, Value>)
    ensures AllValid(p, sch, r)
  {
    Settled(p, sch, SettingsOf(Flattened([], Table(doc), 0)))
  }
}
