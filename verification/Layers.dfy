// The layered configuration: built-in defaults, the system file, the user file, the matching profile
// and the environment (crates/config/src/layers.rs).

module Layers {
  import opened Common
  import opened Text
  import opened Settings
  import Documents
  import Profiles

  // ---- The environment -----------------------------------------------------------------------------

  const PREFIX := "OUTLOUD_"
  const LEGACY := "AQUA_"

  function Substituted(s: string, from: char, into: char): (r: string)
    ensures |r| == |s| && forall i :: 0 <= i < |s| ==> r[i] == if s[i] == from then into else s[i]
  {
    seq(|s|, i requires 0 <= i < |s| => if s[i] == from then into else s[i])
  }

  predicate Current(name: string) { PREFIX <= name }

  /// What follows the prefix; a legacy variable whose current twin is set counts for nothing.
  function Rest(names: seq<string>, name: string): Option<string>
  {
    if PREFIX <= name then Some(name[|PREFIX|..])
    else if LEGACY <= name && PREFIX + name[|LEGACY|..] !in names then Some(name[|LEGACY|..])
    else None
  }

  /// The first key that reads like this with its dashes as dots.
  function Normalised(sch: Schema, key: string, i: nat): (r: Option<KeySpec>)
    requires i <= |sch|
    ensures r.Some? ==> r.value in sch
    decreases |sch| - i
  {
    if i == |sch| then None
    else if Substituted(sch[i].key, '-', '.') == key then Some(sch[i])
    else Normalised(sch, key, i + 1)
  }

  function AsciiLower(s: string): (r: string)
    ensures |r| == |s| && forall i :: 0 <= i < |s| && !('A' <= s[i] <= 'Z') ==> r[i] == s[i]
    ensures forall i :: 0 <= i < |s| && 'A' <= s[i] <= 'Z' ==> 'a' <= r[i] <= 'z' && r[i] - 'a' == s[i] - 'A'
  {
    seq(|s|, i requires 0 <= i < |s| => if 'A' <= s[i] <= 'Z' then s[i] + 32 as char else s[i])
  }

  /// `split(',')`, each piece trimmed, the empty ones dropped; `piece` is the piece being read.
  function Pieces(raw: string, piece: string): seq<string>
  {
    if raw == [] then NonEmpty(Trim(piece))
    else if raw[0] == ',' then NonEmpty(Trim(piece)) + Pieces(raw[1..], [])
    else Pieces(raw[1..], piece + [raw[0]])
  }

  function NonEmpty(s: string): seq<string> { if s == [] then [] else [s] }

  /// `Value::parse_env`.
  function ParseEnv(p: Parsers, spec: KeySpec, raw: string): (r: Option<Value>)
    ensures r.Some? ==> SameType(r.value, spec.default)
  {
    match spec.default
    case Str(_) => Some(Str(raw))
    case Bool(_) =>
      if AsciiLower(raw) in ["true", "1", "yes", "on"] then Some(Bool(true))
      else if AsciiLower(raw) in ["false", "0", "no", "off"] then Some(Bool(false))
      else None
    case Int(_) => if p.integer(raw).Some? then Some(Int(p.integer(raw).value)) else None
    case List(_) => Some(List(Pieces(raw, [])))
  }

  /// The key that a variable sets, and to what; None if it is not ours, unknown, or refused.
  function Override(p: Parsers, sch: Schema, names: seq<string>, name: string, raw: string): Option<(string, Value)>
  {
    var rest := Rest(names, name);
    if rest.None? then None
    else
      var spec := Normalised(sch, Substituted(FoldAll(p.fold, rest.value), '_', '.'), 0);
      if spec.None? then None
      else
        var v := ParseEnv(p, spec.value, raw);
        if v.Some? && Passes(p, spec.value.constraint, v.value) then Some((spec.value.key, v.value)) else None
  }

  type Environment = seq<(string, string)>

  function Names(env: Environment): (r: seq<string>)
    ensures |r| == |env| && forall i :: 0 <= i < |env| ==> r[i] == env[i].0
  {
    seq(|env|, i requires 0 <= i < |env| => env[i].0)
  }

  /// The values the first n variables set, with the variable that set each: the last one that does.
  function EnvUpTo(p: Parsers, sch: Schema, env: Environment, n: nat): map<string, (Value, string)>
    requires n <= |env|
  {
    if n == 0 then map[]
    else
      var before := EnvUpTo(p, sch, env, n - 1);
      var o := Override(p, sch, Names(env), env[n - 1].0, env[n - 1].1);
      if o.Some? then before[o.value.0 := (o.value.1, env[n - 1].0)] else before
  }

  // ---- What the environment says -------------------------------------------------------------------

  /// The pieces of raw between commas.
  ghost predicate Between(raw: string, parts: seq<string>)
  {
    && parts != [] && (forall x :: x in parts ==> ',' !in x) && WithCommas(parts) == raw
  }

  function WithCommas(parts: seq<string>): string
    requires parts != []
  {
    if |parts| == 1 then parts[0] else parts[0] + "," + WithCommas(parts[1..])
  }

  /// The parts trimmed, without those of which nothing is left.
  function Kept(parts: seq<string>): seq<string>
  {
    if parts == [] then []
    else (if Trim(parts[0]) == "" then [] else [Trim(parts[0])]) + Kept(parts[1..])
  }

  lemma {:induction false} PiecesAre(raw: string, piece: string) returns (parts: seq<string>)
    requires ',' !in piece
    ensures Between(piece + raw, parts) && Pieces(raw, piece) == Kept(parts)
    decreases |raw|
  {
    if raw == [] {
      parts := [piece];
      assert piece + raw == piece;
    } else if raw[0] == ',' {
      var rest := PiecesAre(raw[1..], []);
      assert [] + raw[1..] == raw[1..];
      parts := [piece] + rest;
      assert parts[1..] == rest && piece + raw == piece + "," + raw[1..];
    } else {
      parts := PiecesAre(raw[1..], piece + [raw[0]]);
      assert piece + raw == piece + [raw[0]] + raw[1..];
    }
  }

  /// The text of a variable gives v for a key with this default.
  ghost predicate Parses(p: Parsers, template: Value, raw: string, v: Value)
  {
    || (template.Str? && v == Str(raw))
    || (template.Bool? && v == Bool(true) && AsciiLower(raw) in ["true", "1", "yes", "on"])
    || (template.Bool? && v == Bool(false) && AsciiLower(raw) in ["false", "0", "no", "off"])
    || (template.Int? && v.Int? && p.integer(raw) == Some(v.i))
    || (template.List? && v.List? && exists parts :: Between(raw, parts) && v.items == Kept(parts))
  }

  function CommaAt(raw: string): (n: nat)
    ensures n <= |raw| && (n < |raw| ==> raw[n] == ',') && forall i :: 0 <= i < n ==> raw[i] != ','
  {
    if raw == [] || raw[0] == ',' then 0 else 1 + CommaAt(raw[1..])
  }

  /// The first part ends where the first comma stands.
  lemma {:induction false} FirstPart(raw: string, parts: seq<string>, n: nat)
    requires Between(raw, parts) && n == CommaAt(raw)
    ensures parts[0] == raw[..n] && (|parts| == 1 <==> n == |raw|)
    ensures n < |raw| ==> Between(raw[n + 1..], parts[1..])
  {
    var first := parts[0];
    assert first in parts && first <= raw;
    forall i | 0 <= i < |first| ensures raw[i] != ',' { assert raw[i] == first[i] && first[i] in first; }
    if |parts| > 1 {
      assert raw[|first|] == ',';
      assert raw[|first| + 1..] == WithCommas(parts[1..]);
      assert forall x :: x in parts[1..] ==> x in parts;
    }
  }

  lemma {:induction false} BetweenIsOne(raw: string, a: seq<string>, b: seq<string>)
    requires Between(raw, a) && Between(raw, b)
    ensures a == b
    decreases |raw|
  {
    var n := CommaAt(raw);
    FirstPart(raw, a, n);
    FirstPart(raw, b, n);
    assert a == [a[0]] + a[1..] && b == [b[0]] + b[1..];
    if n < |raw| { BetweenIsOne(raw[n + 1..], a[1..], b[1..]); }
  }

  lemma {:induction false} ParseEnvIff(p: Parsers, spec: KeySpec, raw: string, v: Value)
    ensures ParseEnv(p, spec, raw) == Some(v) <==> Parses(p, spec.default, raw, v)
  {
    if spec.default.List? {
      var parts := PiecesAre(raw, []);
      assert [] + raw == raw;
      forall other | Between(raw, other) ensures other == parts { BetweenIsOne(raw, other, parts); }
    } else if spec.default.Bool? {
      var low := AsciiLower(raw);
      assert low in ["true", "1", "yes", "on"] ==> low !in ["false", "0", "no", "off"];
    }
  }

  /// What follows the prefix of the variable: the current one, or the old one of a variable that is
  /// not set under the current one as well.
  ghost predicate Ours(env: Environment, i: nat, rest: string)
    requires i < |env|
  {
    || env[i].0 == PREFIX + rest
    || (env[i].0 == LEGACY + rest && forall j :: 0 <= j < |env| ==> env[j].0 != PREFIX + rest)
  }

  /// The key reads like the rest of the name: lower-cased, with underscores and dashes as dots.
  predicate ReadsLike(p: Parsers, key: string, rest: string)
  {
    Substituted(key, '-', '.') == Substituted(FoldAll(p.fold, rest), '_', '.')
  }

  ghost predicate FirstLike(p: Parsers, sch: Schema, rest: string, i: nat, k: int)
  {
    i <= k < |sch| && ReadsLike(p, sch[k].key, rest) && forall j :: i <= j < k ==> !ReadsLike(p, sch[j].key, rest)
  }

  /// Variable i sets the key to v: the key is the first of the schema that reads like it, its text
  /// gives v, and v passes the constraint.
  ghost predicate Sets(p: Parsers, sch: Schema, env: Environment, i: nat, key: string, v: Value)
    requires i < |env|
  {
    exists rest, k :: && Ours(env, i, rest) && FirstLike(p, sch, rest, 0, k) && sch[k].key == key
                      && Parses(p, sch[k].default, env[i].1, v) && Passes(p, sch[k].constraint, v)
  }

  lemma {:induction false} NormalisedIs(p: Parsers, sch: Schema, rest: string, i: nat)
    requires i <= |sch|
    ensures var r := Normalised(sch, Substituted(FoldAll(p.fold, rest), '_', '.'), i);
            && (r.None? <==> forall j :: i <= j < |sch| ==> !ReadsLike(p, sch[j].key, rest))
            && (forall k :: FirstLike(p, sch, rest, i, k) ==> r == Some(sch[k]))
            && (r.Some? ==> exists k :: FirstLike(p, sch, rest, i, k) && r == Some(sch[k]))
    decreases |sch| - i
  {
    if i < |sch| {
      NormalisedIs(p, sch, rest, i + 1);
      if ReadsLike(p, sch[i].key, rest) {
        assert FirstLike(p, sch, rest, i, i);
      } else {
        forall k ensures FirstLike(p, sch, rest, i, k) <==> FirstLike(p, sch, rest, i + 1, k) {}
      }
    }
  }

  lemma {:induction false} NamedIff(env: Environment, name: string)
    ensures name in Names(env) <==> exists j :: 0 <= j < |env| && env[j].0 == name
  {
    var names := Names(env);
    if name in names {
      var j :| 0 <= j < |names| && names[j] == name;
      assert env[j].0 == name;
    }
    forall j | 0 <= j < |env| && env[j].0 == name ensures name in names { assert names[j] in names; }
  }

  lemma {:induction false} Prefixed(prefix: string, name: string, rest: string)
    ensures prefix <= name && name[|prefix|..] == rest <==> name == prefix + rest
  {
    if prefix <= name { assert name == prefix + name[|prefix|..]; }
  }

  lemma {:induction false} RestIff(env: Environment, i: nat, rest: string)
    requires i < |env|
    ensures Rest(Names(env), env[i].0) == Some(rest) <==> Ours(env, i, rest)
  {
    var name := env[i].0;
    Prefixed(PREFIX, name, rest);
    Prefixed(LEGACY, name, rest);
    NamedIff(env, PREFIX + rest);
    assert PREFIX[0] != LEGACY[0];
  }

  lemma {:induction false} OverrideIff(p: Parsers, sch: Schema, env: Environment, i: nat, key: string, v: Value)
    requires i < |env|
    ensures Override(p, sch, Names(env), env[i].0, env[i].1) == Some((key, v)) <==> Sets(p, sch, env, i, key, v)
  {
    var r := Rest(Names(env), env[i].0);
    forall rest ensures r == Some(rest) <==> Ours(env, i, rest) { RestIff(env, i, rest); }
    if r.Some? {
      NormalisedIs(p, sch, r.value, 0);
      var spec := Normalised(sch, Substituted(FoldAll(p.fold, r.value), '_', '.'), 0);
      if spec.Some? { ParseEnvIff(p, spec.value, env[i].1, v); }
    }
  }

  /// The variable of that name is the last that sets the key, and sets it to v.
  ghost predicate EnvSays(p: Parsers, sch: Schema, env: Environment, n: nat, key: string, v: Value, name: string)
    requires n <= |env|
  {
    exists i :: 0 <= i < n && env[i].0 == name && Sets(p, sch, env, i, key, v)
                && forall j, w :: i < j < n ==> !Sets(p, sch, env, j, key, w)
  }

  /// The same, over what each variable was found to set.
  ghost predicate LastSetting(found: seq<Option<(string, Value)>>, env: Environment, n: nat, key: string, v: Value, name: string)
    requires n <= |env| == |found|
  {
    exists i :: 0 <= i < n && env[i].0 == name && found[i] == Some((key, v))
                && forall j :: i < j < n && found[j].Some? ==> found[j].value.0 != key
  }

  function Overrides(p: Parsers, sch: Schema, env: Environment): (r: seq<Option<(string, Value)>>)
    ensures |r| == |env|
    ensures forall i :: 0 <= i < |env| ==> r[i] == Override(p, sch, Names(env), env[i].0, env[i].1)
  {
    seq(|env|, i requires 0 <= i < |env| => Override(p, sch, Names(env), env[i].0, env[i].1))
  }

  lemma {:induction false} LastMore(found: seq<Option<(string, Value)>>, env: Environment, n: nat, key: string, v: Value, name: string)
    requires n < |env| == |found|
    ensures LastSetting(found, env, n + 1, key, v, name)
            <==> if found[n].Some? && found[n].value.0 == key then env[n].0 == name && found[n].value.1 == v
                 else LastSetting(found, env, n, key, v, name)
  {
    if found[n].Some? && found[n].value.0 == key && env[n].0 == name && found[n].value.1 == v {
      assert found[n] == Some((key, v));
    }
  }

  /// What each key was last set to, and by which variable, among the first n.
  ghost function Collected(found: seq<Option<(string, Value)>>, env: Environment, n: nat): map<string, (Value, string)>
    requires n <= |env| == |found|
  {
    if n == 0 then map[]
    else
      var before := Collected(found, env, n - 1);
      if found[n - 1].Some? then before[found[n - 1].value.0 := (found[n - 1].value.1, env[n - 1].0)] else before
  }

  lemma {:induction false} EnvIsCollected(p: Parsers, sch: Schema, env: Environment, found: seq<Option<(string, Value)>>, n: nat)
    requires n <= |env| && found == Overrides(p, sch, env)
    ensures EnvUpTo(p, sch, env, n) == Collected(found, env, n)
  {
    if n > 0 { EnvIsCollected(p, sch, env, found, n - 1); }
  }

  lemma {:induction false} CollectedIsLast(found: seq<Option<(string, Value)>>, env: Environment, n: nat, key: string, v: Value, name: string)
    requires n <= |env| == |found|
    ensures key in Collected(found, env, n) && Collected(found, env, n)[key] == (v, name)
            <==> LastSetting(found, env, n, key, v, name)
  {
    if n > 0 {
      CollectedIsLast(found, env, n - 1, key, v, name);
      LastMore(found, env, n - 1, key, v, name);
    }
  }

  lemma {:induction false} EnvIsLast(p: Parsers, sch: Schema, env: Environment, found: seq<Option<(string, Value)>>, n: nat,
                                     key: string, v: Value, name: string)
    requires n <= |env| && found == Overrides(p, sch, env)
    ensures key in EnvUpTo(p, sch, env, n) && EnvUpTo(p, sch, env, n)[key] == (v, name)
            <==> LastSetting(found, env, n, key, v, name)
  {
    EnvIsCollected(p, sch, env, found, n);
    CollectedIsLast(found, env, n, key, v, name);
  }

  lemma {:induction false} FoundIff(p: Parsers, sch: Schema, env: Environment, found: seq<Option<(string, Value)>>, i: nat, key: string)
    requires i < |env| && found == Overrides(p, sch, env)
    ensures forall v :: found[i] == Some((key, v)) <==> Sets(p, sch, env, i, key, v)
    ensures found[i].Some? && found[i].value.0 == key ==> Sets(p, sch, env, i, key, found[i].value.1)
  {
    forall v ensures found[i] == Some((key, v)) <==> Sets(p, sch, env, i, key, v) { OverrideIff(p, sch, env, i, key, v); }
    if found[i].Some? && found[i].value.0 == key { assert found[i] == Some((key, found[i].value.1)); }
  }

  /// What the environment says of a key is what the last variable that sets it gives.
  lemma {:induction false} EnvSaysIff(p: Parsers, sch: Schema, env: Environment, key: string, v: Value, name: string)
    ensures key in EnvUpTo(p, sch, env, |env|) && EnvUpTo(p, sch, env, |env|)[key] == (v, name)
            <==> EnvSays(p, sch, env, |env|, key, v, name)
  {
    var found := Overrides(p, sch, env);
    EnvIsLast(p, sch, env, found, |env|, key, v, name);
    if LastSetting(found, env, |env|, key, v, name) { LastIsSaid(p, sch, env, found, key, v, name); }
    if EnvSays(p, sch, env, |env|, key, v, name) { SaidIsLast(p, sch, env, found, key, v, name); }
  }

  lemma {:induction false} LastIsSaid(p: Parsers, sch: Schema, env: Environment, found: seq<Option<(string, Value)>>,
                                      key: string, v: Value, name: string)
    requires found == Overrides(p, sch, env) && LastSetting(found, env, |env|, key, v, name)
    ensures EnvSays(p, sch, env, |env|, key, v, name)
  {
    var i :| 0 <= i < |env| && env[i].0 == name && found[i] == Some((key, v))
             && forall j :: i < j < |env| && found[j].Some? ==> found[j].value.0 != key;
    FoundIff(p, sch, env, found, i, key);
    forall j, w | i < j < |env| ensures !Sets(p, sch, env, j, key, w) { FoundIff(p, sch, env, found, j, key); }
  }

  lemma {:induction false} SaidIsLast(p: Parsers, sch: Schema, env: Environment, found: seq<Option<(string, Value)>>,
                                      key: string, v: Value, name: string)
    requires found == Overrides(p, sch, env) && EnvSays(p, sch, env, |env|, key, v, name)
    ensures LastSetting(found, env, |env|, key, v, name)
  {
    var i :| 0 <= i < |env| && env[i].0 == name && Sets(p, sch, env, i, key, v)
             && forall j, w :: i < j < |env| ==> !Sets(p, sch, env, j, key, w);
    FoundIff(p, sch, env, found, i, key);
    forall j | i < j < |env| && found[j].Some? ensures found[j].value.0 != key { FoundIff(p, sch, env, found, j, key); }
  }

  lemma {:induction false} SpecOfMember(sch: Schema, spec: KeySpec)
    requires spec in sch && forall i, j :: 0 <= i < j < |sch| ==> sch[i].key != sch[j].key
    ensures SpecFor(sch, spec.key) == Some(spec)
  {
  }

  lemma {:induction false} EnvIsValid(p: Parsers, sch: Schema, env: Environment, n: nat, key: string)
    requires GoodSchema(p, sch) && n <= |env| && key in EnvUpTo(p, sch, env, n)
    ensures Valid(p, sch, key, EnvUpTo(p, sch, env, n)[key].0)
  {
    var o := Override(p, sch, Names(env), env[n - 1].0, env[n - 1].1);
    if o.Some? && o.value.0 == key {
      var rest := Rest(Names(env), env[n - 1].0).value;
      SpecOfMember(sch, Normalised(sch, Substituted(FoldAll(p.fold, rest), '_', '.'), 0).value);
    } else {
      EnvIsValid(p, sch, env, n - 1, key);
    }
  }

  /// A sorted environment: a name beginning with a smaller letter comes first.
  ghost predicate Sorted(env: Environment)
  {
    forall i, j :: 0 <= i < j < |env| && env[i].0 != [] && env[j].0 != [] ==> env[i].0[0] <= env[j].0[0]
  }

  /// Whatever the spelling of the two: a key whose value comes from a legacy variable is one that no
  /// variable with the current prefix sets.
  lemma {:induction false} CurrentPrefixWins(p: Parsers, sch: Schema, env: Environment, n: nat, key: string, i: nat)
    requires Sorted(env) && i < n <= |env|
    requires Current(env[i].0) && Override(p, sch, Names(env), env[i].0, env[i].1).Some?
    requires Override(p, sch, Names(env), env[i].0, env[i].1).value.0 == key
    ensures key in EnvUpTo(p, sch, env, n) && Current(EnvUpTo(p, sch, env, n)[key].1)
    decreases n
  {
    if i < n - 1 {
      CurrentPrefixWins(p, sch, env, n - 1, key, i);
      var last := env[n - 1].0;
      if Override(p, sch, Names(env), last, env[n - 1].1).Some? {
        assert env[i].0[0] == 'O';
        assert LEGACY[0] == 'A';
        assert Current(last);
      }
    }
  }

  // ---- The configuration ---------------------------------------------------------------------------

  datatype Layer = Default | SystemFile(path: string) | UserFile(path: string) | ProfileLayer(name: string) | Env(name: string)

  function Precedence(l: Layer): nat
  {
    match l
    case Default => 0
    case SystemFile(_) => 1
    case UserFile(_) => 2
    case ProfileLayer(_) => 3
    case Env(_) => 4
  }

  datatype LayerValues = LayerValues(layer: Layer, values: map<string, Value>)

  datatype Config = Config(layers: seq<LayerValues>, profiles: seq<Scoped>)

  datatype Provenance = Provenance(value: Value, layer: Layer, shadowed: seq<(Value, Layer)>)

  predicate Disjoint(a: LayerValues, b: LayerValues) { a.values.Keys !! b.values.Keys }

  /// Later layers have higher precedence; two environment layers set different keys.
  ghost predicate Stacked(layers: seq<LayerValues>)
  {
    forall i, j :: 0 <= i < j < |layers| ==>
      || Precedence(layers[i].layer) < Precedence(layers[j].layer)
      || (layers[i].layer.Env? && layers[j].layer.Env? && Disjoint(layers[i], layers[j]))
  }

  ghost predicate LayersValid(p: Parsers, sch: Schema, layers: seq<LayerValues>)
  {
    && (forall i :: 0 <= i < |layers| ==> AllValid(p, sch, layers[i].values))
    && (forall i :: 0 <= i < |layers| ==> !layers[i].layer.ProfileLayer?)
  }

  ghost predicate WellFormed(p: Parsers, sch: Schema, c: Config)
  {
    && c.layers != [] && c.layers[0].layer == Default
    && (forall i :: 0 <= i < |sch| ==> sch[i].key in c.layers[0].values)
    && Stacked(c.layers) && LayersValid(p, sch, c.layers)
    && (forall x :: x in c.profiles ==> AllValid(p, sch, x.overrides))
  }

  function Defaults(sch: Schema, n: nat): (r: map<string, Value>)
    requires n <= |sch|
  {
    if n == 0 then map[] else Defaults(sch, n - 1)[sch[n - 1].key := sch[n - 1].default]
  }

  lemma {:induction false} DefaultsValid(p: Parsers, sch: Schema, n: nat)
    requires GoodSchema(p, sch) && n <= |sch|
    ensures AllValid(p, sch, Defaults(sch, n))
    ensures forall i :: 0 <= i < n ==> sch[i].key in Defaults(sch, n)
  {
    if n > 0 {
      DefaultsValid(p, sch, n - 1);
      SpecOfMember(sch, sch[n - 1]);
    }
  }

  /// A file: its path and its document; a document that is no TOML is None.
  datatype File = File(path: string, doc: Option<Entries>)

  /// What the two files contribute, lowest first.
  function FileLayers(p: Parsers, sch: Schema, system: Option<File>, user: Option<File>): (r: seq<LayerValues>)
    ensures |r| <= 2 && (|r| == 2 ==> Precedence(r[0].layer) < Precedence(r[1].layer))
    ensures forall i :: 0 <= i < |r| ==> AllValid(p, sch, r[i].values) && 1 <= Precedence(r[i].layer) <= 2
  {
    (if system.Some? && system.value.doc.Some?
     then [LayerValues(SystemFile(system.value.path), FileValues(p, sch, system.value.doc.value))] else [])
    + (if user.Some? && user.value.doc.Some?
       then [LayerValues(UserFile(user.value.path), FileValues(p, sch, user.value.doc.value))] else [])
  }

  function FileProfiles(p: Parsers, sch: Schema, file: Option<File>): (r: seq<Scoped>)
    ensures forall x :: x in r ==> AllValid(p, sch, x.overrides)
  {
    if file.Some? && file.value.doc.Some? then ProfilesOf(p, sch, file.value.doc.value) else []
  }

  predicate Malformed(file: Option<File>) { file.Some? && file.value.doc.None? }

  // ---- What the layers hold ------------------------------------------------------------------------

  predicate Holds(values: map<string, Value>, key: string, v: Value) { key in values && values[key] == v }

  /// Each key of the schema with its own default, and no other.
  ghost predicate HoldsDefaults(sch: Schema, values: map<string, Value>)
  {
    forall key, v :: Holds(values, key, v) <==> exists i :: 0 <= i < |sch| && sch[i].key == key && sch[i].default == v
  }

  /// What the last acceptable leaf of the document under each key says.
  ghost predicate HoldsFile(p: Parsers, sch: Schema, doc: Entries, values: map<string, Value>)
  {
    forall key, v :: Holds(values, key, v)
                     <==> key != "schema-version" && Documents.SaidLast(p, sch, Documents.File, Table(doc), key, v)
  }

  function Present(file: Option<File>): nat { if file.Some? then 1 else 0 }

  /// The defaults, then the system file and the user file if there are any, then the environment.
  ghost predicate InPlace(p: Parsers, sch: Schema, system: Option<File>, user: Option<File>, layers: seq<LayerValues>)
  {
    var n := 1 + Present(system);
    && |layers| >= n + Present(user)
    && layers[0].layer == Default && HoldsDefaults(sch, layers[0].values)
    && (system.Some? ==> && system.value.doc.Some? && layers[1].layer == SystemFile(system.value.path)
                         && HoldsFile(p, sch, system.value.doc.value, layers[1].values))
    && (user.Some? ==> && user.value.doc.Some? && layers[n].layer == UserFile(user.value.path)
                       && HoldsFile(p, sch, user.value.doc.value, layers[n].values))
    && forall i :: n + Present(user) <= i < |layers| ==> layers[i].layer.Env?
  }

  /// A layer named after the variable says v of the key.
  ghost predicate InEnvironment(layers: seq<LayerValues>, key: string, v: Value, name: string)
  {
    exists i :: 0 <= i < |layers| && layers[i].layer == Env(name) && Holds(layers[i].values, key, v)
  }

  /// A layer of the environment says v of a key exactly when the variable it is named after is the last
  /// that sets the key, and sets it to v.
  ghost predicate HoldsEnvironment(p: Parsers, sch: Schema, env: Environment, layers: seq<LayerValues>)
  {
    forall key, v, name :: InEnvironment(layers, key, v, name) <==> EnvSays(p, sch, env, |env|, key, v, name)
  }

  lemma {:induction false} DefaultsAre(sch: Schema, n: nat, key: string, v: Value)
    requires n <= |sch| && Documents.Distinct(sch)
    ensures Holds(Defaults(sch, n), key, v)
            <==> exists i :: 0 <= i < n && sch[i].key == key && sch[i].default == v
  {
    if n > 0 { DefaultsAre(sch, n - 1, key, v); }
  }

  lemma {:induction false} DefaultsHeld(sch: Schema)
    requires Documents.Distinct(sch)
    ensures HoldsDefaults(sch, Defaults(sch, |sch|))
  {
    var values := Defaults(sch, |sch|);
    forall key, v ensures Holds(values, key, v)
                          <==> exists i :: 0 <= i < |sch| && sch[i].key == key && sch[i].default == v
    {
      DefaultsAre(sch, |sch|, key, v);
    }
  }

  lemma {:induction false} FileHeld(p: Parsers, sch: Schema, doc: Entries)
    requires Documents.Distinct(sch)
    ensures HoldsFile(p, sch, doc, FileValues(p, sch, doc))
  {
    var values := FileValues(p, sch, doc);
    forall key, v ensures Holds(values, key, v)
                          <==> key != "schema-version" && Documents.SaidLast(p, sch, Documents.File, Table(doc), key, v)
    {
      Documents.FileSaysIff(p, sch, doc, key, v);
    }
  }

  lemma {:induction false} FixedInPlace(p: Parsers, sch: Schema, system: Option<File>, user: Option<File>, fixed: seq<LayerValues>,
                                        overrides: seq<LayerValues>)
    requires Documents.Distinct(sch) && !Malformed(system) && !Malformed(user)
    requires fixed == [LayerValues(Default, Defaults(sch, |sch|))] + FileLayers(p, sch, system, user)
    requires forall i :: 0 <= i < |overrides| ==> overrides[i].layer.Env?
    ensures InPlace(p, sch, system, user, fixed + overrides) && |fixed| == 1 + Present(system) + Present(user)
  {
    DefaultsHeld(sch);
    if system.Some? { FileHeld(p, sch, system.value.doc.value); }
    if user.Some? { FileHeld(p, sch, user.value.doc.value); }
  }

  lemma {:induction false} EnvironmentHeld(p: Parsers, sch: Schema, env: Environment, values: map<string, (Value, string)>,
                                           keys: seq<string>, fixed: seq<LayerValues>, overrides: seq<LayerValues>)
    requires values == EnvUpTo(p, sch, env, |env|) && Lists(keys, values) && overrides == LayersFor(values, keys)
    requires forall i :: 0 <= i < |fixed| ==> !fixed[i].layer.Env?
    ensures HoldsEnvironment(p, sch, env, fixed + overrides)
  {
    var layers := fixed + overrides;
    forall key, v, name
      ensures InEnvironment(layers, key, v, name) <==> EnvSays(p, sch, env, |env|, key, v, name)
    {
      EnvSaysIff(p, sch, env, key, v, name);
      EnvLayerIff(values, keys, fixed, overrides, key, v, name);
    }
  }

  lemma {:induction false} EnvLayerIff(values: map<string, (Value, string)>, keys: seq<string>, fixed: seq<LayerValues>,
                                       overrides: seq<LayerValues>, key: string, v: Value, name: string)
    requires Lists(keys, values) && overrides == LayersFor(values, keys)
    requires forall i :: 0 <= i < |fixed| ==> !fixed[i].layer.Env?
    ensures InEnvironment(fixed + overrides, key, v, name) <==> key in values && values[key] == (v, name)
  {
    var layers := fixed + overrides;
    if key in values && values[key] == (v, name) {
      assert key in keys;
      var k :| 0 <= k < |keys| && keys[k] == key;
      assert layers[|fixed| + k] == overrides[k] == OneLayer(key, (v, name));
    }
    if i :| 0 <= i < |layers| && layers[i].layer == Env(name) && Holds(layers[i].values, key, v) {
      assert layers[i] == overrides[i - |fixed|] == OneLayer(keys[i - |fixed|], values[keys[i - |fixed|]]);
      assert keys[i - |fixed|] in keys;
    }
  }

  /// `Config::build`; None for a file that is not TOML. The layers are the defaults, the files that
  /// there are, and one layer for each key that the environment sets.
  method Build(p: Parsers, sch: Schema, system: Option<File>, user: Option<File>, env: Environment)
      returns (r: Option<Config>)
    requires GoodSchema(p, sch)
    ensures r.None? <==> Malformed(system) || Malformed(user)
    ensures r.Some? ==> WellFormed(p, sch, r.value)
    ensures r.Some? ==>
              var fixed := [LayerValues(Default, Defaults(sch, |sch|))] + FileLayers(p, sch, system, user);
              && fixed <= r.value.layers
              && (exists keys :: Lists(keys, EnvUpTo(p, sch, env, |env|))
                                 && r.value.layers[|fixed|..] == LayersFor(EnvUpTo(p, sch, env, |env|), keys))
              && r.value.profiles == FileProfiles(p, sch, system) + FileProfiles(p, sch, user)
    ensures r.Some? ==> InPlace(p, sch, system, user, r.value.layers) && HoldsEnvironment(p, sch, env, r.value.layers)
  {
    if Malformed(system) || Malformed(user) {
      return None;
    }
    var fixed := [LayerValues(Default, Defaults(sch, |sch|))] + FileLayers(p, sch, system, user);
    var set_ := map[];
    for i := 0 to |env|
      invariant set_ == EnvUpTo(p, sch, env, i)
    {
      var o := Override(p, sch, Names(env), env[i].0, env[i].1);
      if o.Some? {
        set_ := set_[o.value.0 := (o.value.1, env[i].0)];
      }
    }
    var keys := Enumerated(set_);
    var overrides := LayersFor(set_, keys);
    FixedWellFormed(p, sch, system, user);
    forall k | k in set_ ensures Valid(p, sch, k, set_[k].0) {
      EnvIsValid(p, sch, env, |env|, k);
    }
    EnvLayersValid(p, sch, set_, keys);
    StackedOn(p, sch, fixed, overrides);
    assert (fixed + overrides)[|fixed|..] == overrides;
    FixedInPlace(p, sch, system, user, fixed, overrides);
    EnvironmentHeld(p, sch, env, set_, keys, fixed, overrides);
    var profiles := FileProfiles(p, sch, system) + FileProfiles(p, sch, user);
    r := Some(Config(fixed + overrides, profiles));
  }

  /// Every key of the map, once each.
  ghost predicate Lists(keys: seq<string>, values: map<string, (Value, string)>)
  {
    && (forall k :: k in keys <==> k in values)
    && (forall i, j :: 0 <= i < j < |keys| ==> keys[i] != keys[j])
  }

  /// One layer for each key, naming the variable that set it.
  function LayersFor(values: map<string, (Value, string)>, keys: seq<string>): (r: seq<LayerValues>)
    requires forall k :: k in keys ==> k in values
    ensures |r| == |keys|
    ensures forall i :: 0 <= i < |keys| ==> r[i] == OneLayer(keys[i], values[keys[i]])
  {
    seq(|keys|, i requires 0 <= i < |keys| => OneLayer(keys[i], values[keys[i]]))
  }

  function OneLayer(key: string, v: (Value, string)): LayerValues
  {
    LayerValues(Env(v.1), map[key := v.0])
  }

  method Enumerated(values: map<string, (Value, string)>) returns (keys: seq<string>)
    ensures Lists(keys, values)
  {
    keys := [];
    var left := values.Keys;
    while left != {}
      invariant forall k :: k in values <==> k in keys || k in left
      invariant forall i :: 0 <= i < |keys| ==> keys[i] !in left
      invariant forall i, j :: 0 <= i < j < |keys| ==> keys[i] != keys[j]
    {
      var k :| k in left;
      left := left - {k};
      keys := keys + [k];
    }
  }

  lemma {:induction false} OnDefaults(p: Parsers, sch: Schema, defaults: map<string, Value>, files: seq<LayerValues>)
    requires AllValid(p, sch, defaults) && forall i :: 0 <= i < |sch| ==> sch[i].key in defaults
    requires |files| <= 2 && (|files| == 2 ==> Precedence(files[0].layer) < Precedence(files[1].layer))
    requires forall i :: 0 <= i < |files| ==> AllValid(p, sch, files[i].values) && 1 <= Precedence(files[i].layer) <= 2
    ensures var fixed := [LayerValues(Default, defaults)] + files;
            WellFormed(p, sch, Config(fixed, []))
            && forall i :: 0 <= i < |fixed| ==> Precedence(fixed[i].layer) < 3
  {
    var fixed := [LayerValues(Default, defaults)] + files;
    assert forall i :: 1 <= i < |fixed| ==> fixed[i] == files[i - 1];
  }

  lemma {:induction false} FixedWellFormed(p: Parsers, sch: Schema, system: Option<File>, user: Option<File>)
    requires GoodSchema(p, sch)
    ensures var fixed := [LayerValues(Default, Defaults(sch, |sch|))] + FileLayers(p, sch, system, user);
            WellFormed(p, sch, Config(fixed, []))
            && forall i :: 0 <= i < |fixed| ==> Precedence(fixed[i].layer) < 3
  {
    DefaultsValid(p, sch, |sch|);
    OnDefaults(p, sch, Defaults(sch, |sch|), FileLayers(p, sch, system, user));
  }

  lemma {:induction false} OneLayerValid(p: Parsers, sch: Schema, key: string, v: (Value, string))
    requires Valid(p, sch, key, v.0)
    ensures AllValid(p, sch, OneLayer(key, v).values) && OneLayer(key, v).layer.Env?
  {
  }

  lemma {:induction false} EnvLayersValid(p: Parsers, sch: Schema, values: map<string, (Value, string)>, keys: seq<string>)
    requires Lists(keys, values) && forall k :: k in values ==> Valid(p, sch, k, values[k].0)
    ensures LayersValid(p, sch, LayersFor(values, keys)) && Stacked(LayersFor(values, keys))
    ensures forall i :: 0 <= i < |keys| ==> LayersFor(values, keys)[i].layer.Env?
  {
    var layers := LayersFor(values, keys);
    forall i | 0 <= i < |layers| ensures AllValid(p, sch, layers[i].values) && layers[i].layer.Env? {
      assert keys[i] in keys;
      OneLayerValid(p, sch, keys[i], values[keys[i]]);
    }
    forall i, j | 0 <= i < j < |layers| ensures Disjoint(layers[i], layers[j]) {
      assert keys[i] != keys[j];
    }
  }

  lemma {:induction false} StackedOn(p: Parsers, sch: Schema, fixed: seq<LayerValues>, overrides: seq<LayerValues>)
    requires WellFormed(p, sch, Config(fixed, [])) && LayersValid(p, sch, overrides) && Stacked(overrides)
    requires forall i :: 0 <= i < |fixed| ==> Precedence(fixed[i].layer) < 3
    requires forall i :: 0 <= i < |overrides| ==> overrides[i].layer.Env?
    ensures WellFormed(p, sch, Config(fixed + overrides, []))
  {
    var all := fixed + overrides;
    assert forall i :: 0 <= i < |fixed| ==> all[i] == fixed[i];
    assert forall i :: |fixed| <= i < |all| ==> all[i] == overrides[i - |fixed|];
  }

  // ---- Looking up a key ----------------------------------------------------------------------------

  function Reversed<T>(s: seq<T>): (r: seq<T>)
    ensures |r| == |s| && forall i :: 0 <= i < |s| ==> r[i] == s[|s| - 1 - i]
  {
    seq(|s|, i requires 0 <= i < |s| => s[|s| - 1 - i])
  }

  /// Everything a lookup reports, lowest precedence first.
  function History(r: Provenance): seq<(Value, Layer)> { Reversed(r.shadowed) + [(r.value, r.layer)] }

  function Matching(profiles: seq<Scoped>): (r: seq<Profiles.Profile>)
    ensures |r| == |profiles| && forall i :: 0 <= i < |r| ==> r[i] == profiles[i].matcher
  {
    seq(|profiles|, i requires 0 <= i < |profiles| => profiles[i].matcher)
  }

  /// The profile selected for the application, if there is one.
  function Active(p: Parsers, c: Config, app: Option<Profiles.App>): (r: Option<Scoped>)
    ensures r.Some? ==> r.value in c.profiles
  {
    if app.None? then None
    else
      var names := Matching(c.profiles);
      var chosen := Profiles.Chosen(Profiles.Hits(p.fold, names, app.value), |names|);
      if chosen.None? then None else Some(c.profiles[chosen.value.winner])
  }

  /// (v, layer) is what a layer of the configuration, or the active profile, says of the key.
  ghost predicate Says(c: Config, active: Option<Scoped>, key: string, v: Value, layer: Layer)
  {
    || (exists i :: 0 <= i < |c.layers| && key in c.layers[i].values
                    && v == c.layers[i].values[key] && layer == c.layers[i].layer)
    || (active.Some? && key in active.value.overrides && v == active.value.overrides[key]
        && layer == ProfileLayer(active.value.matcher.name))
  }

  ghost predicate Rising(hits: seq<(Value, Layer)>)
  {
    forall i, j :: 0 <= i < j < |hits| ==> Precedence(hits[i].1) < Precedence(hits[j].1)
  }

  /// What the layers say of the key, in order.
  function Said(layers: seq<LayerValues>, key: string, n: nat): (r: seq<(Value, Layer)>)
    requires n <= |layers|
  {
    if n == 0 then []
    else Said(layers, key, n - 1)
         + (if key in layers[n - 1].values then [(layers[n - 1].values[key], layers[n - 1].layer)] else [])
  }

  /// Where the environment begins, or the end.
  function EnvStart(hits: seq<(Value, Layer)>, i: nat): (r: nat)
    requires i <= |hits|
    ensures i <= r <= |hits|
    ensures r < |hits| ==> hits[r].1.Env?
    ensures forall k :: i <= k < r ==> !hits[k].1.Env?
    decreases |hits| - i
  {
    if i == |hits| || hits[i].1.Env? then i else EnvStart(hits, i + 1)
  }

  function Inserted<T>(s: seq<T>, at: nat, x: T): seq<T>
    requires at <= |s|
  {
    s[..at] + [x] + s[at..]
  }

  /// Everything said of the key for the application, the profile spliced in below the environment.
  function Heard(c: Config, active: Option<Scoped>, key: string): seq<(Value, Layer)>
  {
    var hits := Said(c.layers, key, |c.layers|);
    if active.Some? && key in active.value.overrides then
      Inserted(hits, EnvStart(hits, 0), (active.value.overrides[key], ProfileLayer(active.value.matcher.name)))
    else hits
  }

  lemma {:induction false} SharedKey(a: LayerValues, b: LayerValues, key: string)
    requires key in a.values && key in b.values
    ensures !Disjoint(a, b)
  {
    assert key in a.values.Keys * b.values.Keys;
  }

  lemma {:induction false} SaidRises(layers: seq<LayerValues>, key: string, n: nat)
    requires Stacked(layers) && n <= |layers|
    ensures Rising(Said(layers, key, n))
    ensures forall h :: h in Said(layers, key, n) <==>
              exists i :: 0 <= i < n && key in layers[i].values && h == (layers[i].values[key], layers[i].layer)
  {
    if n > 0 {
      SaidRises(layers, key, n - 1);
      var before := Said(layers, key, n - 1);
      if key in layers[n - 1].values {
        forall k | 0 <= k < |before| ensures Precedence(before[k].1) < Precedence(layers[n - 1].layer) {
          assert before[k] in before;
          var i :| 0 <= i < n - 1 && key in layers[i].values && before[k] == (layers[i].values[key], layers[i].layer);
          SharedKey(layers[i], layers[n - 1], key);
        }
      }
    }
  }

  lemma {:induction false} SplicedRises(hits: seq<(Value, Layer)>, x: (Value, Layer))
    requires Rising(hits) && x.1.ProfileLayer? && forall h :: h in hits ==> !h.1.ProfileLayer?
    ensures Rising(Inserted(hits, EnvStart(hits, 0), x))
  {
    var at := EnvStart(hits, 0);
    forall k | 0 <= k < |hits| ensures if k < at then Precedence(hits[k].1) < 3 else Precedence(hits[k].1) > 3 {
      assert hits[k] in hits;
      if k >= at {
        assert hits[at].1.Env?;
      }
    }
    assert forall k :: 0 <= k < at ==> Inserted(hits, at, x)[k] == hits[k];
    assert forall k :: at < k <= |hits| ==> Inserted(hits, at, x)[k] == hits[k - 1];
  }

  lemma {:induction false} SplicedHolds<T>(s: seq<T>, at: nat, x: T, y: T)
    requires at <= |s|
    ensures y in Inserted(s, at, x) <==> y in s || y == x
  {
    assert s == s[..at] + s[at..];
  }

  lemma {:induction false} HeardExactly(p: Parsers, sch: Schema, c: Config, active: Option<Scoped>, key: string)
    requires WellFormed(p, sch, c)
    ensures forall v, l :: (v, l) in Heard(c, active, key) <==> Says(c, active, key, v, l)
  {
    var hits := Said(c.layers, key, |c.layers|);
    SaidRises(c.layers, key, |c.layers|);
    if active.Some? && key in active.value.overrides {
      var x := (active.value.overrides[key], ProfileLayer(active.value.matcher.name));
      forall y ensures y in Heard(c, active, key) <==> y in hits || y == x {
        SplicedHolds(hits, EnvStart(hits, 0), x, y);
      }
    }
  }

  lemma {:induction false} HeardRises(p: Parsers, sch: Schema, c: Config, active: Option<Scoped>, key: string)
    requires WellFormed(p, sch, c)
    ensures Rising(Heard(c, active, key))
  {
    var hits := Said(c.layers, key, |c.layers|);
    SaidRises(c.layers, key, |c.layers|);
    if active.Some? && key in active.value.overrides {
      SplicedRises(hits, (active.value.overrides[key], ProfileLayer(active.value.matcher.name)));
    }
  }

  lemma {:induction false} SaidIsValid(p: Parsers, sch: Schema, c: Config, active: Option<Scoped>, key: string, v: Value, l: Layer)
    requires WellFormed(p, sch, c) && (active.Some? ==> active.value in c.profiles) && Says(c, active, key, v, l)
    ensures Valid(p, sch, key, v)
  {
  }

  /// Whatever the files, the environment and the application: the layers that speak of a key are
  /// listed in strictly rising precedence, so each of them once; they are exactly those that set it;
  /// and every value listed has the type of the key and passes its constraint.
  lemma {:induction false} HeardInOrder(p: Parsers, sch: Schema, c: Config, app: Option<Profiles.App>, key: string)
    requires WellFormed(p, sch, c)
    ensures var active := Active(p, c, app);
            && Rising(Heard(c, active, key))
            && (forall v, l :: (v, l) in Heard(c, active, key) <==> Says(c, active, key, v, l))
            && (forall v, l :: Says(c, active, key, v, l) ==> Valid(p, sch, key, v))
  {
    var active := Active(p, c, app);
    HeardRises(p, sch, c, active, key);
    HeardExactly(p, sch, c, active, key);
    forall v, l | Says(c, active, key, v, l) ensures Valid(p, sch, key, v) {
      SaidIsValid(p, sch, c, active, key, v, l);
    }
  }

  /// The default speaks of every key of the schema.
  lemma {:induction false} DefaultSpeaks(p: Parsers, sch: Schema, c: Config, active: Option<Scoped>, key: string)
    requires WellFormed(p, sch, c) && SpecFor(sch, key).Some?
    ensures Heard(c, active, key) != []
  {
    SaidRises(c.layers, key, |c.layers|);
    assert SpecFor(sch, key).value in sch;
    assert (c.layers[0].values[key], c.layers[0].layer) in Said(c.layers, key, |c.layers|);
  }

  /// The highest hit, and the others from the nearest down.
  function Topped(hits: seq<(Value, Layer)>): (r: Provenance)
    requires hits != []
    ensures History(r) == hits
  {
    var top := hits[|hits| - 1];
    var below := hits[..|hits| - 1];
    assert Reversed(Reversed(below)) == below;
    Provenance(top.0, top.1, Reversed(below))
  }

  /// The whole history, with the value of the highest layer on top.
  ghost predicate Answers(p: Parsers, sch: Schema, c: Config, app: Option<Profiles.App>, key: string, r: Provenance)
  {
    var active := Active(p, c, app);
    && History(r) == Heard(c, active, key)
    && Valid(p, sch, key, r.value) && Says(c, active, key, r.value, r.layer)
    && forall v, l :: Says(c, active, key, v, l) ==> Precedence(l) < Precedence(r.layer) || (v, l) == (r.value, r.layer)
  }

  /// A layer of that precedence sets the key.
  ghost predicate SetAt(c: Config, key: string, precedence: int)
  {
    exists i :: 0 <= i < |c.layers| && Precedence(c.layers[i].layer) == precedence && key in c.layers[i].values
  }

  ghost predicate SetByEnv(c: Config, key: string)
  {
    exists i :: 0 <= i < |c.layers| && c.layers[i].layer.Env? && key in c.layers[i].values
  }

  ghost predicate SetByUser(c: Config, key: string)
  {
    exists i :: 0 <= i < |c.layers| && c.layers[i].layer.UserFile? && key in c.layers[i].values
  }

  ghost predicate SetBySystem(c: Config, key: string)
  {
    exists i :: 0 <= i < |c.layers| && c.layers[i].layer.SystemFile? && key in c.layers[i].values
  }

  /// The environment before the active profile, that before the user file, that before the system
  /// file, and the default last.
  ghost predicate Ranked(c: Config, active: Option<Scoped>, key: string, r: Provenance)
  {
    if SetByEnv(c, key) then r.layer.Env?
    else if active.Some? && key in active.value.overrides then
      r.layer == ProfileLayer(active.value.matcher.name) && r.value == active.value.overrides[key]
    else if SetByUser(c, key) then r.layer.UserFile?
    else if SetBySystem(c, key) then r.layer.SystemFile?
    else r.layer.Default?
  }

  lemma {:induction false} KindsAre(c: Config, key: string)
    ensures SetByEnv(c, key) <==> SetAt(c, key, 4)
    ensures SetByUser(c, key) <==> SetAt(c, key, 2)
    ensures SetBySystem(c, key) <==> SetAt(c, key, 1)
  {
  }

  /// The answer comes from a layer or from the active profile, and nothing that is said ranks above it.
  lemma {:induction false} AnswerIsTop(c: Config, active: Option<Scoped>, key: string, r: Provenance)
    requires Says(c, active, key, r.value, r.layer)
    requires forall v, l :: Says(c, active, key, v, l) ==> Precedence(l) < Precedence(r.layer) || (v, l) == (r.value, r.layer)
    ensures SetAt(c, key, Precedence(r.layer))
            || (active.Some? && key in active.value.overrides && r.value == active.value.overrides[key]
                && r.layer == ProfileLayer(active.value.matcher.name))
    ensures forall k :: SetAt(c, key, k) ==> k <= Precedence(r.layer)
    ensures active.Some? && key in active.value.overrides ==>
              Precedence(r.layer) > 3 || (r.value, r.layer) == (active.value.overrides[key], ProfileLayer(active.value.matcher.name))
  {
    forall k | SetAt(c, key, k) ensures k <= Precedence(r.layer) {
      var i :| 0 <= i < |c.layers| && Precedence(c.layers[i].layer) == k && key in c.layers[i].values;
      assert Says(c, active, key, c.layers[i].values[key], c.layers[i].layer);
    }
    if active.Some? && key in active.value.overrides {
      assert Says(c, active, key, active.value.overrides[key], ProfileLayer(active.value.matcher.name));
    }
  }

  lemma {:induction false} AnswerIsRanked(p: Parsers, sch: Schema, c: Config, app: Option<Profiles.App>, key: string, r: Provenance)
    requires WellFormed(p, sch, c) && Answers(p, sch, c, app, key, r)
    ensures Ranked(c, Active(p, c, app), key, r)
  {
    AnswerIsTop(c, Active(p, c, app), key, r);
    KindsAre(c, key);
    NoProfileLayers(p, sch, c, key);
  }

  lemma {:induction false} NoProfileLayers(p: Parsers, sch: Schema, c: Config, key: string)
    requires WellFormed(p, sch, c)
    ensures !SetAt(c, key, 3)
  {
  }

  lemma {:induction false} ToppedAnswers(p: Parsers, sch: Schema, c: Config, app: Option<Profiles.App>, key: string)
    requires WellFormed(p, sch, c) && SpecFor(sch, key).Some?
    ensures var heard := Heard(c, Active(p, c, app), key); heard != [] && Answers(p, sch, c, app, key, Topped(heard))
  {
    var active := Active(p, c, app);
    HeardInOrder(p, sch, c, app, key);
    DefaultSpeaks(p, sch, c, active, key);
    var heard := Heard(c, active, key);
    var top := heard[|heard| - 1];
    assert top in heard && top == (top.0, top.1);
    TopWins(heard, top);
    forall v, l | Says(c, active, key, v, l) ensures Precedence(l) < Precedence(top.1) || (v, l) == top {
      assert (v, l) in heard;
    }
  }

  /// `get_for`: no answer exactly for a key outside the schema.
  method GetFor(p: Parsers, sch: Schema, c: Config, key: string, app: Option<Profiles.App>) returns (r: Option<Provenance>)
    requires WellFormed(p, sch, c)
    ensures r.Some? <==> SpecFor(sch, key).Some?
    ensures r.Some? ==> Answers(p, sch, c, app, key, r.value) && Ranked(c, Active(p, c, app), key, r.value)
  {
    if SpecFor(sch, key).None? {
      return None;
    }
    var hits: seq<(Value, Layer)> := [];
    for i := 0 to |c.layers|
      invariant hits == Said(c.layers, key, i)
    {
      if key in c.layers[i].values {
        hits := hits + [(c.layers[i].values[key], c.layers[i].layer)];
      }
    }
    var active := Active(p, c, app);
    if active.Some? && key in active.value.overrides {
      hits := Inserted(hits, EnvStart(hits, 0), (active.value.overrides[key], ProfileLayer(active.value.matcher.name)));
    }
    ToppedAnswers(p, sch, c, app, key);
    AnswerIsRanked(p, sch, c, app, key, Topped(hits));
    r := Some(Topped(hits));
  }

  lemma {:induction false} TopWins(hits: seq<(Value, Layer)>, top: (Value, Layer))
    requires Rising(hits) && hits != [] && top == hits[|hits| - 1]
    ensures forall h :: h in hits ==> Precedence(h.1) < Precedence(top.1) || h == top
  {
  }

  /// The first entries are the schema's keys with their answers.
  ghost predicate Resolved(p: Parsers, sch: Schema, c: Config, app: Option<Profiles.App>, r: seq<(KeySpec, Provenance)>)
  {
    |r| <= |sch| && forall i {:trigger r[i]} :: 0 <= i < |r| ==> r[i].0 == sch[i] && Answers(p, sch, c, app, sch[i].key, r[i].1)
  }

  lemma {:induction false} OneMoreResolved(p: Parsers, sch: Schema, c: Config, app: Option<Profiles.App>,
                                           r: seq<(KeySpec, Provenance)>, found: Provenance)
    requires Resolved(p, sch, c, app, r) && |r| < |sch| && Answers(p, sch, c, app, sch[|r|].key, found)
    ensures Resolved(p, sch, c, app, r + [(sch[|r|], found)])
  {
    var more := r + [(sch[|r|], found)];
    assert forall i :: 0 <= i < |r| ==> more[i] == r[i];
  }

  /// `all`: the `expect` in it never fails.
  method All(p: Parsers, sch: Schema, c: Config, app: Option<Profiles.App>) returns (r: seq<(KeySpec, Provenance)>)
    requires WellFormed(p, sch, c)
    ensures |r| == |sch| && Resolved(p, sch, c, app, r)
  {
    r := [];
    for i := 0 to |sch|
      invariant |r| == i && Resolved(p, sch, c, app, r)
    {
      var found := GetFor(p, sch, c, sch[i].key, app);
      OneMoreResolved(p, sch, c, app, r, found.value);
      r := r + [(sch[i], found.value)];
    }
  }
}
