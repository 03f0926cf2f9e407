// What a configuration document says of a key, by the keys that lead to it (crates/config/src/validate.rs).

module Documents {
  import opened Common
  import opened Settings

  // ---- Chains of keys ------------------------------------------------------------------------------

  /// The entries at[0], at[1], ... of the item and of the tables in it, one inside the other.
  predicate Chain(item: Item, at: seq<nat>)
    decreases |at|
  {
    at != [] ==> item.Table? && at[0] < |item.entries| && Chain(item.entries[at[0]].1, at[1..])
  }

  function ItemAt(item: Item, at: seq<nat>): Item
    requires Chain(item, at)
    decreases |at|
  {
    if at == [] then item else ItemAt(item.entries[at[0]].1, at[1..])
  }

  function KeysAt(item: Item, at: seq<nat>): (keys: seq<string>)
    requires Chain(item, at)
    ensures |keys| == |at|
    decreases |at|
  {
    if at == [] then [] else [item.entries[at[0]].0] + KeysAt(item.entries[at[0]].1, at[1..])
  }

  /// Keys behind a prefix, with dots between.
  function Dotted(prefix: string, keys: seq<string>): string
    decreases |keys|
  {
    if keys == [] then prefix
    else Dotted(if prefix == "" then keys[0] else prefix + "." + keys[0], keys[1..])
  }

  /// None of the keys begins a part of the document that belongs to profiles.
  predicate Shared(prefix: string, keys: seq<string>)
  {
    forall n :: 0 < n <= |keys| ==> Dotted(prefix, keys[..n]) != "profile" && !("profile." <= Dotted(prefix, keys[..n]))
  }

  /// The chain leads through tables to something that is none.
  predicate Leaf(prefix: string, item: Item, at: seq<nat>)
  {
    at != [] && Chain(item, at) && !ItemAt(item, at).Table? && Shared(prefix, KeysAt(item, at))
  }

  /// One chain stands before another in the document.
  predicate Before(a: seq<nat>, b: seq<nat>)
    decreases |a|
  {
    a != [] && b != [] && (a[0] < b[0] || (a[0] == b[0] && Before(a[1..], b[1..])))
  }

  // ---- The flattened document ----------------------------------------------------------------------

  function Under(i: nat, chains: seq<seq<nat>>): (r: seq<seq<nat>>)
    ensures |r| == |chains| && forall k :: 0 <= k < |r| ==> r[k] == [i] + chains[k]
  {
    seq(|chains|, k requires 0 <= k < |chains| => [i] + chains[k])
  }

  /// The chains to the leaves of a table, from its entry i on.
  function Leaves(prefix: string, table: Item, i: nat): seq<seq<nat>>
    requires table.Table? && i <= |table.entries|
    decreases table, |table.entries| - i
  {
    if i == |table.entries| then []
    else LeavesOf(prefix, table, i) + Leaves(prefix, table, i + 1)
  }

  /// Those through entry i.
  function LeavesOf(prefix: string, table: Item, i: nat): seq<seq<nat>>
    requires table.Table? && i < |table.entries|
    decreases table, |table.entries| - i, 0
  {
    var (key, item) := table.entries[i];
    var path := Path(prefix, key);
    if ProfileLocal(path) then [] else if item.Table? then Under(i, Leaves(path, item, 0)) else [[i]]
  }

  /// What stands at a chain: the dotted keys, and the leaf.
  function EntryAt(prefix: string, table: Item, at: seq<nat>): (string, Item)
    requires Chain(table, at)
  {
    (Dotted(prefix, KeysAt(table, at)), ItemAt(table, at))
  }

  lemma {:induction false} SharedCons(prefix: string, key: string, keys: seq<string>)
    ensures Shared(prefix, [key] + keys) <==> !ProfileLocal(Path(prefix, key)) && Shared(Path(prefix, key), keys)
  {
    var (all, path) := ([key] + keys, Path(prefix, key));
    forall n | 0 < n <= |all| ensures Dotted(prefix, all[..n]) == Dotted(path, keys[..n - 1]) {
      assert all[..n] == [key] + keys[..n - 1];
      assert ([key] + keys[..n - 1])[1..] == keys[..n - 1];
    }
    assert Dotted(prefix, all[..1]) == path;
    if Shared(prefix, all) {
      forall n | 0 < n <= |keys| ensures !ProfileLocal(Dotted(path, keys[..n])) {
        assert Dotted(prefix, all[..n + 1]) == Dotted(path, keys[..n]);
      }
    }
  }

  /// A chain through entry i is one inside that entry.
  lemma {:induction false} LeafThrough(prefix: string, table: Item, i: nat, rest: seq<nat>)
    requires table.Table? && i < |table.entries|
    ensures var (key, item) := table.entries[i];
            var path := Path(prefix, key);
            && (Chain(table, [i] + rest) <==> Chain(item, rest))
            && (Chain(item, rest) ==> EntryAt(prefix, table, [i] + rest) == EntryAt(path, item, rest))
            && (rest != [] ==> (Leaf(prefix, table, [i] + rest) <==> !ProfileLocal(path) && Leaf(path, item, rest)))
            && (rest == [] ==> (Leaf(prefix, table, [i] + rest) <==> !ProfileLocal(path) && !item.Table?))
  {
    var (at, item) := ([i] + rest, table.entries[i].1);
    assert at[0] == i && at[1..] == rest;
    if Chain(item, rest) {
      var keys := KeysAt(item, rest);
      assert KeysAt(table, at) == [table.entries[i].0] + keys;
      assert KeysAt(table, at)[1..] == keys;
      SharedCons(prefix, table.entries[i].0, keys);
    }
  }

  lemma {:induction false} UnderHas(i: nat, chains: seq<seq<nat>>, at: seq<nat>)
    ensures at in Under(i, chains) <==> at != [] && at[0] == i && at[1..] in chains
  {
    if at in Under(i, chains) {
      var k :| 0 <= k < |chains| && Under(i, chains)[k] == at;
      assert at[1..] == chains[k];
    }
    if at != [] && at[0] == i && at[1..] in chains {
      var k :| 0 <= k < |chains| && chains[k] == at[1..];
      assert Under(i, chains)[k] == [i] + at[1..] == at;
    }
  }

  lemma {:induction false} LeafIn(prefix: string, table: Item, i: nat, at: seq<nat>)
    requires table.Table? && i < |table.entries|
    ensures at in LeavesOf(prefix, table, i) <==> at != [] && at[0] == i && Leaf(prefix, table, at)
    decreases table, |table.entries| - i, 0
  {
    var (key, item) := table.entries[i];
    var path := Path(prefix, key);
    if item.Table? && !ProfileLocal(path) { UnderHas(i, Leaves(path, item, 0), at); }
    if at != [] && at[0] == i {
      var rest := at[1..];
      assert at == [i] + rest;
      LeafThrough(prefix, table, i, rest);
      if item.Table? {
        LeafIff(path, item, 0, rest);
        assert !ProfileLocal(path) ==> (at in Under(i, Leaves(path, item, 0)) <==> Leaf(path, item, rest));
      } else {
        assert rest != [] ==> !Chain(item, rest);
        assert at == [i] <==> rest == [];
      }
    }
  }

  lemma {:induction false} Joins(here: seq<seq<nat>>, later: seq<seq<nat>>, at: seq<nat>, i: nat, leaf: bool)
    requires at in here <==> at != [] && at[0] == i && leaf
    requires leaf ==> at != []
    requires at in later <==> leaf && at[0] >= i + 1
    ensures at in here + later <==> leaf && at[0] >= i
  {
    InEither(here, later, at);
  }

  lemma {:induction false} InEither(a: seq<seq<nat>>, b: seq<seq<nat>>, at: seq<nat>)
    ensures at in a + b <==> at in a || at in b
  {
  }

  /// These are all the leaves from there on.
  lemma {:induction false} LeafBegins(prefix: string, table: Item, at: seq<nat>)
    requires table.Table? && Leaf(prefix, table, at)
    ensures at != [] && at[0] < |table.entries|
  {
  }

  lemma {:induction false} LeafIff(prefix: string, table: Item, i: nat, at: seq<nat>)
    requires table.Table? && i <= |table.entries|
    ensures at in Leaves(prefix, table, i) <==> Leaf(prefix, table, at) && at[0] >= i
    decreases table, |table.entries| - i
  {
    if i == |table.entries| {
      if Leaf(prefix, table, at) { LeafBegins(prefix, table, at); }
    } else {
      LeafIn(prefix, table, i, at);
      LeafIff(prefix, table, i + 1, at);
      Joins(LeavesOf(prefix, table, i), Leaves(prefix, table, i + 1), at, i, Leaf(prefix, table, at));
    }
  }

  /// The list holds what stands at these, in that order, and nothing else.
  ghost predicate Reads(prefix: string, table: Item, chains: seq<seq<nat>>, flat: Entries)
  {
    |flat| == |chains|
    && forall k :: 0 <= k < |flat| ==> Chain(table, chains[k]) && flat[k] == EntryAt(prefix, table, chains[k])
  }

  lemma {:induction false} ReadsOn(prefix: string, table: Item, c: seq<seq<nat>>, f: Entries, d: seq<seq<nat>>, g: Entries)
    requires Reads(prefix, table, c, f) && Reads(prefix, table, d, g)
    ensures Reads(prefix, table, c + d, f + g)
  {
  }

  lemma {:induction false} LeavesOfAre(prefix: string, table: Item, i: nat, flat: Entries)
    requires table.Table? && i < |table.entries|
    requires var path := Path(prefix, table.entries[i].0);
             var item := table.entries[i].1;
             flat == if ProfileLocal(path) then [] else if item.Table? then Flattened(path, item, 0) else [(path, item)]
    ensures Reads(prefix, table, LeavesOf(prefix, table, i), flat)
    decreases table, |table.entries| - i, 0
  {
    var (key, item) := table.entries[i];
    var path := Path(prefix, key);
    if !ProfileLocal(path) {
      if item.Table? {
        FlattenedAre(path, item, 0);
        var inner := Leaves(path, item, 0);
        forall k | 0 <= k < |inner|
          ensures Chain(table, [i] + inner[k]) && flat[k] == EntryAt(prefix, table, [i] + inner[k])
        {
          LeafThrough(prefix, table, i, inner[k]);
        }
      } else {
        LeafThrough(prefix, table, i, []);
        assert [i] + [] == [i];
      }
    }
  }

  /// The flattened document has what stands at these chains, one after the other.
  lemma {:induction false} FlattenedAre(prefix: string, table: Item, i: nat)
    requires table.Table? && i <= |table.entries|
    ensures Reads(prefix, table, Leaves(prefix, table, i), Flattened(prefix, table, i))
    decreases table, |table.entries| - i
  {
    if i < |table.entries| {
      var (key, item) := table.entries[i];
      var path := Path(prefix, key);
      var flat := if ProfileLocal(path) then [] else if item.Table? then Flattened(path, item, 0) else [(path, item)];
      var rest := Flattened(prefix, table, i + 1);
      LeavesOfAre(prefix, table, i, flat);
      FlattenedAre(prefix, table, i + 1);
      ReadsOn(prefix, table, LeavesOf(prefix, table, i), flat, Leaves(prefix, table, i + 1), rest);
      assert Flattened(prefix, table, i) == flat + rest;
    }
  }

  ghost predicate Rising(chains: seq<seq<nat>>)
  {
    forall j, k :: 0 <= j < k < |chains| ==> Before(chains[j], chains[k])
  }

  lemma {:induction false} UnderRises(i: nat, chains: seq<seq<nat>>)
    requires Rising(chains)
    ensures Rising(Under(i, chains))
  {
    var all := Under(i, chains);
    forall j, k | 0 <= j < k < |all| ensures Before(all[j], all[k]) {
      assert all[j][1..] == chains[j] && all[k][1..] == chains[k];
    }
  }

  lemma {:induction false} LeavesOfRise(prefix: string, table: Item, i: nat)
    requires table.Table? && i < |table.entries|
    ensures Rising(LeavesOf(prefix, table, i))
    decreases table, |table.entries| - i, 0
  {
    var (key, item) := table.entries[i];
    var path := Path(prefix, key);
    if item.Table? {
      LeavesRise(path, item, 0);
      UnderRises(i, Leaves(path, item, 0));
    }
  }

  lemma {:induction false} LeavesRise(prefix: string, table: Item, i: nat)
    requires table.Table? && i <= |table.entries|
    ensures Rising(Leaves(prefix, table, i))
    decreases table, |table.entries| - i
  {
    if i < |table.entries| {
      LeavesRise(prefix, table, i + 1);
      LeavesOfRise(prefix, table, i);
      LaterStandAfter(prefix, table, i);
      OneAfterTheOther(LeavesOf(prefix, table, i), Leaves(prefix, table, i + 1));
    }
  }

  lemma {:induction false} LaterStandAfter(prefix: string, table: Item, i: nat)
    requires table.Table? && i < |table.entries|
    ensures forall a, b :: a in LeavesOf(prefix, table, i) && b in Leaves(prefix, table, i + 1) ==> Before(a, b)
  {
    forall a, b | a in LeavesOf(prefix, table, i) && b in Leaves(prefix, table, i + 1) ensures Before(a, b) {
      LeafIn(prefix, table, i, a);
      LeafIff(prefix, table, i + 1, b);
    }
  }

  /// The whole document, or the body of a profile.
  datatype Root = File | Profile

  /// In the body of a profile the first key counts as it is, and "match" is no setting.
  predicate OverrideLeaf(table: Item, at: seq<nat>)
  {
    && at != [] && Chain(table, at) && !ItemAt(table, at).Table?
    && KeysAt(table, at)[0] != "match" && Shared(KeysAt(table, at)[0], KeysAt(table, at)[1..])
  }

  predicate LeafOf(root: Root, table: Item, at: seq<nat>)
  {
    if root.File? then Leaf("", table, at) else OverrideLeaf(table, at)
  }

  /// All chains to leaves, in the order of the document.
  ghost predicate AllLeaves(root: Root, table: Item, chains: seq<seq<nat>>)
  {
    Rising(chains) && forall at :: at in chains <==> LeafOf(root, table, at)
  }

  /// Flattening keeps every leaf to which a chain of keys leads through tables and outside profiles,
  /// under the keys joined by dots, in the order of the document; and nothing else.
  lemma {:induction false} FlattenedIsDocument(table: Item)
    requires table.Table?
    ensures exists chains :: AllLeaves(File, table, chains) && Reads("", table, chains, Flattened("", table, 0))
  {
    var chains := Leaves("", table, 0);
    LeavesRise("", table, 0);
    FlattenedAre("", table, 0);
    forall at ensures at in chains <==> Leaf("", table, at) { LeafIff("", table, 0, at); }
    assert AllLeaves(File, table, chains);
  }

  // ---- The body of a profile -----------------------------------------------------------------------

  function OverrideLeavesOf(table: Item, i: nat): seq<seq<nat>>
    requires table.Table? && i < |table.entries|
  {
    var (key, item) := table.entries[i];
    if key == "match" then [] else if item.Table? then Under(i, Leaves(key, item, 0)) else [[i]]
  }

  function OverrideLeaves(table: Item, i: nat): seq<seq<nat>>
    requires table.Table? && i <= |table.entries|
    decreases |table.entries| - i
  {
    if i == |table.entries| then [] else OverrideLeavesOf(table, i) + OverrideLeaves(table, i + 1)
  }

  lemma {:induction false} OverrideThrough(table: Item, i: nat, rest: seq<nat>)
    requires table.Table? && i < |table.entries|
    ensures var (key, item) := table.entries[i];
            OverrideLeaf(table, [i] + rest)
            <==> key != "match" && if rest == [] then !item.Table? else Leaf(key, item, rest)
  {
    var (at, item) := ([i] + rest, table.entries[i].1);
    assert at[0] == i && at[1..] == rest;
    assert Chain(table, at) <==> Chain(item, rest);
    if Chain(item, rest) {
      assert ItemAt(table, at) == ItemAt(item, rest);
      var keys := KeysAt(item, rest);
      assert KeysAt(table, at) == [table.entries[i].0] + keys;
      assert KeysAt(table, at)[1..] == keys;
    }
  }

  lemma {:induction false} OverrideIn(table: Item, i: nat, at: seq<nat>)
    requires table.Table? && i < |table.entries|
    ensures at in OverrideLeavesOf(table, i) <==> at != [] && at[0] == i && OverrideLeaf(table, at)
  {
    var (key, item) := table.entries[i];
    if item.Table? { UnderHas(i, Leaves(key, item, 0), at); }
    if at != [] && at[0] == i {
      var rest := at[1..];
      assert at == [i] + rest;
      OverrideThrough(table, i, rest);
      if item.Table? {
        LeafIff(key, item, 0, rest);
        assert at in Under(i, Leaves(key, item, 0)) <==> Leaf(key, item, rest);
      } else {
        assert rest != [] ==> !Chain(item, rest);
        assert at == [i] <==> rest == [];
      }
    }
  }

  lemma {:induction false} OverrideBegins(table: Item, at: seq<nat>)
    requires table.Table? && OverrideLeaf(table, at)
    ensures at != [] && at[0] < |table.entries|
  {
  }

  lemma {:induction false} OverrideIff(table: Item, i: nat, at: seq<nat>)
    requires table.Table? && i <= |table.entries|
    ensures at in OverrideLeaves(table, i) <==> OverrideLeaf(table, at) && at[0] >= i
    decreases |table.entries| - i
  {
    if i == |table.entries| {
      if OverrideLeaf(table, at) { OverrideBegins(table, at); }
    } else {
      OverrideIn(table, i, at);
      OverrideIff(table, i + 1, at);
      Joins(OverrideLeavesOf(table, i), OverrideLeaves(table, i + 1), at, i, OverrideLeaf(table, at));
    }
  }

  lemma {:induction false} OverridesAfter(table: Item, i: nat)
    requires table.Table? && i < |table.entries|
    ensures forall a, b :: a in OverrideLeavesOf(table, i) && b in OverrideLeaves(table, i + 1) ==> Before(a, b)
  {
    forall a, b | a in OverrideLeavesOf(table, i) && b in OverrideLeaves(table, i + 1) ensures Before(a, b) {
      OverrideIn(table, i, a);
      OverrideIff(table, i + 1, b);
    }
  }

  lemma {:induction false} OverridesOfRise(table: Item, i: nat)
    requires table.Table? && i < |table.entries|
    ensures Rising(OverrideLeavesOf(table, i))
  {
    var (key, item) := table.entries[i];
    if item.Table? {
      LeavesRise(key, item, 0);
      UnderRises(i, Leaves(key, item, 0));
    }
  }

  lemma {:induction false} OneAfterTheOther(a: seq<seq<nat>>, b: seq<seq<nat>>)
    requires Rising(a) && Rising(b) && forall x, y :: x in a && y in b ==> Before(x, y)
    ensures Rising(a + b)
  {
  }

  lemma {:induction false} OverridesRise(table: Item, i: nat)
    requires table.Table? && i <= |table.entries|
    ensures Rising(OverrideLeaves(table, i))
    decreases |table.entries| - i
  {
    if i < |table.entries| {
      OverridesRise(table, i + 1);
      OverridesOfRise(table, i);
      OverridesAfter(table, i);
      OneAfterTheOther(OverrideLeavesOf(table, i), OverrideLeaves(table, i + 1));
    }
  }

  lemma {:induction false} OverrideReads(table: Item, i: nat, flat: Entries)
    requires table.Table? && i < |table.entries|
    requires var (key, item) := table.entries[i];
             flat == if key == "match" then [] else if item.Table? then Flattened(key, item, 0) else [(key, item)]
    ensures Reads("", table, OverrideLeavesOf(table, i), flat)
  {
    var (key, item) := table.entries[i];
    assert Path("", key) == key;
    if key != "match" {
      if item.Table? {
        FlattenedAre(key, item, 0);
        var inner := Leaves(key, item, 0);
        forall k | 0 <= k < |inner|
          ensures Chain(table, [i] + inner[k]) && flat[k] == EntryAt("", table, [i] + inner[k])
        {
          LeafThrough("", table, i, inner[k]);
        }
      } else {
        LeafThrough("", table, i, []);
        assert [i] + [] == [i];
      }
    }
  }

  lemma {:induction false} OverridingAre(table: Item, i: nat)
    requires table.Table? && i <= |table.entries|
    ensures Reads("", table, OverrideLeaves(table, i), Overriding(table.entries[i..]))
    decreases |table.entries| - i
  {
    if i < |table.entries| {
      var (key, item) := table.entries[i];
      var flat := if key == "match" then [] else if item.Table? then Flattened(key, item, 0) else [(key, item)];
      var rest := table.entries[i + 1..];
      assert table.entries[i..][0] == table.entries[i] && table.entries[i..][1..] == rest;
      OverrideReads(table, i, flat);
      OverridingAre(table, i + 1);
      ReadsOn("", table, OverrideLeavesOf(table, i), flat, OverrideLeaves(table, i + 1), Overriding(rest));
      assert Overriding(table.entries[i..]) == flat + Overriding(rest);
    }
  }

  /// The overrides of a profile are the leaves of its body but those under "match".
  lemma {:induction false} OverridingIsBody(table: Item)
    requires table.Table?
    ensures exists chains :: AllLeaves(Profile, table, chains) && Reads("", table, chains, Overriding(table.entries))
  {
    var chains := OverrideLeaves(table, 0);
    OverridesRise(table, 0);
    OverridingAre(table, 0);
    assert table.entries[0..] == table.entries;
    forall at ensures at in chains <==> OverrideLeaf(table, at) { OverrideIff(table, 0, at); }
    assert AllLeaves(Profile, table, chains);
  }

  // ---- What a leaf says ----------------------------------------------------------------------------

  /// The item is of the type of the default, and v is what it holds.
  ghost predicate Converts(item: Item, template: Value, v: Value)
  {
    || (template.Str? && item.Text? && v == Str(item.text))
    || (template.Bool? && item.Flag? && v == Bool(item.flag))
    || (template.Int? && item.Number? && v == Int(item.number))
    || (template.List? && item.Array? && v.List? && AreTexts(item.elements, v.items))
  }

  ghost predicate AreTexts(elements: seq<Item>, texts: seq<string>)
  {
    |elements| == |texts| && forall i :: 0 <= i < |texts| ==> elements[i] == Text(texts[i])
  }

  lemma {:induction false} TextsAre(elements: seq<Item>, texts: seq<string>)
    ensures Texts(elements) == Some(texts) <==> AreTexts(elements, texts)
  {
    if elements != [] && texts != [] {
      TextsAre(elements[1..], texts[1..]);
      assert texts == [texts[0]] + texts[1..];
      assert AreTexts(elements, texts) <==> elements[0] == Text(texts[0]) && AreTexts(elements[1..], texts[1..]) by {
        forall i | 0 < i < |texts| && |elements| == |texts| ensures elements[i] == elements[1..][i - 1] {}
      }
    }
  }

  lemma {:induction false} CoerceIff(item: Item, template: Value, v: Value)
    ensures Coerce(item, template) == Some(v) <==> Converts(item, template, v)
  {
    if template.List? && item.Array? {
      if v.List? { TextsAre(item.elements, v.items); }
      if Texts(item.elements).Some? { TextsAre(item.elements, Texts(item.elements).value); }
    }
  }

  ghost predicate Distinct(sch: Schema) { forall i, j :: 0 <= i < j < |sch| ==> sch[i].key != sch[j].key }

  /// The schema has the key, the item converts to v under its default, and v passes its constraint.
  ghost predicate Accepts(p: Parsers, sch: Schema, key: string, item: Item, v: Value)
  {
    exists spec :: spec in sch && spec.key == key && Converts(item, spec.default, v) && Passes(p, spec.constraint, v)
  }

  lemma {:induction false} SpecIs(sch: Schema, spec: KeySpec)
    requires spec in sch && Distinct(sch)
    ensures SpecFor(sch, spec.key) == Some(spec)
  {
  }

  lemma {:induction false} CheckedIff(p: Parsers, sch: Schema, key: string, item: Item, v: Value)
    requires Distinct(sch)
    ensures Checked(p, sch, key, item) == Some(v) <==> Accepts(p, sch, key, item, v)
  {
    if SpecFor(sch, key).Some? {
      var spec := SpecFor(sch, key).value;
      CoerceIff(item, spec.default, v);
    }
    if Accepts(p, sch, key, item, v) {
      var spec :| spec in sch && spec.key == key && Converts(item, spec.default, v) && Passes(p, spec.constraint, v);
      SpecIs(sch, spec);
    }
  }

  /// The last entry of the key that is acceptable.
  function LastOf(p: Parsers, sch: Schema, flat: Entries, key: string): Option<Value>
  {
    if flat == [] then None
    else if LastOf(p, sch, flat[1..], key).Some? then LastOf(p, sch, flat[1..], key)
    else if flat[0].0 == key then Checked(p, sch, key, flat[0].1) else None
  }

  /// Entry i is of the key and acceptable, and none after it is.
  ghost predicate LastAt(p: Parsers, sch: Schema, flat: Entries, key: string, i: int)
  {
    && 0 <= i < |flat| && flat[i].0 == key && Checked(p, sch, key, flat[i].1).Some?
    && forall j :: i < j < |flat| && flat[j].0 == key ==> Checked(p, sch, key, flat[j].1).None?
  }

  lemma {:induction false} LastOfIs(p: Parsers, sch: Schema, flat: Entries, key: string)
    ensures var r := LastOf(p, sch, flat, key);
            && (r.None? <==> forall i :: 0 <= i < |flat| && flat[i].0 == key ==> Checked(p, sch, key, flat[i].1).None?)
            && (r.Some? ==> exists i :: LastAt(p, sch, flat, key, i))
            && (forall i :: LastAt(p, sch, flat, key, i) ==> r == Checked(p, sch, key, flat[i].1))
  {
    if flat != [] {
      var rest := flat[1..];
      LastOfIs(p, sch, rest, key);
      assert forall i :: 0 <= i < |rest| ==> rest[i] == flat[i + 1];
      assert forall i :: 0 < i < |flat| ==> flat[i] == rest[i - 1];
      if LastOf(p, sch, rest, key).Some? {
        var i :| LastAt(p, sch, rest, key, i);
        assert LastAt(p, sch, flat, key, i + 1);
      } else if flat[0].0 == key && Checked(p, sch, key, flat[0].1).Some? {
        assert LastAt(p, sch, flat, key, 0);
      }
      forall i | LastAt(p, sch, flat, key, i) ensures LastOf(p, sch, flat, key) == Checked(p, sch, key, flat[i].1) {
        if i > 0 { assert LastAt(p, sch, rest, key, i - 1); }
      }
    }
  }

  lemma {:induction false} SettledIsLast(p: Parsers, sch: Schema, flat: Entries, key: string)
    ensures key in Settled(p, sch, flat) <==> LastOf(p, sch, flat, key).Some?
    ensures key in Settled(p, sch, flat) ==> LastOf(p, sch, flat, key) == Some(Settled(p, sch, flat)[key])
  {
    LastValidWins(p, sch, flat, key);
    LastOfIs(p, sch, flat, key);
    if LastOf(p, sch, flat, key).Some? {
      var i :| LastAt(p, sch, flat, key, i);
    }
  }

  predicate NoSetting(key: string) { key == "schema-version" || "profile." <= key }

  lemma {:induction false} SettingsKeep(p: Parsers, sch: Schema, flat: Entries, key: string)
    ensures LastOf(p, sch, SettingsOf(flat), key) == if NoSetting(key) then None else LastOf(p, sch, flat, key)
  {
    if flat != [] {
      SettingsKeep(p, sch, flat[1..], key);
      var rest := SettingsOf(flat[1..]);
      assert ([flat[0]] + rest)[1..] == rest && [] + rest == rest;
    }
  }

  // ---- What a document says ------------------------------------------------------------------------

  /// The leaf at the chain stands under the dotted key and is accepted, as v.
  ghost predicate SaidAt(p: Parsers, sch: Schema, root: Root, table: Item, at: seq<nat>, key: string, v: Value)
  {
    && LeafOf(root, table, at) && Dotted("", KeysAt(table, at)) == key
    && Accepts(p, sch, key, ItemAt(table, at), v)
  }

  /// Of the leaves under the key that are accepted the last one is, as v.
  ghost predicate SaidLast(p: Parsers, sch: Schema, root: Root, table: Item, key: string, v: Value)
  {
    exists at :: && SaidAt(p, sch, root, table, at, key, v)
                 && forall b, w :: SaidAt(p, sch, root, table, b, key, w) ==> b == at || Before(b, at)
  }

  lemma {:induction false} BeforeIsOneWay(a: seq<nat>, b: seq<nat>)
    requires Before(a, b)
    ensures a != b && !Before(b, a)
    decreases |a|
  {
    if a[0] == b[0] { BeforeIsOneWay(a[1..], b[1..]); }
  }

  lemma {:induction false} LastChain(p: Parsers, sch: Schema, root: Root, table: Item, chains: seq<seq<nat>>, flat: Entries,
                                     key: string, i: nat, v: Value)
    requires Distinct(sch) && AllLeaves(root, table, chains) && Reads("", table, chains, flat)
    requires LastAt(p, sch, flat, key, i) && Checked(p, sch, key, flat[i].1) == Some(v)
    ensures SaidLast(p, sch, root, table, key, v)
  {
    var at := chains[i];
    assert at in chains && flat[i] == EntryAt("", table, at);
    CheckedIff(p, sch, key, flat[i].1, v);
    assert SaidAt(p, sch, root, table, at, key, v);
    forall b, w | SaidAt(p, sch, root, table, b, key, w) ensures b == at || Before(b, at) {
      assert b in chains;
      var j :| 0 <= j < |chains| && chains[j] == b;
      assert flat[j] == EntryAt("", table, b);
      CheckedIff(p, sch, key, flat[j].1, w);
      assert j <= i;
    }
  }

  lemma {:induction false} ChainLast(p: Parsers, sch: Schema, root: Root, table: Item, chains: seq<seq<nat>>, flat: Entries,
                                     key: string, v: Value)
    requires Distinct(sch) && AllLeaves(root, table, chains) && Reads("", table, chains, flat)
    requires SaidLast(p, sch, root, table, key, v)
    ensures LastOf(p, sch, flat, key) == Some(v)
  {
    var at :| && SaidAt(p, sch, root, table, at, key, v)
              && forall b, w :: SaidAt(p, sch, root, table, b, key, w) ==> b == at || Before(b, at);
    assert at in chains;
    var i :| 0 <= i < |chains| && chains[i] == at;
    assert flat[i] == EntryAt("", table, at);
    CheckedIff(p, sch, key, flat[i].1, v);
    forall j | i < j < |flat| && flat[j].0 == key ensures Checked(p, sch, key, flat[j].1).None? {
      if Checked(p, sch, key, flat[j].1).Some? {
        var w := Checked(p, sch, key, flat[j].1).value;
        CheckedIff(p, sch, key, flat[j].1, w);
        assert chains[j] in chains && flat[j] == EntryAt("", table, chains[j]);
        assert SaidAt(p, sch, root, table, chains[j], key, w);
        BeforeIsOneWay(chains[i], chains[j]);
      }
    }
    assert LastAt(p, sch, flat, key, i);
    LastOfIs(p, sch, flat, key);
  }

  lemma {:induction false} LastOfDocument(p: Parsers, sch: Schema, root: Root, table: Item, chains: seq<seq<nat>>,
                                          flat: Entries, key: string, v: Value)
    requires Distinct(sch) && AllLeaves(root, table, chains) && Reads("", table, chains, flat)
    ensures LastOf(p, sch, flat, key) == Some(v) <==> SaidLast(p, sch, root, table, key, v)
  {
    if LastOf(p, sch, flat, key) == Some(v) {
      LastOfIs(p, sch, flat, key);
      var i :| LastAt(p, sch, flat, key, i);
      LastChain(p, sch, root, table, chains, flat, key, i, v);
    }
    if SaidLast(p, sch, root, table, key, v) { ChainLast(p, sch, root, table, chains, flat, key, v); }
  }

  /// A file says v of a key exactly when the last acceptable leaf to which the keys lead through its
  /// tables holds v. The version of the schema is no setting.
  lemma {:induction false} FileSaysIff(p: Parsers, sch: Schema, doc: Entries, key: string, v: Value)
    requires Distinct(sch)
    ensures var values := FileValues(p, sch, doc);
            key in values && values[key] == v
            <==> key != "schema-version" && SaidLast(p, sch, File, Table(doc), key, v)
  {
    var flat := Flattened([], Table(doc), 0);
    FlattenedIsDocument(Table(doc));
    var chains :| AllLeaves(File, Table(doc), chains) && Reads("", Table(doc), chains, flat);
    SettledIsLast(p, sch, SettingsOf(flat), key);
    SettingsKeep(p, sch, flat, key);
    LastOfDocument(p, sch, File, Table(doc), chains, flat, key, v);
    if "profile." <= key && SaidLast(p, sch, File, Table(doc), key, v) { ProfilesSayNothing(p, sch, doc, key, v); }
  }

  lemma {:induction false} SharedWhole(prefix: string, keys: seq<string>)
    requires keys != [] && Shared(prefix, keys)
    ensures !("profile." <= Dotted(prefix, keys))
  {
    assert keys[..|keys|] == keys;
  }

  lemma {:induction false} ProfilesSayNothing(p: Parsers, sch: Schema, doc: Entries, key: string, v: Value)
    requires "profile." <= key
    ensures !SaidLast(p, sch, File, Table(doc), key, v)
  {
    forall at ensures !SaidAt(p, sch, File, Table(doc), at, key, v) {
      if LeafOf(File, Table(doc), at) { SharedWhole("", KeysAt(Table(doc), at)); }
    }
  }

  /// An accepted profile says v of a key exactly when the last acceptable leaf of its body under the
  /// key holds v.
  lemma {:induction false} ProfileSaysIff(p: Parsers, sch: Schema, name: string, body: Item, key: string, v: Value)
    requires Distinct(sch) && ParseProfile(p, sch, name, body).Some?
    ensures var overrides := ParseProfile(p, sch, name, body).value.overrides;
            key in overrides && overrides[key] == v <==> SaidLast(p, sch, Profile, body, key, v)
  {
    var flat := Overriding(body.entries);
    OverridingIsBody(body);
    var chains :| AllLeaves(Profile, body, chains) && Reads("", body, chains, flat);
    SettledIsLast(p, sch, flat, key);
    LastOfDocument(p, sch, Profile, body, chains, flat, key, v);
  }

  /// How many of the first n are there.
  function Count<T>(found: seq<Option<T>>, n: nat): nat
    requires n <= |found|
  {
    if n == 0 then 0 else Count(found, n - 1) + if found[n - 1].Some? then 1 else 0
  }

  /// What is there, in order.
  ghost predicate InTheirOrder<T>(found: seq<Option<T>>, r: seq<T>)
  {
    && |r| == Count(found, |found|)
    && forall i :: 0 <= i < |found| && found[i].Some? ==> Count(found, i) < |r| && r[Count(found, i)] == found[i].value
  }

  lemma {:induction false} CountFrom<T>(found: seq<Option<T>>, n: nat)
    requires 0 < n <= |found|
    ensures Count(found, n) == (if found[0].Some? then 1 else 0) + Count(found[1..], n - 1)
  {
    if n > 1 {
      CountFrom(found, n - 1);
      assert found[1..][n - 2] == found[n - 1];
    }
  }

  lemma {:induction false} OneMoreThere<T>(found: seq<Option<T>>, rest: seq<T>)
    requires found != [] && InTheirOrder(found[1..], rest)
    ensures InTheirOrder(found, (if found[0].Some? then [found[0].value] else []) + rest)
  {
    var r := (if found[0].Some? then [found[0].value] else []) + rest;
    CountFrom(found, |found|);
    forall i | 0 <= i < |found| && found[i].Some? ensures Count(found, i) < |r| && r[Count(found, i)] == found[i].value {
      if i > 0 {
        CountFrom(found, i);
        assert found[1..][i - 1] == found[i];
      }
    }
  }

  function Answers(p: Parsers, sch: Schema, entries: Entries): (r: seq<Option<Scoped>>)
    ensures |r| == |entries| && forall i :: 0 <= i < |r| ==> r[i] == ParseProfile(p, sch, entries[i].0, entries[i].1)
  {
    seq(|entries|, i requires 0 <= i < |entries| => ParseProfile(p, sch, entries[i].0, entries[i].1))
  }

  lemma {:induction false} AnswersFrom(p: Parsers, sch: Schema, entries: Entries)
    requires entries != []
    ensures Answers(p, sch, entries)[1..] == Answers(p, sch, entries[1..])
  {
  }

  /// The profiles of a file are those of its profile table that are accepted, in its order.
  lemma {:induction false} ProfilesAre(p: Parsers, sch: Schema, entries: Entries)
    ensures InTheirOrder(Answers(p, sch, entries), ParseProfiles(p, sch, entries))
  {
    if entries != [] {
      ProfilesAre(p, sch, entries[1..]);
      AnswersFrom(p, sch, entries);
      OneMoreThere(Answers(p, sch, entries), ParseProfiles(p, sch, entries[1..]));
    }
  }

  /// Entry i is the first of that key.
  ghost predicate FirstOf(entries: Entries, key: string, i: int)
  {
    0 <= i < |entries| && entries[i].0 == key && forall j :: 0 <= j < i ==> entries[j].0 != key
  }

  lemma {:induction false} EntryIs(entries: Entries, key: string)
    ensures forall i :: FirstOf(entries, key, i) ==> Entry(entries, key) == Some(entries[i].1)
    ensures Entry(entries, key).None? <==> forall j :: 0 <= j < |entries| ==> entries[j].0 != key
  {
    if entries != [] {
      EntryIs(entries[1..], key);
      assert forall j :: 0 < j < |entries| ==> entries[j] == entries[1..][j - 1];
      if entries[0].0 != key {
        forall i | FirstOf(entries, key, i) ensures FirstOf(entries[1..], key, i - 1) {}
      }
    }
  }

  /// A file without a table of profiles has none; and one with a table has those of it.
  lemma {:induction false} FileProfilesAre(p: Parsers, sch: Schema, doc: Entries, i: int)
    ensures (forall j :: 0 <= j < |doc| ==> doc[j].0 != "profile") ==> ProfilesOf(p, sch, doc) == []
    ensures FirstOf(doc, "profile", i) ==>
              if doc[i].1.Table? then InTheirOrder(Answers(p, sch, doc[i].1.entries), ProfilesOf(p, sch, doc))
              else ProfilesOf(p, sch, doc) == []
  {
    EntryIs(doc, "profile");
    if FirstOf(doc, "profile", i) && doc[i].1.Table? { ProfilesAre(p, sch, doc[i].1.entries); }
  }

  /// With a first key that is not empty, the dotted key is the keys with dots between them.
  function WithDots(keys: seq<string>): string
  {
    if keys == [] then "" else if |keys| == 1 then keys[0] else keys[0] + "." + WithDots(keys[1..])
  }

  lemma {:induction false} DottedIsJoined(prefix: string, keys: seq<string>)
    requires keys != [] && (prefix == "" ==> keys[0] != "")
    ensures Dotted(prefix, keys) == if prefix == "" then WithDots(keys) else prefix + "." + WithDots(keys)
    decreases |keys|
  {
    var path := if prefix == "" then keys[0] else prefix + "." + keys[0];
    if |keys| > 1 {
      DottedIsJoined(path, keys[1..]);
      assert prefix + "." + keys[0] + "." + WithDots(keys[1..]) == prefix + "." + (keys[0] + "." + WithDots(keys[1..]));
    } else {
      assert keys[1..] == [];
    }
  }
}
