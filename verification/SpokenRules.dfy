// When each rule of the spoken grammar answers, by the words said (crates/edit-intent/src/parse.rs).
//
// Which rule answers first is what the theorems on refusals and on reaching the whole target speak of.

module SpokenRules {
  import opened Common
  import opened Text
  import opened SpokenGrammar
  import opened SpokenScope
  import opened SpokenMarks
  import opened SpokenMeanings

  // ---- Words ---------------------------------------------------------------------------------------

  ghost predicate SomePosition(w: string) { exists which :: SaysPosition(w, which) }

  ghost predicate SomeUnit(w: string) { exists kind :: SaysUnit(w, kind) }

  lemma {:induction false} PositionWord(w: string)
    ensures Ordinal(w).Some? <==> SomePosition(w)
  {
    if Ordinal(w).Some? { PositionIs(w, Ordinal(w).value); }
    if which :| SaysPosition(w, which) { PositionIs(w, which); }
  }

  lemma {:induction false} UnitWord(w: string)
    ensures UnitOf(w).Some? <==> SomeUnit(w)
  {
    if UnitOf(w).Some? { UnitIs(w, UnitOf(w).value); }
    if kind :| SaysUnit(w, kind) { UnitIs(w, kind); }
  }

  /// A unit is said, and a position other than "this" and "that", anywhere and in any order.
  ghost predicate NamesBoth(toks: seq<string>)
  {
    && (exists t :: t in toks && SomeUnit(t))
    && (exists t :: t in toks && SomePosition(t) && t != "this" && t != "that")
  }

  lemma {:induction false} MentionsIff(toks: seq<string>)
    ensures Mentions(toks) <==> NamesBoth(toks)
  {
    forall t ensures (UnitOf(t).Some? <==> SomeUnit(t)) && (Ordinal(t).Some? <==> SomePosition(t)) {
      UnitWord(t);
      PositionWord(t);
    }
  }

  lemma {:induction false} PlacementIff(toks: seq<string>)
    ensures NamesPlacement(toks)
            <==> "before" in toks || "between" in toks || "around" in toks || "each" in toks || "every" in toks
  {
  }

  predicate SaysJoin(lower: string, toks: seq<string>)
  {
    && ("join" in toks || Contains(lower, "one line") || Contains(lower, "single line"))
    && ("line" in toks || "lines" in toks || "them" in toks || "these" in toks)
  }

  lemma {:induction false} JoinsIff(lower: string, toks: seq<string>)
    ensures Joins(lower, toks) <==> SaysJoin(lower, toks)
  {
    assert HasAny(toks, ["join"]) <==> "join" in toks;
    assert ContainsAny(lower, ["one line", "single line"]) <==> Contains(lower, "one line") || Contains(lower, "single line");
    assert HasAny(toks, ["line", "lines", "them", "these"])
           <==> "line" in toks || "lines" in toks || "them" in toks || "these" in toks;
  }

  // ---- Marks ---------------------------------------------------------------------------------------

  /// What is blanked leaves a space, so no name without one comes about.
  lemma {:induction false} BlankJoinsNothing(s: string, at: nat, n: nat, name: string)
    requires at + n <= |s| && ' ' !in name && Contains(Blanked(s, at, n), name)
    ensures Contains(s, name)
  {
    var rest := Blanked(s, at, n);
    var i :| 0 <= i <= |rest| - |name| && HasAt(rest, name, i);
    InAnyPart(rest, name, i, at);
    if i + |name| <= at {
      assert s[i..i + |name|] == rest[i..i + |name|];
      assert HasAt(s, name, i);
    } else if at < i {
      var j := i + n - 1;
      assert s[j..j + |name|] == rest[i..i + |name|];
      assert HasAt(s, name, j);
    }
  }

  /// A part that stands across a place has the character of that place.
  lemma {:induction false} InAnyPart(s: string, part: string, i: nat, at: nat)
    requires HasAt(s, part, i) && at < |s|
    ensures i <= at < i + |part| ==> s[at] in part
  {
    if i <= at < i + |part| { assert part[at - i] == s[i..i + |part|][at - i] == s[at]; }
  }

  /// The text names the mark, or a name of it has a space.
  predicate StandsIn(table: Table, s: string, k: nat, c: char)
  {
    exists m :: k <= m < |table| && table[m].1 == c && (Contains(s, table[m].0) || ' ' in table[m].0)
  }

  /// Every mark found is named in the text itself, except perhaps those whose names have a space.
  lemma {:induction false} FoundStands(table: Table, s: string, k: nat, c: char)
    requires k <= |table| && c in MarksFrom(table, s, k)
    ensures StandsIn(table, s, k, c)
    decreases |table| - k, |s|
  {
    var name := table[k].0;
    var at := Find(s, name, 0);
    if at.None? {
      FoundStands(table, s, k + 1, c);
    } else {
      FoundIffThere(s, name);
      assert Contains(s, name);
      if c != table[k].1 {
        var rest := Blanked(s, at.value, |name|);
        FoundStands(table, rest, k, c);
        var m :| k <= m < |table| && table[m].1 == c && (Contains(rest, table[m].0) || ' ' in table[m].0);
        if ' ' !in table[m].0 { BlankJoinsNothing(s, at.value, |name|, table[m].0); }
      }
    }
  }

  // ---- The rules -----------------------------------------------------------------------------------

  /// A scope, and perhaps more words after it.
  ghost predicate Leads(rest: seq<string>)
  {
    exists used, which, kind :: 0 <= used <= |rest| && SaysScope(rest[..used], which, kind)
  }

  ghost predicate ClaimsUnit(toks: seq<string>)
  {
    exists h, rest :: h in DELETE_HEADS && toks == h + rest && (rest in WHOLE_PHRASES || Leads(rest))
  }

  lemma {:induction false} LeadsIff(rest: seq<string>)
    ensures LeadingScope(rest, 0).Some? <==> Leads(rest)
  {
    if LeadingScope(rest, 0).Some? {
      var (scope, used) := LeadingScope(rest, 0).value;
      LeadingIs(rest, 0, used, scope.which, scope.kind);
      assert rest[0..used] == rest[..used];
    }
    if used, which, kind :| 0 <= used <= |rest| && SaysScope(rest[..used], which, kind) {
      assert rest[0..used] == rest[..used];
      LeadingIs(rest, 0, used, which, kind);
    }
  }

  lemma {:induction false} RestClaims(toks: seq<string>, rest: seq<string>)
    requires AllWords(rest) && StripAny(toks, [["delete"], ["remove"], ["get", "rid", "of"], ["cut"], ["erase"]]) == Some(rest)
    ensures DeleteUnitRule(toks).Some? <==> rest in WHOLE_PHRASES || Leads(rest)
  {
    LeadsIff(rest);
    WholeIffPhrase(rest);
    if rest in WHOLE_PHRASES { PhraseLeadsNowhere(rest); }
  }

  lemma {:induction false} UnitClaimIff(toks: seq<string>)
    requires AllWords(toks)
    ensures DeleteUnitRule(toks).Some? <==> ClaimsUnit(toks)
  {
    var heads := [["delete"], ["remove"], ["get", "rid", "of"], ["cut"], ["erase"]];
    assert heads == DELETE_HEADS;
    var stripped := StripAny(toks, heads);
    if stripped.Some? {
      HeadStrips(toks, heads, stripped.value);
      RestClaims(toks, stripped.value);
    }
    if ClaimsUnit(toks) {
      var h, rest :| h in DELETE_HEADS && toks == h + rest && (rest in WHOLE_PHRASES || Leads(rest));
      HeadStrips(toks, heads, rest);
      RestClaims(toks, rest);
    }
  }

  ghost predicate NamedMarkAt(named: seq<string>)
  {
    named != [] && SomePosition(named[0]) && OnlyMark(Join(named[1..])).Some?
  }

  ghost predicate ClaimsMark(toks: seq<string>)
  {
    exists h, rest :: h in DELETE_HEADS[..3] && toks == h + rest && NamedMarkAt(WithoutThe(rest))
  }

  lemma {:induction false} MarkRestClaims(toks: seq<string>, rest: seq<string>)
    requires StripAny(toks, [["delete"], ["remove"], ["get", "rid", "of"]]) == Some(rest)
    ensures DeleteMarkRule(toks).Some? <==> NamedMarkAt(WithoutThe(rest))
  {
    var named := WithoutThe(rest);
    assert named == if ["the"] <= rest then rest[1..] else rest;
    if named != [] { PositionWord(named[0]); }
  }

  lemma {:induction false} MarkClaimIff(toks: seq<string>)
    ensures DeleteMarkRule(toks).Some? <==> ClaimsMark(toks)
  {
    var heads := [["delete"], ["remove"], ["get", "rid", "of"]];
    MarkHeads();
    var stripped := StripAny(toks, heads);
    if stripped.Some? {
      Stripped(toks, heads);
      MarkRestClaims(toks, stripped.value);
    }
    if ClaimsMark(toks) {
      var h, rest :| h in DELETE_HEADS[..3] && toks == h + rest && NamedMarkAt(WithoutThe(rest));
      HeadStrips(toks, heads, rest);
      MarkRestClaims(toks, rest);
    }
  }

  ghost predicate ClaimsWrap(lower: string, toks: seq<string>)
    requires toks != []
  {
    && toks[0] in ["wrap", "surround", "put", "enclose"]
    && (exists w :: w in toks && w in ["in", "with", "inside"])
    && (NamesBoth(toks) || exists pair :: Chooses(WRAPPERS, lower, pair))
  }

  lemma {:induction false} WrapClaimIff(lower: string, toks: seq<string>)
    requires toks != []
    ensures WrapRule(lower, toks).Some? <==> ClaimsWrap(lower, toks)
  {
    MentionsIff(toks);
    if Wrapper(lower).Some? { WrapperIs(lower, Wrapper(lower).value); }
    if pair :| Chooses(WRAPPERS, lower, pair) { WrapperIs(lower, pair); }
  }

  lemma {:induction false} StyleClaimIff(lower: string, toks: seq<string>)
    ensures IdentifierRule(lower, toks).Some? <==> exists style :: Chooses(STYLES, lower, style)
  {
    if StyleNamed(lower).Some? { StyleIs(lower, StyleNamed(lower).value); }
    if style :| Chooses(STYLES, lower, style) { StyleIs(lower, style); }
  }

  lemma {:induction false} ListClaimIff(lower: string, toks: seq<string>)
    ensures ListRule(lower, toks).Some? <==> exists kind :: SaysList(lower, toks, kind)
  {
    if Joins(lower, toks) { ListIs(lower, toks, JoinLines); }
    if ListNamed(lower, toks).Some? { ListIs(lower, toks, ListNamed(lower, toks).value); }
    if kind :| SaysList(lower, toks, kind) { ListIs(lower, toks, kind); }
  }

  lemma {:induction false} CaseClaimIff(lower: string, toks: seq<string>)
    ensures RecaseRule(lower, toks).Some? <==> NamesBoth(toks) || exists which, kind :: OneScope(toks, which, kind)
  {
    MentionsIff(toks);
    var scope := Only(ScopesFrom(toks, 0));
    if scope.Some? {
      OnlyUnits(toks, 0, scope.value);
      OneScopeIff(toks, scope.value.which, scope.value.kind);
    }
    if which, kind :| OneScope(toks, which, kind) { OneScopeIff(toks, which, kind); }
  }

  lemma {:induction false} OnlyUnits(toks: seq<string>, i: nat, scope: Scope)
    requires scope in ScopesFrom(toks, i)
    ensures scope.Unit?
    decreases |toks| - i
  {
    if i < |toks| && !(PairAt(toks, i) == Some(scope)) { OnlyUnits(toks, i + 1, scope); }
  }

  ghost predicate ClaimsUnresolved(lower: string, toks: seq<string>)
    requires toks != []
  {
    && toks[0] in ["add", "put", "insert", "make", "move", "get", "swap", "change", "replace", "delete", "remove"]
    && exists mark :: NamedBy(lower, mark)
  }

  lemma {:induction false} NamesMarkIff(s: string)
    ensures NamesMark(s) <==> exists mark :: NamedBy(s, mark)
  {
    if k :| 0 <= k < |MARKS| && Contains(s, MARKS[k].0) {
      MarkTable(k);
      assert NamesMarkBy([MARKS[k].0], s);
      assert NamedBy(s, MARKS[k].1);
    }
    if mark :| NamedBy(s, mark) { NamedInTable(s, mark); }
  }

  lemma {:induction false} UnresolvedClaimIff(lower: string, toks: seq<string>)
    requires toks != []
    ensures UnresolvedMarkRule(lower, toks).Some? <==> ClaimsUnresolved(lower, toks)
  {
    NamesMarkIff(lower);
  }

  ghost predicate ClaimsOccurrence(toks: seq<string>)
    requires toks != []
  {
    && toks[0] in ["change", "swap", "replace", "delete", "remove", "capitalize"]
    && |toks| > 2 && toks[1] == "the" && SomePosition(toks[2]) && toks[2] != "this" && toks[2] != "that"
  }

  lemma {:induction false} OccurrenceClaimIff(toks: seq<string>)
    requires toks != []
    ensures OrdinalRule(toks).Some? <==> ClaimsOccurrence(toks)
  {
    if |toks| > 2 { PositionWord(toks[2]); }
  }

  lemma {:induction false} NamedInTable(s: string, mark: char)
    requires NamedBy(s, mark)
    ensures NamesMark(s)
  {
    var (k, other) := match mark
                      case '!' => (0, 1)
                      case '?' => (2, 2)
                      case '.' => (3, 6)
                      case ';' => (4, 5)
                      case ',' => (7, 7)
                      case _ => (8, 8);
    assert NamesMarkBy([MARKS[k].0, MARKS[other].0], s);
  }

  lemma {:induction false} MarksClaimIff(lower: string, toks: seq<string>)
    requires toks != []
    ensures PunctuationRule(lower, toks).Some?
            <==> toks[0] in ["add", "append", "at", "insert", "put", "stick"] && OnlyMark(lower).Some?
  {
  }

  // ---- The first that answers ----------------------------------------------------------------------

  const ORDER := [DeletesUnit, Marks, DeletesMark, Wraps, Identifies, Lists, Recases, Unresolved, Occurrence]

  /// The rule has something to say of these words.
  ghost predicate Claims(rule: Rule, lower: string, toks: seq<string>)
    requires toks != []
  {
    match rule
    case DeletesUnit => ClaimsUnit(toks)
    case Marks => toks[0] in ["add", "append", "at", "insert", "put", "stick"] && OnlyMark(lower).Some?
    case DeletesMark => ClaimsMark(toks)
    case Wraps => ClaimsWrap(lower, toks)
    case Identifies => exists style :: Chooses(STYLES, lower, style)
    case Lists => exists kind :: SaysList(lower, toks, kind)
    case Recases => NamesBoth(toks) || exists which, kind :: OneScope(toks, which, kind)
    case Unresolved => ClaimsUnresolved(lower, toks)
    case Occurrence => ClaimsOccurrence(toks)
    case _ => false
  }

  /// The rule at this place of the order claims the words, and none before it does.
  ghost predicate FirstClaim(lower: string, toks: seq<string>, k: int)
    requires toks != []
  {
    0 <= k < |ORDER| && Claims(ORDER[k], lower, toks) && forall j :: 0 <= j < k ==> !Claims(ORDER[j], lower, toks)
  }

  /// The first rule that answers, when each of them is known to or not.
  function Pick(a: bool, b: bool, c: bool, d: bool, e: bool, f: bool, g: bool, h: bool, i: bool): Rule
  {
    if a then DeletesUnit else if b then Marks else if c then DeletesMark else if d then Wraps
    else if e then Identifies else if f then Lists else if g then Recases else if h then Unresolved
    else if i then Occurrence else NoRule
  }

  lemma {:induction false} FlatPick(lower: string, toks: seq<string>)
    requires toks != []
    ensures FlatClaimant(lower, toks)
            == Pick(DeleteUnitRule(toks).Some?, PunctuationRule(lower, toks).Some?, DeleteMarkRule(toks).Some?,
                    WrapRule(lower, toks).Some?, IdentifierRule(lower, toks).Some?, ListRule(lower, toks).Some?,
                    RecaseRule(lower, toks).Some?, UnresolvedMarkRule(lower, toks).Some?, OrdinalRule(toks).Some?)
  {
  }

  lemma {:induction false} PickFirst(c: seq<bool>)
    requires |c| == |ORDER|
    ensures var r := Pick(c[0], c[1], c[2], c[3], c[4], c[5], c[6], c[7], c[8]);
            && (forall k :: 0 <= k < |c| && c[k] && (forall j :: 0 <= j < k ==> !c[j]) ==> r == ORDER[k])
            && (r == NoRule <==> forall k :: 0 <= k < |c| ==> !c[k])
  {
  }

  /// Which of the rules claim the words, in that order.
  ghost function Claiming(lower: string, toks: seq<string>): (c: seq<bool>)
    requires toks != []
    ensures |c| == |ORDER| && forall k :: 0 <= k < |ORDER| ==> c[k] == Claims(ORDER[k], lower, toks)
  {
    seq(|ORDER|, k requires 0 <= k < |ORDER| => Claims(ORDER[k], lower, toks))
  }

  lemma {:induction false} EarlyClaims(lower: string, toks: seq<string>)
    requires toks != [] && AllWords(toks)
    ensures DeleteUnitRule(toks).Some? <==> Claims(DeletesUnit, lower, toks)
    ensures PunctuationRule(lower, toks).Some? <==> Claims(Marks, lower, toks)
    ensures DeleteMarkRule(toks).Some? <==> Claims(DeletesMark, lower, toks)
    ensures WrapRule(lower, toks).Some? <==> Claims(Wraps, lower, toks)
  {
    UnitClaimIff(toks);
    MarksClaimIff(lower, toks);
    MarkClaimIff(toks);
    WrapClaimIff(lower, toks);
  }

  lemma {:induction false} LateClaims(lower: string, toks: seq<string>)
    requires toks != []
    ensures IdentifierRule(lower, toks).Some? <==> Claims(Identifies, lower, toks)
    ensures ListRule(lower, toks).Some? <==> Claims(Lists, lower, toks)
  {
    StyleClaimIff(lower, toks);
    ListClaimIff(lower, toks);
  }

  lemma {:induction false} LastClaims(lower: string, toks: seq<string>)
    requires toks != []
    ensures RecaseRule(lower, toks).Some? <==> Claims(Recases, lower, toks)
    ensures UnresolvedMarkRule(lower, toks).Some? <==> Claims(Unresolved, lower, toks)
    ensures OrdinalRule(toks).Some? <==> Claims(Occurrence, lower, toks)
  {
    CaseClaimIff(lower, toks);
    UnresolvedClaimIff(lower, toks);
    OccurrenceClaimIff(toks);
  }

  lemma {:induction false} ClaimantIs(lower: string, toks: seq<string>)
    requires toks != [] && AllWords(toks)
    ensures var c := Claiming(lower, toks);
            FlatClaimant(lower, toks) == Pick(c[0], c[1], c[2], c[3], c[4], c[5], c[6], c[7], c[8])
  {
    FlatPick(lower, toks);
    EarlyClaims(lower, toks);
    LateClaims(lower, toks);
    LastClaims(lower, toks);
  }

  /// Which rule answers, by the words said: the first in the order that claims them.
  lemma {:induction false} FirstToClaim(lower: string, toks: seq<string>)
    requires toks != [] && AllWords(toks)
    ensures forall k :: FirstClaim(lower, toks, k) ==> FlatClaimant(lower, toks) == ORDER[k]
    ensures FlatClaimant(lower, toks) == NoRule <==> forall k :: 0 <= k < |ORDER| ==> !Claims(ORDER[k], lower, toks)
  {
    ClaimantIs(lower, toks);
    PickFirst(Claiming(lower, toks));
  }
}
