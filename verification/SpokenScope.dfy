// When a command that names a part of the text acts on all of it, and what becomes of a scoped prefix
// whose words and tokens do not line up (crates/edit-intent/src/parse.rs).

module SpokenScope {
  import opened Common
  import opened Text
  import opened SpokenGrammar

  /// The rules, in order; `NoRule` leaves the utterance to the literal verbs.
  datatype Rule =
    | Undoes | Prefixed | DeletesUnit | Marks | DeletesMark | Wraps | Identifies | Lists | Recases
    | Unresolved | Occurrence | NoRule

  function FlatClaimant(lower: string, toks: seq<string>): Rule
    requires toks != []
  {
    if DeleteUnitRule(toks).Some? then DeletesUnit
    else if PunctuationRule(lower, toks).Some? then Marks
    else if DeleteMarkRule(toks).Some? then DeletesMark
    else if WrapRule(lower, toks).Some? then Wraps
    else if IdentifierRule(lower, toks).Some? then Identifies
    else if ListRule(lower, toks).Some? then Lists
    else if RecaseRule(lower, toks).Some? then Recases
    else if UnresolvedMarkRule(lower, toks).Some? then Unresolved
    else if OrdinalRule(toks).Some? then Occurrence
    else NoRule
  }

  /// The first rule that answers.
  function Claimant(fold: Fold, t: string, lower: string): Rule
  {
    var toks := Tokens(lower);
    if toks == [] then NoRule
    else if UndoRule(toks).Some? then Undoes
    else if ScopedPrefix(fold, t, toks).Some? then Prefixed
    else FlatClaimant(lower, toks)
  }

  /// What the guards of that rule let through to an edit of the whole target.
  predicate LetsThrough(rule: Rule, toks: seq<string>)
  {
    match rule
    case Marks => !NamesPosition(toks) && !NamesPlacement(toks) && "after" !in toks
    case Wraps => !NamesPosition(toks)
    case Identifies => !NamesPosition(toks)
    case Lists => true
    case _ => false
  }

  /// Intents that act on the whole target, lists among them.
  predicate ReachesAll(i: Intent) { ActsOnAll(i) || i.ListOp? }

  predicate Widens(d: Decision) { d.Accept? && ReachesAll(d.intent) }

  lemma {:induction false} PositionIff(toks: seq<string>, w: string)
    ensures PositionOf(toks, w) < |toks| <==> w in toks
  {
    if toks != [] && toks[0] != w {
      PositionIff(toks[1..], w);
    }
  }

  lemma {:induction false} MarkWidensIff(lower: string, toks: seq<string>)
    requires toks != [] && NamesUnit(toks) && PunctuationRule(lower, toks).Some?
    ensures Widens(PunctuationRule(lower, toks).value)
            <==> !NamesPosition(toks) && !NamesPlacement(toks) && "after" !in toks
  {
    PositionIff(toks, "after");
  }

  /// The rule for lists looks at no scope.
  lemma {:induction false} OthersDecide(lower: string, toks: seq<string>)
    requires toks != [] && NamesUnit(toks) && AllWords(toks)
    ensures DeleteUnitRule(toks).Some? ==> !Widens(DeleteUnitRule(toks).value)
    ensures DeleteMarkRule(toks).Some? ==> !Widens(DeleteMarkRule(toks).value)
    ensures ListRule(lower, toks).Some? ==> Widens(ListRule(lower, toks).value)
    ensures RecaseRule(lower, toks).Some? ==> !Widens(RecaseRule(lower, toks).value)
  {
    if DeleteUnitRule(toks) == Some(Accept(DeleteScope(Whole))) { WholeNamesNoUnit(toks); }
  }

  lemma {:induction false} WholeIff(lower: string, toks: seq<string>)
    requires toks != [] && NamesUnit(toks)
    ensures WrapRule(lower, toks).Some? ==> (Widens(WrapRule(lower, toks).value) <==> !NamesPosition(toks))
    ensures IdentifierRule(lower, toks).Some? ==> (Widens(IdentifierRule(lower, toks).value) <==> !NamesPosition(toks))
  {
  }

  lemma {:induction false} FlatPassIff(lower: string, toks: seq<string>)
    requires toks != []
    ensures Flat(lower, toks).Pass? <==> FlatClaimant(lower, toks).NoRule?
  {
  }

  lemma {:induction false} ClaimedWidens(lower: string, toks: seq<string>)
    requires toks != [] && NamesUnit(toks) && FlatClaimant(lower, toks) in [Marks, Wraps, Identifies]
    ensures Widens(Flat(lower, toks)) <==> LetsThrough(FlatClaimant(lower, toks), toks)
  {
    WholeIff(lower, toks);
    if FlatClaimant(lower, toks).Marks? { MarkWidensIff(lower, toks); }
  }

  lemma {:induction false} OthersWiden(lower: string, toks: seq<string>)
    requires toks != [] && NamesUnit(toks) && AllWords(toks) && FlatClaimant(lower, toks) !in [Marks, Wraps, Identifies]
    ensures Widens(Flat(lower, toks)) <==> FlatClaimant(lower, toks).Lists?
  {
    OthersDecide(lower, toks);
  }

  lemma {:induction false} FlatWidensIff(lower: string, toks: seq<string>)
    requires toks != [] && NamesUnit(toks) && AllWords(toks)
    ensures Widens(Flat(lower, toks)) <==> LetsThrough(FlatClaimant(lower, toks), toks)
  {
    if FlatClaimant(lower, toks) in [Marks, Wraps, Identifies] {
      ClaimedWidens(lower, toks);
    } else {
      OthersWiden(lower, toks);
    }
  }

  /// An utterance with a unit and a position does not get past the rule for changes of case.
  lemma {:induction false} PassNamesNoPosition(lower: string, toks: seq<string>)
    requires toks != [] && Mentions(toks)
    ensures !FlatClaimant(lower, toks).NoRule?
  {
    assert RecaseRule(lower, toks).Some?;
  }

  predicate Early(fold: Fold, t: string, toks: seq<string>)
    requires toks != []
  {
    UndoRule(toks).Some? || ScopedPrefix(fold, t, toks).Some?
  }

  lemma {:induction false} UndoNarrow(fold: Fold, t: string, lower: string, toks: seq<string>)
    requires toks == Tokens(lower) && toks != [] && UndoRule(toks).Some?
    ensures Extended(fold, t, lower) == Accept(Undo(UndoRule(toks).value)) && Claimant(fold, t, lower) == Undoes
  {
  }

  lemma {:induction false} PrefixAnswers(fold: Fold, t: string, lower: string, toks: seq<string>)
    requires toks == Tokens(lower) && toks != [] && UndoRule(toks).None? && ScopedPrefix(fold, t, toks).Some?
    ensures Extended(fold, t, lower) == ScopedPrefix(fold, t, toks).value && Claimant(fold, t, lower) == Prefixed
  {
  }

  lemma {:induction false} PrefixNarrow(fold: Fold, t: string, toks: seq<string>)
    requires toks != [] && ScopedPrefix(fold, t, toks).Some?
    ensures !ScopedPrefix(fold, t, toks).value.Pass? && !Widens(ScopedPrefix(fold, t, toks).value)
  {
  }

  lemma {:induction false} EarlyNarrow(fold: Fold, t: string, lower: string, toks: seq<string>)
    requires toks == Tokens(lower) && toks != [] && Early(fold, t, toks)
    ensures !Extended(fold, t, lower).Pass? && !Widens(Extended(fold, t, lower))
    ensures Claimant(fold, t, lower) in [Undoes, Prefixed]
  {
    if UndoRule(toks).Some? {
      UndoNarrow(fold, t, lower, toks);
    } else {
      PrefixAnswers(fold, t, lower, toks);
      PrefixNarrow(fold, t, toks);
    }
  }

  lemma {:induction false} LaterFlat(fold: Fold, t: string, lower: string, toks: seq<string>)
    requires toks == Tokens(lower) && toks != [] && !Early(fold, t, toks)
    ensures Extended(fold, t, lower) == Flat(lower, toks) && Claimant(fold, t, lower) == FlatClaimant(lower, toks)
  {
  }

  lemma {:induction false} ExtendedWidensIff(fold: Fold, t: string, lower: string, toks: seq<string>)
    requires toks == Tokens(lower) && NamesUnit(toks)
    ensures Widens(Extended(fold, t, lower)) <==> LetsThrough(Claimant(fold, t, lower), toks)
  {
    if Early(fold, t, toks) {
      EarlyNarrow(fold, t, lower, toks);
    } else {
      LaterFlat(fold, t, lower, toks);
      TokensAreWords(lower);
      FlatWidensIff(lower, toks);
    }
  }

  lemma {:induction false} ExtendedPassIff(fold: Fold, t: string, lower: string, toks: seq<string>)
    requires toks == Tokens(lower) && NamesUnit(toks)
    ensures Extended(fold, t, lower).Pass? <==> Claimant(fold, t, lower).NoRule?
    ensures Claimant(fold, t, lower).NoRule? ==> !NamesPosition(toks)
  {
    if Early(fold, t, toks) {
      EarlyNarrow(fold, t, lower, toks);
    } else {
      LaterFlat(fold, t, lower, toks);
      FlatPassIff(lower, toks);
      if NamesPosition(toks) { PassNamesNoPosition(lower, toks); }
    }
  }

  // ---- What the literal verbs read -----------------------------------------------------------------

  /// A verb, its joiner, and something on either side.
  predicate VerbReads(t: string, lower: string, head: string, joiner: string)
  {
    var at := JoinerIn(lower, head, joiner);
    at.Some? && Between(t, lower, |head|, at.value.start) != [] && Onward(t, lower, at.value.end) != []
  }

  /// A head, and something after it.
  predicate HeadReads(lower: string, heads: seq<string>)
  {
    exists k :: 0 <= k < |heads| && heads[k] <= lower && Trim(lower[|heads[k]|..]) != []
  }

  const CASE_WORDS: seq<string> :=
    ["uppercase", "all caps", "capitalize everything", "lowercase", "all lowercase", "title case", "titlecase",
     "sentence case", "sentencecase"]

  predicate NamesCase(lower: string) { ContainsAny(lower, CASE_WORDS) }

  predicate LiteralReads(t: string, lower: string)
  {
    || VerbReads(t, lower, "change ", " to ") || VerbReads(t, lower, "replace ", " with ")
    || VerbReads(t, lower, "make ", " into ") || VerbReads(t, lower, "swap ", " for ")
    || HeadReads(lower, ["delete ", "remove ", "get rid of ", "scratch "])
    || HeadReads(lower, ["append ", "add ", "also add "])
    || NamesCase(lower)
  }

  lemma {:induction false} VerbReadsIff(t: string, lower: string, head: string, joiner: string)
    ensures ReplaceVerb(t, lower, head, joiner).Some? <==> VerbReads(t, lower, head, joiner)
  {
  }

  lemma {:induction false} HeadReadsIff(t: string, lower: string, heads: seq<string>)
    ensures Operand(t, lower, heads).Some? <==> HeadReads(lower, heads)
  {
    if heads != [] {
      var rest := heads[1..];
      HeadReadsIff(t, lower, rest);
      forall k | 0 <= k < |rest| ensures rest[k] == heads[k + 1] {}
      if HeadReads(lower, rest) {
        var k :| 0 <= k < |rest| && rest[k] <= lower && Trim(lower[|rest[k]|..]) != [];
        assert heads[k + 1] <= lower;
      }
      if HeadReads(lower, heads) && !(heads[0] <= lower && Trim(lower[|heads[0]|..]) != []) {
        var k :| 0 <= k < |heads| && heads[k] <= lower && Trim(lower[|heads[k]|..]) != [];
        assert rest[k - 1] <= lower;
      }
    }
  }

  lemma {:induction false} WholeCaseIff(lower: string)
    ensures WholeCase(lower).Some? <==> NamesCase(lower)
  {
    var (upper, low) := (["uppercase", "all caps", "capitalize everything"], ["lowercase", "all lowercase"]);
    var (title, sentence) := (["title case", "titlecase"], ["sentence case", "sentencecase"]);
    assert CASE_WORDS == upper + low + title + sentence;
  }

  lemma {:induction false} LiteralReadsIff(t: string, lower: string)
    ensures !Literal(t, lower).Freeform? <==> LiteralReads(t, lower)
  {
    VerbReadsIff(t, lower, "change ", " to ");
    VerbReadsIff(t, lower, "replace ", " with ");
    VerbReadsIff(t, lower, "make ", " into ");
    VerbReadsIff(t, lower, "swap ", " for ");
    HeadReadsIff(t, lower, ["delete ", "remove ", "get rid of ", "scratch "]);
    HeadReadsIff(t, lower, ["append ", "add ", "also add "]);
    WholeCaseIff(lower);
  }

  lemma {:induction false} LiteralReachesAll(t: string, lower: string)
    ensures ReachesAll(Literal(t, lower)) <==> LiteralReads(t, lower)
  {
    LiteralReadsIff(t, lower);
    assert ReachesAll(Literal(t, lower)) <==> !Literal(t, lower).Freeform?;
  }

  lemma {:induction false} ParseWidensIff(fold: Fold, u: string, t: string, lower: string)
    requires t == Trim(u) && lower == FoldAll(fold, t)
    ensures var d := Extended(fold, t, lower);
            ReachesAll(Parse(fold, u)) <==> Widens(d) || (d.Pass? && LiteralReads(t, lower))
  {
    LiteralReachesAll(t, lower);
    Decided(fold, u, t, lower, Extended(fold, t, lower));
  }

  /// A command that names a unit acts on the whole target exactly when the first rule that answers is
  /// the one for lists; or it has no position word other than "this" and "that", and that rule is the
  /// one for marks, placing it at the end, for wrapping or for identifiers, or no rule answers and it
  /// has what a literal verb reads.
  lemma {:induction false} ReachesAllIff(fold: Fold, u: string)
    requires NamesUnit(Said(fold, u))
    ensures var (t, lower, toks) := (Trim(u), FoldAll(fold, Trim(u)), Said(fold, u));
            var rule := Claimant(fold, t, lower);
            ReachesAll(Parse(fold, u)) <==> LetsThrough(rule, toks) || (rule.NoRule? && LiteralReads(t, lower))
    ensures Claimant(fold, Trim(u), FoldAll(fold, Trim(u))).NoRule? ==> !NamesPosition(Said(fold, u))
  {
    var (t, lower, toks) := (Trim(u), FoldAll(fold, Trim(u)), Said(fold, u));
    ExtendedWidensIff(fold, t, lower, toks);
    ExtendedPassIff(fold, t, lower, toks);
    ParseWidensIff(fold, u, t, lower);
  }

  // ---- What is refused -----------------------------------------------------------------------------

  /// A scope to delete, and more words after it.
  predicate DeletesMore(toks: seq<string>)
  {
    var rest := StripAny(toks, [["delete"], ["remove"], ["get", "rid", "of"], ["cut"], ["erase"]]);
    rest.Some? && LeadingScope(rest.value, 0).Some? && LeadingScope(rest.value, 0).value.1 != |rest.value|
  }

  /// A placement that cannot be computed, or an anchor that is missing or is itself a place.
  predicate MarkStops(toks: seq<string>)
  {
    var i := PositionOf(toks, "after");
    || NamesPlacement(toks)
    || if i == |toks| then Mentions(toks)
       else StripArticle(toks[i + 1..]) == [] || Mentions(StripArticle(toks[i + 1..]))
  }

  /// Nothing follows the scoped prefix, or what follows is refused or scoped itself.
  predicate PrefixStops(fold: Fold, t: string, toks: seq<string>)
  {
    Inner(t, toks).Some? ==> !Runnable(Parse(fold, Inner(t, toks).value))
  }

  /// No single scope, or no case for it.
  predicate CaseStops(lower: string, toks: seq<string>)
  {
    var scope := Only(ScopesFrom(toks, 0));
    scope.Some? ==> CaseNamed(lower, scope.value).None?
  }

  predicate FlatStops(lower: string, toks: seq<string>)
    requires toks != []
  {
    match FlatClaimant(lower, toks)
    case DeletesUnit => DeletesMore(toks)
    case Marks => MarkStops(toks)
    case Wraps => Mentions(toks)
    case Identifies => Mentions(toks)
    case Recases => CaseStops(lower, toks)
    case Unresolved => true
    case Occurrence => true
    case _ => false
  }

  /// The first rule that answers has a guard against the utterance, or none answers and it has
  /// nothing that a literal verb reads.
  predicate Stops(fold: Fold, t: string, lower: string, toks: seq<string>)
  {
    match Claimant(fold, t, lower)
    case Undoes => false
    case Prefixed => PrefixStops(fold, t, toks)
    case NoRule => !LiteralReads(t, lower)
    case _ => toks != [] && FlatStops(lower, toks)
  }

  predicate NeverFreeform(d: Option<Decision>) { d.Some? && d.value.Accept? ==> !d.value.intent.Freeform? }

  lemma {:induction false} PlacedStopsIff(lower: string, toks: seq<string>)
    requires toks != []
    ensures DeleteUnitRule(toks).Some? ==> (DeleteUnitRule(toks).value.Refuse? <==> DeletesMore(toks))
    ensures PunctuationRule(lower, toks).Some? ==> (PunctuationRule(lower, toks).value.Refuse? <==> MarkStops(toks))
    ensures NeverFreeform(DeleteUnitRule(toks)) && NeverFreeform(PunctuationRule(lower, toks))
  {
  }

  lemma {:induction false} StyledStopsIff(lower: string, toks: seq<string>)
    requires toks != []
    ensures WrapRule(lower, toks).Some? ==> (WrapRule(lower, toks).value.Refuse? <==> Mentions(toks))
    ensures IdentifierRule(lower, toks).Some? ==> (IdentifierRule(lower, toks).value.Refuse? <==> Mentions(toks))
    ensures RecaseRule(lower, toks).Some? ==> (RecaseRule(lower, toks).value.Refuse? <==> CaseStops(lower, toks))
    ensures NeverFreeform(WrapRule(lower, toks)) && NeverFreeform(IdentifierRule(lower, toks))
    ensures NeverFreeform(RecaseRule(lower, toks))
  {
  }

  lemma {:induction false} FlatPlacedStops(lower: string, toks: seq<string>)
    requires toks != [] && FlatClaimant(lower, toks) in [DeletesUnit, Marks, DeletesMark]
    ensures Flat(lower, toks).Refuse? <==> FlatStops(lower, toks)
    ensures NeverFreeform(Some(Flat(lower, toks)))
  {
    PlacedStopsIff(lower, toks);
  }

  lemma {:induction false} FlatStyledStops(lower: string, toks: seq<string>)
    requires toks != [] && FlatClaimant(lower, toks) in [Wraps, Identifies, Recases]
    ensures Flat(lower, toks).Refuse? <==> FlatStops(lower, toks)
    ensures NeverFreeform(Some(Flat(lower, toks)))
  {
    StyledStopsIff(lower, toks);
  }

  lemma {:induction false} FlatLastStops(lower: string, toks: seq<string>)
    requires toks != [] && FlatClaimant(lower, toks) in [Lists, Unresolved, Occurrence, NoRule]
    ensures Flat(lower, toks).Refuse? <==> FlatStops(lower, toks)
    ensures NeverFreeform(Some(Flat(lower, toks)))
  {
  }

  lemma {:induction false} FlatStopsIff(lower: string, toks: seq<string>)
    requires toks != []
    ensures Flat(lower, toks).Refuse? <==> FlatStops(lower, toks)
    ensures NeverFreeform(Some(Flat(lower, toks)))
  {
    var rule := FlatClaimant(lower, toks);
    if rule in [DeletesUnit, Marks, DeletesMark] {
      FlatPlacedStops(lower, toks);
    } else if rule in [Wraps, Identifies, Recases] {
      FlatStyledStops(lower, toks);
    } else {
      FlatLastStops(lower, toks);
    }
  }

  lemma {:induction false} InnerIs(t: string, toks: seq<string>, used: nat)
    requires toks != [] && LeadingScope(toks, 1).Some? && used == LeadingScope(toks, 1).value.1
    ensures Inner(t, toks) == if |toks| - 1 - used == 0 then None else TailOfOriginal(t, |toks|, |toks| - 1 - used)
  {
    TailIs(t, |toks|, 1 + used);
  }

  lemma {:induction false} PrefixStopsIff(fold: Fold, t: string, toks: seq<string>)
    requires toks != [] && ScopedPrefix(fold, t, toks).Some?
    ensures ScopedPrefix(fold, t, toks).value.Refuse? <==> PrefixStops(fold, t, toks)
    ensures NeverFreeform(ScopedPrefix(fold, t, toks))
  {
    InnerIs(t, toks, LeadingScope(toks, 1).value.1);
  }

  lemma {:induction false} EarlyStopsIff(fold: Fold, t: string, lower: string, toks: seq<string>)
    requires toks == Tokens(lower) && toks != [] && Early(fold, t, toks)
    ensures Extended(fold, t, lower).Refuse? <==> Stops(fold, t, lower, toks)
    ensures NeverFreeform(Some(Extended(fold, t, lower)))
  {
    if UndoRule(toks).None? { PrefixStopsIff(fold, t, toks); }
  }

  lemma {:induction false} LaterStopsIff(fold: Fold, t: string, lower: string, toks: seq<string>)
    requires toks == Tokens(lower) && toks != [] && !Early(fold, t, toks)
    ensures Extended(fold, t, lower).Refuse? || (Extended(fold, t, lower).Pass? && !LiteralReads(t, lower))
            <==> Stops(fold, t, lower, toks)
    ensures NeverFreeform(Some(Extended(fold, t, lower)))
  {
    LaterFlat(fold, t, lower, toks);
    FlatStopsIff(lower, toks);
    FlatPassIff(lower, toks);
  }

  lemma {:induction false} ExtendedStopsIff(fold: Fold, t: string, lower: string, toks: seq<string>)
    requires toks == Tokens(lower)
    ensures Extended(fold, t, lower).Refuse? || (Extended(fold, t, lower).Pass? && !LiteralReads(t, lower))
            <==> Stops(fold, t, lower, toks)
    ensures NeverFreeform(Some(Extended(fold, t, lower)))
  {
    if toks != [] {
      if Early(fold, t, toks) {
        EarlyNarrow(fold, t, lower, toks);
        EarlyStopsIff(fold, t, lower, toks);
      } else {
        LaterStopsIff(fold, t, lower, toks);
      }
    }
  }

  lemma {:induction false} FreeformIsSaid(t: string, lower: string)
    ensures Literal(t, lower).Freeform? ==> Literal(t, lower) == Freeform(t)
  {
  }

  /// Any utterance at all is refused exactly when the first rule that answers has a guard against it,
  /// or no rule answers and there is no verb, joiner, operand or case word for the literal verbs.
  lemma {:induction false} RefusedIff(fold: Fold, u: string)
    ensures var (t, lower, toks) := (Trim(u), FoldAll(fold, Trim(u)), Said(fold, u));
            Parse(fold, u) == Freeform(t) <==> Stops(fold, t, lower, toks)
    ensures Parse(fold, u).Freeform? ==> Parse(fold, u) == Freeform(Trim(u))
  {
    var (t, lower, toks) := (Trim(u), FoldAll(fold, Trim(u)), Said(fold, u));
    ExtendedStopsIff(fold, t, lower, toks);
    LiteralReadsIff(t, lower);
    FreeformIsSaid(t, lower);
    Decided(fold, u, t, lower, Extended(fold, t, lower));
  }

  // ---- Utterances that widen -----------------------------------------------------------------------

  predicate PlainWords(ws: seq<string>) { forall w :: w in ws ==> IsWord(w) && TrimMarks(w) == w }

  function WrapWords(middle: seq<string>): seq<string> { ["wrap"] + middle + ["in", "quotes"] }

  lemma {:induction false} JoinEndsWith(ws: seq<string>, w: string) returns (p: string)
    requires ws != []
    ensures Join(ws + [w]) == p + w
    decreases |ws|
  {
    var all := ws + [w];
    Unjoin(all);
    if |ws| == 1 {
      assert all[1..] == [w] && Join([w]) == w;
      p := ws[0] + " ";
      assert ws[0] + (" " + w) == p + w;
    } else {
      assert all[1..] == ws[1..] + [w];
      var q := JoinEndsWith(ws[1..], w);
      p := ws[0] + (" " + q);
      assert ws[0] + (" " + (q + w)) == p + w;
    }
  }

  lemma {:induction false} WrapIsPlain(middle: seq<string>)
    requires PlainWords(middle)
    ensures PlainWords(WrapWords(middle))
  {
    assert IsWord("wrap") && TrimMarks("wrap") == "wrap";
    assert IsWord("in") && TrimMarks("in") == "in" && IsWord("quotes") && TrimMarks("quotes") == "quotes";
  }

  lemma {:induction false} WrapNames(middle: seq<string>)
    ensures NamesUnit(WrapWords(middle)) <==> NamesUnit(middle)
    ensures NamesPosition(WrapWords(middle)) <==> NamesPosition(middle)
  {
    var toks := WrapWords(middle);
    forall t | t in middle ensures t in toks {}
    forall t | t in toks && t !in middle ensures t in ["wrap", "in", "quotes"] {}
  }

  lemma {:induction false} EndsInQuotes(middle: seq<string>)
    ensures Contains(Join(WrapWords(middle)), "quote")
  {
    var front := ["wrap"] + middle + ["in"];
    assert WrapWords(middle) == front + ["quotes"];
    var p := JoinEndsWith(front, "quotes");
    var u := Join(WrapWords(middle));
    assert u[|p|..|p| + 5] == "quotes"[..5] == "quote";
    assert HasAt(u, "quote", |p|);
  }

  lemma {:induction false} WrapRuleIff(lower: string, middle: seq<string>)
    requires NamesUnit(middle) && Contains(lower, "quote")
    ensures var d := Flat(lower, WrapWords(middle));
            if NamesPosition(middle) then d.Refuse? else d.Accept? && d.intent.Wrap?
  {
    var toks := WrapWords(middle);
    WrapNames(middle);
    NothingDeleted(toks);
    assert toks[|middle| + 1] == "in" && toks[|middle| + 1] in toks;
    assert PunctuationRule(lower, toks).None?;
    assert Wrapper(lower).Some?;
  }

  lemma {:induction false} Decided(fold: Fold, u: string, t: string, lower: string, d: Decision)
    requires t == Trim(u) && lower == FoldAll(fold, t) && d == Extended(fold, t, lower)
    ensures match d
            case Accept(intent) => Parse(fold, u) == intent
            case Refuse => Parse(fold, u) == Freeform(t)
            case Pass => Parse(fold, u) == Literal(t, lower)
  {
  }

  lemma {:induction false} WrapSaid(fold: Fold, middle: seq<string>)
    requires PlainWords(middle) && FoldAll(fold, Join(WrapWords(middle))) == Join(WrapWords(middle))
    ensures var u := Join(WrapWords(middle)); Trim(u) == u && Tokens(u) == Said(fold, u) == WrapWords(middle)
  {
    WrapIsPlain(middle);
    CleanWords(WrapWords(middle));
    JoinedWords(WrapWords(middle));
  }

  /// For any words in between that name a unit: "wrap ... in quotes" is refused exactly when one of
  /// them is a position word other than "this" and "that"; otherwise it wraps everything.
  lemma {:induction false} WrapWidensIff(fold: Fold, middle: seq<string>)
    requires PlainWords(middle) && NamesUnit(middle)
    requires FoldAll(fold, Join(WrapWords(middle))) == Join(WrapWords(middle))
    ensures var u := Join(WrapWords(middle));
            if NamesPosition(middle) then Parse(fold, u) == Freeform(u) else Parse(fold, u).Wrap?
  {
    var u := Join(WrapWords(middle));
    WrapSaid(fold, middle);
    EndsInQuotes(middle);
    WrapRuleIff(u, middle);
    StartsPlainly(fold, u, u);
    Decided(fold, u, u, u, Flat(u, WrapWords(middle)));
  }

  /// "this" is read as a position when the scope is looked for, and not when an unread one is.
  lemma {:induction false} ThisWidens(fold: Fold, kind: string)
    requires UnitOf(kind).Some? && IsWord(kind) && TrimMarks(kind) == kind
    requires FoldAll(fold, Join(WrapWords(["this", kind]))) == Join(WrapWords(["this", kind]))
    ensures var u := Join(WrapWords(["this", kind]));
            ScopesFrom(Said(fold, u), 0) == [Unit(Last, UnitOf(kind).value)] && Parse(fold, u).Wrap?
  {
    ThisNames(kind);
    WrapSaid(fold, ["this", kind]);
    WrapThisScopes(kind);
    WrapWidensIff(fold, ["this", kind]);
  }

  lemma {:induction false} ThisNames(kind: string)
    requires UnitOf(kind).Some? && IsWord(kind) && TrimMarks(kind) == kind
    ensures var middle := ["this", kind]; PlainWords(middle) && NamesUnit(middle) && !NamesPosition(middle)
  {
    assert kind in ["this", kind] && IsWord("this") && TrimMarks("this") == "this";
    OrdinalIsNoUnit(kind);
  }

  lemma {:induction false} WrapThisScopes(kind: string)
    requires UnitOf(kind).Some?
    ensures ScopesFrom(WrapWords(["this", kind]), 0) == [Unit(Last, UnitOf(kind).value)]
  {
    var toks := WrapWords(["this", kind]);
    OrdinalIsNoUnit(kind);
    assert ScopesFrom(toks, 4) == [];
    assert ScopesFrom(toks, 3) == [];
    assert ScopesFrom(toks, 2) == [];
    assert ScopesFrom(toks, 1) == [Unit(Last, UnitOf(kind).value)];
  }

  /// The positions that are known end with the fifth.
  lemma {:induction false} SixthWidens(fold: Fold, kind: string)
    requires UnitOf(kind).Some? && IsWord(kind) && TrimMarks(kind) == kind
    requires FoldAll(fold, Join(WrapWords(["the", "sixth", kind]))) == Join(WrapWords(["the", "sixth", kind]))
    ensures var u := Join(WrapWords(["the", "sixth", kind]));
            NamesUnit(Said(fold, u)) && Parse(fold, u).Wrap?
  {
    SixthNames(kind);
    WrapSaid(fold, ["the", "sixth", kind]);
    WrapNames(["the", "sixth", kind]);
    WrapWidensIff(fold, ["the", "sixth", kind]);
  }

  lemma {:induction false} SixthNames(kind: string)
    requires UnitOf(kind).Some? && IsWord(kind) && TrimMarks(kind) == kind
    ensures var middle := ["the", "sixth", kind]; PlainWords(middle) && NamesUnit(middle) && !NamesPosition(middle)
  {
    assert kind in ["the", "sixth", kind];
    assert IsWord("the") && TrimMarks("the") == "the" && IsWord("sixth") && TrimMarks("sixth") == "sixth";
    OrdinalIsNoUnit(kind);
  }

  lemma {:induction false} SecondLetterIsP(fold: Fold, t: string, lower: string, toks: seq<string>)
    requires toks == Tokens(lower) && toks != [] && |toks[0]| > 1 && toks[0][1] == 'p'
    requires toks[0] !in ["in", "within", "inside"]
    ensures Extended(fold, t, lower) == Flat(lower, toks)
  {
    assert Join(toks)[1] == toks[0][1] by {
      if |toks| > 1 { Unjoin(toks); }
    }
    assert UndoRule(toks).None?;
    assert ScopedPrefix(fold, t, toks).None?;
  }

  const UPPERCASE_WORDS: seq<string> := ["uppercase", "the", "sixth", "char"]

  const UPPERCASE_SIXTH := "uppercase the sixth char"

  lemma {:induction false} UppercaseSaid()
    ensures Join(UPPERCASE_WORDS) == UPPERCASE_SIXTH && PlainWords(UPPERCASE_WORDS)
  {
    Unjoin(["uppercase", "the", "sixth", "char"]);
    Unjoin(["the", "sixth", "char"]);
    Unjoin(["sixth", "char"]);
    assert Join(["char"]) == "char";
    UppercaseIsPlain();
  }

  lemma {:induction false} UppercaseIsPlain()
    ensures PlainWords(UPPERCASE_WORDS)
  {
    assert IsWord("uppercase") && TrimMarks("uppercase") == "uppercase" && IsWord("the") && TrimMarks("the") == "the";
    assert IsWord("sixth") && TrimMarks("sixth") == "sixth" && IsWord("char") && TrimMarks("char") == "char";
  }

  predicate Sparse(u: string)
  {
    'n' !in u && 'm' !in u && 'l' !in u && 'k' !in u && 'd' !in u && 'g' !in u && 'b' !in u
  }

  lemma {:induction false} SparseHasNoStyle(u: string)
    requires Sparse(u)
    ensures StyleNamed(u).None?
  {
    Lacks(u, "screaming snake", 'n');
    Lacks(u, "constant case", 'n');
    Lacks(u, "snake case", 'n');
    Lacks(u, "camel case", 'm');
    Lacks(u, "pascal case", 'l');
    Lacks(u, "upper camel case", 'm');
    Lacks(u, "kebab case", 'k');
    Lacks(u, "dash case", 'd');
    Lacks(u, "slug", 'g');
  }

  lemma {:induction false} SparseIsNoList(u: string, toks: seq<string>)
    requires Sparse(u) && "join" !in toks && "split" !in toks
    ensures ListRule(u, toks).None?
  {
    Lacks(u, "one line", 'n');
    Lacks(u, "single line", 'n');
    Lacks(u, "bullet", 'b');
    Lacks(u, "number", 'n');
    Lacks(u, "numbered list", 'n');
    Lacks(u, "own line", 'n');
  }

  lemma {:induction false} NoOrdinalNoScope(toks: seq<string>, i: nat)
    requires forall t :: t in toks ==> Ordinal(t).None?
    ensures ScopesFrom(toks, i) == []
    decreases |toks| - i
  {
    if i < |toks| { NoOrdinalNoScope(toks, i + 1); }
  }

  /// Without a known position, style, list or mark no rule answers.
  lemma {:induction false} UppercasePasses(u: string, toks: seq<string>)
    requires Sparse(u) && "join" !in toks && "split" !in toks
    requires toks != [] && toks[0] == "uppercase" && forall t :: t in toks ==> Ordinal(t).None?
    ensures Flat(u, toks).Pass?
  {
    NothingDeleted(toks);
    SparseHasNoStyle(u);
    SparseIsNoList(u, toks);
    NoOrdinalNoScope(toks, 0);
    assert RecaseRule(u, toks).None?;
  }

  lemma {:induction false} NoLiteralHead(t: string, u: string)
    requires u != [] && u[0] == 'u'
    ensures Literal(t, u) == if WholeCase(u).Some? then Recase(WholeCase(u).value) else Freeform(t)
  {
    NoOperand(t, u, ["delete ", "remove ", "get rid of ", "scratch "]);
    NoOperand(t, u, ["append ", "add ", "also add "]);
  }

  lemma {:induction false} UppercaseIsRead(t: string, u: string)
    requires u != [] && u[0] == 'u' && HasAt(u, "uppercase", 0)
    ensures Literal(t, u) == Recase(Upper)
  {
    NoLiteralHead(t, u);
    assert Contains(u, "uppercase");
  }

  /// Words that no rule looks for, after the command for a change of case.
  predicate UppercaseWords(u: string, toks: seq<string>)
  {
    && Sparse(u) && "join" !in toks && "split" !in toks
    && toks != [] && toks[0] == "uppercase" && forall t :: t in toks ==> Ordinal(t).None?
  }

  lemma {:induction false} UppercaseUnclaimed(fold: Fold, t: string, u: string, toks: seq<string>)
    requires Tokens(u) == toks && UppercaseWords(u, toks)
    ensures Extended(fold, t, u).Pass?
  {
    UppercasePasses(u, toks);
    SecondLetterIsP(fold, t, u, toks);
  }

  lemma {:induction false} UppercaseShouts(fold: Fold, u: string)
    requires Trim(u) == u && FoldAll(fold, u) == u && UppercaseWords(u, Tokens(u)) && HasAt(u, "uppercase", 0)
    ensures Parse(fold, u) == Recase(Upper)
  {
    UppercaseUnclaimed(fold, u, u, Tokens(u));
    assert u[0] == u[0..9][0] == 'u';
    UppercaseIsRead(u, u);
    Decided(fold, u, u, u, Pass);
  }

  lemma {:induction false} SparseConcat(a: string, b: string)
    requires Sparse(a) && Sparse(b)
    ensures Sparse(a + b)
  {
  }

  lemma {:induction false} SparsePieces()
    ensures Sparse(" the ") && Sparse("sixth") && Sparse(" char")
  {
  }

  lemma {:induction false} UppercaseSparse()
    ensures Sparse("uppercase")
  {
  }

  lemma {:induction false} UppercaseIsSparse()
    ensures Sparse(UPPERCASE_SIXTH)
  {
    SparsePieces();
    UppercaseSparse();
    SparseConcat("uppercase", " the ");
    SparseConcat("sixth", " char");
    SparseConcat("uppercase" + " the ", "sixth" + " char");
    assert UPPERCASE_SIXTH == ("uppercase" + " the ") + ("sixth" + " char");
  }

  lemma {:induction false} UppercaseLeads()
    ensures HasAt(UPPERCASE_SIXTH, "uppercase", 0)
  {
    assert UPPERCASE_SIXTH[0..9] == "uppercase";
  }

  lemma {:induction false} UppercaseNames()
    ensures var toks := UPPERCASE_WORDS;
            NamesUnit(toks) && "join" !in toks && "split" !in toks && forall t :: t in toks ==> Ordinal(t).None?
  {
    assert "char" in UPPERCASE_WORDS && UnitOf("char") == Some(Character);
  }

  /// The command that first led to the promise, with a position that is not known: the whole target
  /// becomes upper-case.
  lemma {:induction false} SixthShouts(fold: Fold)
    requires FoldAll(fold, UPPERCASE_SIXTH) == UPPERCASE_SIXTH
    ensures NamesUnit(Said(fold, UPPERCASE_SIXTH)) && Parse(fold, UPPERCASE_SIXTH) == Recase(Upper)
  {
    UppercaseSaid();
    CleanWords(UPPERCASE_WORDS);
    JoinedWords(UPPERCASE_WORDS);
    UppercaseIsSparse();
    UppercaseNames();
    UppercaseLeads();
    UppercaseShouts(fold, UPPERCASE_SIXTH);
  }

  const SPLIT_WORDS: seq<string> := ["split", "the", "first", "line", "into", "sentences"]

  lemma {:induction false} SplitIsPlain()
    ensures PlainWords(SPLIT_WORDS)
  {
    assert IsWord("split") && TrimMarks("split") == "split" && IsWord("the") && TrimMarks("the") == "the";
    assert IsWord("first") && TrimMarks("first") == "first" && IsWord("line") && TrimMarks("line") == "line";
    assert IsWord("into") && TrimMarks("into") == "into" && IsWord("sentences") && TrimMarks("sentences") == "sentences";
  }

  lemma {:induction false} SplitScopes()
    ensures ScopesFrom(SPLIT_WORDS, 0) == [Unit(Nth(0), Line)]
  {
    var toks := SPLIT_WORDS;
    assert ScopesFrom(toks, 6) == [];
    assert ScopesFrom(toks, 5) == [];
    assert ScopesFrom(toks, 4) == [];
    assert ScopesFrom(toks, 3) == [];
    assert PairAt(toks, 2) == Some(Unit(Nth(0), Line));
    assert ScopesFrom(toks, 2) == [Unit(Nth(0), Line)];
    assert ScopesFrom(toks, 1) == [Unit(Nth(0), Line)];
  }

  /// "split" beside "line" is a list for any words without a count, whatever scope they name.
  lemma {:induction false} SplitIsList(u: string, toks: seq<string>)
    requires toks != [] && toks[0] == "split" && "line" in toks && !NamesCount(toks) && StyleNamed(u).None?
    ensures Flat(u, toks).Accept? && Flat(u, toks).intent.ListOp?
  {
    NothingDeleted(toks);
    assert "split" in toks;
  }

  lemma {:induction false} SplitNamesNoCount()
    ensures !NamesCount(SPLIT_WORDS) && "line" in SPLIT_WORDS
  {
  }

  lemma {:induction false} SplitHasNoStyle(u: string)
    requires 'a' !in u && 'k' !in u && 'g' !in u
    ensures StyleNamed(u).None?
  {
    Lacks(u, "screaming snake", 'a');
    Lacks(u, "constant case", 'a');
    Lacks(u, "snake case", 'a');
    Lacks(u, "camel case", 'a');
    Lacks(u, "pascal case", 'a');
    Lacks(u, "upper camel case", 'a');
    Lacks(u, "kebab case", 'a');
    Lacks(u, "dash case", 'a');
    Lacks(u, "slug", 'g');
  }

  lemma {:induction false} NotInJoin(ws: seq<string>, c: char)
    requires c != ' ' && forall w :: w in ws ==> c !in w
    ensures c !in Join(ws)
    decreases |ws|
  {
    if |ws| > 0 { assert ws[0] in ws; }
    if |ws| > 1 {
      assert forall w :: w in ws[1..] ==> w in ws;
      NotInJoin(ws[1..], c);
    }
  }

  lemma {:induction false} SplitLetters()
    ensures forall w :: w in SPLIT_WORDS ==> 'a' !in w && 'k' !in w && 'g' !in w
  {
  }

  lemma {:induction false} SplitUnstyled()
    ensures StyleNamed(Join(SPLIT_WORDS)).None?
  {
    SplitLetters();
    NotInJoin(SPLIT_WORDS, 'a');
    NotInJoin(SPLIT_WORDS, 'k');
    NotInJoin(SPLIT_WORDS, 'g');
    SplitHasNoStyle(Join(SPLIT_WORDS));
  }

  lemma {:induction false} SplitSaid(fold: Fold, u: string)
    requires u == Join(SPLIT_WORDS) && FoldAll(fold, u) == u
    ensures Trim(u) == u && Tokens(u) == Said(fold, u) == SPLIT_WORDS
  {
    SplitIsPlain();
    CleanWords(SPLIT_WORDS);
    JoinedWords(SPLIT_WORDS);
  }

  /// "split the first line into sentences": a known position before a unit, and the whole target is
  /// split.
  lemma {:induction false} ListIgnoresScope(fold: Fold, u: string)
    requires u == Join(SPLIT_WORDS) && FoldAll(fold, u) == u
    ensures ScopesFrom(Said(fold, u), 0) == [Unit(Nth(0), Line)] && Parse(fold, u).ListOp?
  {
    SplitSaid(fold, u);
    SplitScopes();
    SplitReads(u);
    SplitDecides(fold, u, SPLIT_WORDS);
  }

  lemma {:induction false} SplitDecides(fold: Fold, u: string, toks: seq<string>)
    requires u == Trim(u) && u == FoldAll(fold, u) && toks == Tokens(u) && toks != [] && toks[0] == "split"
    ensures Flat(u, toks).Accept? ==> Parse(fold, u) == Flat(u, toks).intent
  {
    SecondLetterIsP(fold, u, u, toks);
    Decided(fold, u, u, u, Flat(u, toks));
  }

  lemma {:induction false} SplitReads(u: string)
    requires u == Join(SPLIT_WORDS)
    ensures Flat(u, SPLIT_WORDS).Accept? && Flat(u, SPLIT_WORDS).intent.ListOp?
  {
    SplitNamesNoCount();
    SplitUnstyled();
    SplitIsList(u, SPLIT_WORDS);
  }

  // ---- A style that is never selected --------------------------------------------------------------

  const CAMEL_WORDS: seq<string> := ["make", "it", "upper", "camel", "case"]

  lemma {:induction false} FlatStyle(lower: string, toks: seq<string>)
    requires toks != [] && Flat(lower, toks).Accept? && Flat(lower, toks).intent.Identifier?
    ensures StyleNamed(lower) == Some(Flat(lower, toks).intent.ident)
  {
    if DeleteUnitRule(toks).Some? {
    } else if PunctuationRule(lower, toks).Some? {
    } else if DeleteMarkRule(toks).Some? {
    } else if WrapRule(lower, toks).Some? {
    }
  }

  lemma {:induction false} ExtendedStyle(fold: Fold, t: string, lower: string, toks: seq<string>)
    requires toks == Tokens(lower)
    ensures var d := Extended(fold, t, lower);
            d.Accept? && d.intent.Identifier? ==> StyleNamed(lower) == Some(d.intent.ident)
  {
    if toks != [] {
      if Early(fold, t, toks) {
        EarlyNarrow(fold, t, lower, toks);
      } else {
        LaterFlat(fold, t, lower, toks);
        if Flat(lower, toks).Accept? && Flat(lower, toks).intent.Identifier? { FlatStyle(lower, toks); }
      }
    }
  }

  lemma {:induction false} LiteralNamesNothing(t: string, lower: string)
    ensures !Literal(t, lower).Identifier?
  {
  }

  /// No utterance that says "upper camel case" becomes an identifier in Pascal case.
  lemma {:induction false} NeverPascal(fold: Fold, u: string)
    requires Contains(FoldAll(fold, Trim(u)), "upper camel case")
    ensures Parse(fold, u) != Identifier(Pascal)
  {
    var (t, lower) := (Trim(u), FoldAll(fold, Trim(u)));
    UpperCamelIsCamel(lower);
    ExtendedStyle(fold, t, lower, Tokens(lower));
    LiteralNamesNothing(t, lower);
    Decided(fold, u, t, lower, Extended(fold, t, lower));
  }

  lemma {:induction false} CamelIsPlain()
    ensures PlainWords(CAMEL_WORDS)
  {
    assert IsWord("make") && TrimMarks("make") == "make" && IsWord("it") && TrimMarks("it") == "it";
    assert IsWord("upper") && TrimMarks("upper") == "upper" && IsWord("camel") && TrimMarks("camel") == "camel";
    assert IsWord("case") && TrimMarks("case") == "case";
  }

  lemma {:induction false} CamelJoined()
    ensures Join(CAMEL_WORDS) == "make it upper camel case"
  {
    Unjoin(["make", "it", "upper", "camel", "case"]);
    Unjoin(["it", "upper", "camel", "case"]);
    Unjoin(["upper", "camel", "case"]);
    Unjoin(["camel", "case"]);
    assert Join(["case"]) == "case";
  }

  lemma {:induction false} CamelLetters()
    ensures 'n' !in Join(CAMEL_WORDS)
  {
    NotInJoin(CAMEL_WORDS, 'n');
  }

  lemma {:induction false} CamelStyle(u: string)
    requires u == "make it upper camel case" && 'n' !in u
    ensures StyleNamed(u) == Some(Camel)
  {
    assert HasAt(u, "upper camel case", 8);
    UpperCamelIsCamel(u);
    Lacks(u, "screaming snake", 'n');
    Lacks(u, "constant case", 'n');
    Lacks(u, "snake case", 'n');
  }

  lemma {:induction false} StyledFlat(u: string, toks: seq<string>, style: IdentCase)
    requires toks != [] && toks[0] in ["make", "split"] && !Mentions(toks) && StyleNamed(u) == Some(style)
    ensures Flat(u, toks) == Accept(Identifier(style))
  {
    NothingDeleted(toks);
  }

  lemma {:induction false} CamelNamesNothing()
    ensures !NamesUnit(CAMEL_WORDS)
  {
  }

  lemma {:induction false} CamelSaid(u: string)
    requires u == "make it upper camel case"
    ensures Trim(u) == u && Tokens(u) == CAMEL_WORDS && 'n' !in u
  {
    CamelJoined();
    CamelIsPlain();
    CleanWords(CAMEL_WORDS);
    JoinedWords(CAMEL_WORDS);
    CamelLetters();
  }

  lemma {:induction false} CamelDecides(fold: Fold, u: string, toks: seq<string>)
    requires u == Trim(u) && u == FoldAll(fold, u) && toks == Tokens(u) && toks != [] && toks[0] == "make"
    ensures Flat(u, toks).Accept? ==> Parse(fold, u) == Flat(u, toks).intent
  {
    StartsPlainly(fold, u, u);
    Decided(fold, u, u, u, Flat(u, toks));
  }

  /// "make it upper camel case": the documented name of Pascal case gives camel case.
  lemma {:induction false} MadeCamel(fold: Fold, u: string)
    requires u == "make it upper camel case" && FoldAll(fold, u) == u
    ensures Parse(fold, u) == Identifier(Camel)
  {
    CamelSaid(u);
    CamelStyle(u);
    CamelNamesNothing();
    StyledFlat(u, CAMEL_WORDS, Camel);
    CamelDecides(fold, u, CAMEL_WORDS);
  }

  // ---- A prefix whose words and tokens do not line up ----------------------------------------------

  /// A scope after a leading "in", and something after that.
  predicate PrefixShape(toks: seq<string>)
  {
    && toks != [] && toks[0] in ["in", "within", "inside"]
    && LeadingScope(toks, 1).Some? && 1 + LeadingScope(toks, 1).value.1 < |toks|
  }

  /// The prefix is passed on exactly when the utterance has another number of words than of tokens.
  lemma {:induction false} PrefixPassedOnIff(fold: Fold, t: string, toks: seq<string>)
    requires PrefixShape(toks)
    ensures ScopedPrefix(fold, t, toks).None? <==> |Words(t)| != |toks|
  {
  }

  /// What the later rules make of it.
  function Misread(t: string, lower: string, toks: seq<string>): Intent
  {
    var scope := Only(ScopesFrom(toks, 0));
    if StyleNamed(lower).Some? then if Mentions(toks) then Freeform(t) else Identifier(StyleNamed(lower).value)
    else if ListRule(lower, toks).Some? then ListRule(lower, toks).value.intent
    else if scope.Some? then
      if CaseNamed(lower, scope.value).Some? then Scoped(scope.value, Recase(CaseNamed(lower, scope.value).value))
      else Freeform(t)
    else if Mentions(toks) || WholeCase(lower).None? then Freeform(t)
    else Recase(WholeCase(lower).value)
  }

  predicate Inward(toks: seq<string>) { toks != [] && toks[0] in ["in", "within", "inside"] }

  /// An utterance that begins with a word and a space has that word as its first token.
  lemma {:induction false} FirstToken(lower: string, word: string, rest: string)
    requires word + (" " + rest) <= lower && IsWord(word) && !IsMarkChar(word[0]) && !IsMarkChar(word[|word| - 1])
    ensures Tokens(lower) != [] && Tokens(lower)[0] == word
  {
    var after := lower[|word|..];
    assert lower[..|word|] == (word + (" " + rest))[..|word|] && lower[|word|] == (word + (" " + rest))[|word|];
    assert lower == word + after && after[0] == ' ';
    FirstWord(word, after);
  }

  /// The heads of the literal verbs: a word, and what follows it.
  const HEADS: seq<(string, string)> :=
    [("change", ""), ("replace", ""), ("make", ""), ("swap", ""), ("delete", ""), ("remove", ""), ("get", "rid of "),
     ("scratch", ""), ("append", ""), ("add", ""), ("also", "add ")]

  lemma {:induction false} HeadWords(k: nat)
    requires k < |HEADS|
    ensures var w := HEADS[k].0;
            w != [] && w[0] != 'i' && w[0] != 'w' && forall i :: 0 <= i < |w| ==> !IsSpace(w[i]) && !IsMarkChar(w[i])
  {
  }

  function HeadOf(k: nat): string
    requires k < |HEADS|
  {
    HEADS[k].0 + (" " + HEADS[k].1)
  }

  /// The utterance does not begin with the first word of a literal verb.
  predicate Headless(toks: seq<string>) { toks != [] && forall k :: 0 <= k < |HEADS| ==> HEADS[k].0 != toks[0] }

  lemma {:induction false} HeadlessIsNoHead(lower: string, k: nat)
    requires Headless(Tokens(lower)) && k < |HEADS|
    ensures !(HeadOf(k) <= lower)
  {
    HeadWords(k);
    if HeadOf(k) <= lower { FirstToken(lower, HEADS[k].0, HEADS[k].1); }
  }

  lemma {:induction false} HeadTexts()
    ensures HeadOf(0) == "change " && HeadOf(1) == "replace " && HeadOf(2) == "make " && HeadOf(3) == "swap "
    ensures HeadOf(4) == "delete " && HeadOf(5) == "remove " && HeadOf(6) == "get rid of " && HeadOf(7) == "scratch "
    ensures HeadOf(8) == "append " && HeadOf(9) == "add " && HeadOf(10) == "also add "
  {
  }

  lemma {:induction false} HeadlessIsNoVerb(t: string, lower: string)
    requires forall k :: 0 <= k < |HEADS| ==> !(HeadOf(k) <= lower)
    ensures ReplaceVerb(t, lower, "change ", " to ").None? && ReplaceVerb(t, lower, "replace ", " with ").None?
    ensures ReplaceVerb(t, lower, "make ", " into ").None? && ReplaceVerb(t, lower, "swap ", " for ").None?
  {
    HeadTexts();
    assert !(HeadOf(0) <= lower) && !(HeadOf(1) <= lower) && !(HeadOf(2) <= lower) && !(HeadOf(3) <= lower);
  }

  lemma {:induction false} HeadlessIsNoOperand(t: string, lower: string)
    requires forall k :: 0 <= k < |HEADS| ==> !(HeadOf(k) <= lower)
    ensures Operand(t, lower, ["delete ", "remove ", "get rid of ", "scratch "]).None?
    ensures Operand(t, lower, ["append ", "add ", "also add "]).None?
  {
    HeadTexts();
    assert !(HeadOf(4) <= lower) && !(HeadOf(5) <= lower) && !(HeadOf(6) <= lower) && !(HeadOf(7) <= lower);
    assert !(HeadOf(8) <= lower) && !(HeadOf(9) <= lower) && !(HeadOf(10) <= lower);
    NoOperand(t, lower, ["delete ", "remove ", "get rid of ", "scratch "]);
    NoOperand(t, lower, ["append ", "add ", "also add "]);
  }

  lemma {:induction false} HeadlessLiteral(t: string, lower: string)
    requires Headless(Tokens(lower))
    ensures Literal(t, lower) == if WholeCase(lower).Some? then Recase(WholeCase(lower).value) else Freeform(t)
  {
    forall k | 0 <= k < |HEADS| ensures !(HeadOf(k) <= lower) { HeadlessIsNoHead(lower, k); }
    HeadlessIsNoVerb(t, lower);
    HeadlessIsNoOperand(t, lower);
  }

  lemma {:induction false} InwardIsHeadless(toks: seq<string>)
    requires Inward(toks)
    ensures Headless(toks)
  {
    forall k | 0 <= k < |HEADS| ensures HEADS[k].0 != toks[0] { HeadWords(k); }
  }

  lemma {:induction false} InwardFlat(lower: string, toks: seq<string>)
    requires Inward(toks)
    ensures Flat(lower, toks)
            == if IdentifierRule(lower, toks).Some? then IdentifierRule(lower, toks).value
               else if ListRule(lower, toks).Some? then ListRule(lower, toks).value
               else if RecaseRule(lower, toks).Some? then RecaseRule(lower, toks).value
               else Pass
  {
    NothingDeleted(toks);
    assert PunctuationRule(lower, toks).None? && WrapRule(lower, toks).None?;
    assert UnresolvedMarkRule(lower, toks).None? && OrdinalRule(toks).None?;
  }

  lemma {:induction false} InwardNoUndo(toks: seq<string>)
    requires Inward(toks)
    ensures UndoRule(toks).None?
  {
    NotUndo(toks);
  }

  lemma {:induction false} InwardParses(fold: Fold, u: string, t: string, lower: string, toks: seq<string>)
    requires t == Trim(u) && lower == FoldAll(fold, t) && toks == Tokens(lower)
    requires PrefixShape(toks) && |Words(t)| != |toks|
    ensures Extended(fold, t, lower) == Flat(lower, toks)
  {
    PrefixPassedOnIff(fold, t, toks);
    InwardNoUndo(toks);
    LaterFlat(fold, t, lower, toks);
  }

  lemma {:induction false} FlatMisread(t: string, lower: string, toks: seq<string>)
    requires Inward(toks)
    ensures match Flat(lower, toks)
            case Accept(intent) => Misread(t, lower, toks) == intent
            case Refuse => Misread(t, lower, toks) == Freeform(t)
            case Pass => Misread(t, lower, toks)
                         == if WholeCase(lower).Some? then Recase(WholeCase(lower).value) else Freeform(t)
  {
    InwardFlat(lower, toks);
  }

  lemma {:induction false} DecidedMisread(t: string, lower: string, toks: seq<string>)
    requires Inward(toks) && toks == Tokens(lower)
    ensures match Flat(lower, toks)
            case Accept(intent) => Misread(t, lower, toks) == intent
            case Refuse => Misread(t, lower, toks) == Freeform(t)
            case Pass => Misread(t, lower, toks) == Literal(t, lower)
  {
    FlatMisread(t, lower, toks);
    InwardIsHeadless(toks);
    HeadlessLiteral(t, lower);
  }

  /// A prefix that does not line up is left to the rules for identifiers, lists and changes of case,
  /// and these are given the whole utterance.
  lemma {:induction false} MisalignedIsMisread(fold: Fold, u: string, t: string, lower: string, toks: seq<string>)
    requires t == Trim(u) && lower == FoldAll(fold, t) && toks == Said(fold, u)
    requires PrefixShape(toks) && |Words(t)| != |toks|
    ensures Parse(fold, u) == Misread(t, lower, toks)
  {
    InwardParses(fold, u, t, lower, toks);
    DecidedMisread(t, lower, toks);
    Decided(fold, u, t, lower, Flat(lower, toks));
  }

  /// None of the rules knows a word in it, or one does and a position beside a unit stops it.
  predicate Unknown(lower: string, toks: seq<string>)
  {
    var scope := Only(ScopesFrom(toks, 0));
    if StyleNamed(lower).Some? then Mentions(toks)
    else
      && ListRule(lower, toks).None?
      && if scope.Some? then CaseNamed(lower, scope.value).None? else Mentions(toks) || WholeCase(lower).None?
  }

  lemma {:induction false} MisreadFreeformIff(t: string, lower: string, toks: seq<string>)
    requires toks != []
    ensures Misread(t, lower, toks).Freeform? <==> Unknown(lower, toks)
  {
  }

  /// It is refused, as documented, exactly in those cases.
  lemma {:induction false} MisalignedRefusedIff(fold: Fold, u: string, t: string, lower: string, toks: seq<string>)
    requires t == Trim(u) && lower == FoldAll(fold, t) && toks == Said(fold, u)
    requires PrefixShape(toks) && |Words(t)| != |toks|
    ensures Parse(fold, u).Freeform? <==> Unknown(lower, toks)
  {
    MisalignedIsMisread(fold, u, t, lower, toks);
    MisreadFreeformIff(t, lower, toks);
  }

  const STRAY_WORDS: seq<string> := ["in", "this", "word", ",", "slug"]
  const STRAY_TOKENS: seq<string> := ["in", "this", "word", "slug"]

  lemma {:induction false} StraySplits()
    ensures Words(Join(STRAY_WORDS)) == STRAY_WORDS && Trim(Join(STRAY_WORDS)) == Join(STRAY_WORDS)
  {
    assert forall w :: w in STRAY_WORDS ==> IsWord(w);
    WordsOfJoin(STRAY_WORDS);
    JoinedWords(STRAY_WORDS);
  }

  lemma {:induction false} StrayClean()
    ensures Clean(STRAY_WORDS) == STRAY_TOKENS
  {
    var ws := STRAY_WORDS;
    assert TrimMarks("in") == "in" && TrimMarks("this") == "this" && TrimMarks("word") == "word";
    assert TrimMarks("slug") == "slug" && TrimMarks(",") == "";
    assert Clean(ws[5..]) == [];
    assert ws[4..][1..] == ws[5..] && ws[3..][1..] == ws[4..] && ws[2..][1..] == ws[3..] && ws[1..][1..] == ws[2..];
    assert Clean(ws[4..]) == ["slug"];
    assert Clean(ws[3..]) == ["slug"];
    assert Clean(ws[2..]) == ["word"] + ["slug"];
    assert Clean(ws[1..]) == ["this"] + (["word"] + ["slug"]);
    assert Clean(ws) == ["in"] + (["this"] + (["word"] + ["slug"]));
  }

  lemma {:induction false} StrayShape()
    ensures PrefixShape(STRAY_TOKENS) && !Mentions(STRAY_TOKENS)
  {
    assert !NamesPosition(STRAY_TOKENS);
  }

  lemma {:induction false} StrayStyle()
    ensures StyleNamed(Join(STRAY_WORDS)) == Some(Kebab)
  {
    var u := Join(STRAY_WORDS);
    var p := JoinEndsWith(["in", "this", "word", ","], "slug");
    assert STRAY_WORDS == ["in", "this", "word", ","] + ["slug"];
    assert HasAt(u, "slug", |p|);
    NotInJoin(STRAY_WORDS, 'a');
    SlugOnly(u);
  }

  lemma {:induction false} SlugOnly(u: string)
    requires 'a' !in u && Contains(u, "slug")
    ensures StyleNamed(u) == Some(Kebab)
  {
    Lacks(u, "screaming snake", 'a');
    Lacks(u, "constant case", 'a');
    Lacks(u, "snake case", 'a');
    Lacks(u, "camel case", 'a');
    Lacks(u, "pascal case", 'a');
    Lacks(u, "upper camel case", 'a');
  }

  /// "in this word , slug": the comma that stands alone is a word and no token, and everything becomes
  /// a slug.
  lemma {:induction false} StrayCommaWidens(fold: Fold, u: string)
    requires u == Join(STRAY_WORDS) && FoldAll(fold, u) == u
    ensures PrefixShape(Said(fold, u)) && |Words(u)| == |Said(fold, u)| + 1
    ensures Parse(fold, u) == Identifier(Kebab)
  {
    StraySplits();
    StrayClean();
    StrayShape();
    StrayStyle();
    MisalignedIsMisread(fold, u, u, u, STRAY_TOKENS);
  }
}
