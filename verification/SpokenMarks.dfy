// Where a spoken mark is placed (crates/edit-intent/src/parse.rs).

module SpokenMarks {
  import opened Common
  import opened Text
  import opened SpokenGrammar
  import opened SpokenScope

  predicate MarkHead(w: string) { w in ["add", "at", "put", "insert", "stick", "append"] }

  /// The guards on the way to the end of the target.
  predicate EndsUp(lower: string, toks: seq<string>, mark: char)
  {
    && toks != [] && MarkHead(toks[0]) && OnlyMark(lower) == Some(mark)
    && !NamesPlacement(toks) && "after" !in toks && !Mentions(toks)
  }

  lemma {:induction false} JoinBegins(toks: seq<string>, i: nat)
    requires toks != [] && i < |toks[0]|
    ensures i < |Join(toks)| && Join(toks)[i] == toks[0][i]
  {
    if |toks| > 1 { Unjoin(toks); }
  }

  lemma {:induction false} MarkIsNoUndo(toks: seq<string>)
    requires toks != [] && MarkHead(toks[0])
    ensures UndoRule(toks).None?
  {
    JoinBegins(toks, 0);
    if toks[0] == "stick" { JoinBegins(toks, 2); }
  }

  lemma {:induction false} MarkFlat(fold: Fold, t: string, lower: string, toks: seq<string>)
    requires toks == Tokens(lower) && toks != [] && MarkHead(toks[0])
    ensures Extended(fold, t, lower) == Flat(lower, toks)
  {
    MarkIsNoUndo(toks);
    NotInward(fold, t, toks);
    LaterFlat(fold, t, lower, toks);
  }

  lemma {:induction false} NotInward(fold: Fold, t: string, toks: seq<string>)
    requires toks != [] && !Inward(toks)
    ensures ScopedPrefix(fold, t, toks).None?
  {
  }

  lemma {:induction false} EndRuleIff(lower: string, toks: seq<string>, mark: char)
    requires toks != []
    ensures PunctuationRule(lower, toks) == Some(Accept(Punctuate(mark, AtEnd))) <==> EndsUp(lower, toks, mark)
  {
    PositionIff(toks, "after");
  }

  lemma {:induction false} FlatEndIff(lower: string, toks: seq<string>, mark: char)
    requires toks != []
    ensures Flat(lower, toks) == Accept(Punctuate(mark, AtEnd))
            <==> PunctuationRule(lower, toks) == Some(Accept(Punctuate(mark, AtEnd)))
  {
    if MarkHead(toks[0]) { NothingDeleted(toks); }
  }

  lemma {:induction false} LiteralPlacesNothing(t: string, lower: string)
    ensures !Literal(t, lower).Punctuate? && !Literal(t, lower).ListOp?
  {
  }

  lemma {:induction false} ExtendedEndIff(fold: Fold, t: string, lower: string, toks: seq<string>, mark: char)
    requires toks == Tokens(lower)
    ensures Extended(fold, t, lower) == Accept(Punctuate(mark, AtEnd)) <==> EndsUp(lower, toks, mark)
  {
    if toks != [] {
      FlatEndIff(lower, toks, mark);
      EndRuleIff(lower, toks, mark);
      if MarkHead(toks[0]) {
        MarkFlat(fold, t, lower, toks);
      }
    }
  }

  /// A mark is placed at the end exactly when the utterance begins with one of the verbs, names that
  /// mark and no other, and has none of the five placements, no "after", and no position beside a unit.
  lemma {:induction false} MarkAtEndIff(fold: Fold, u: string, mark: char)
    ensures Parse(fold, u) == Punctuate(mark, AtEnd) <==> EndsUp(FoldAll(fold, Trim(u)), Said(fold, u), mark)
  {
    var t := Trim(u);
    var lower := FoldAll(fold, t);
    ExtendedEndIff(fold, t, lower, Tokens(lower), mark);
    LiteralPlacesNothing(t, lower);
    Decided(fold, u, t, lower, Extended(fold, t, lower));
  }

  function PlaceWords(place: string): seq<string> { ["add", "a", "comma", "at", "the", place] }

  /// A word that the grammar takes for no placement and that no name of a mark can share.
  predicate PlainPlace(place: string)
  {
    && IsWord(place) && TrimMarks(place) == place && 'l' !in place && 'p' !in place && 'q' !in place
    && place !in ["before", "between", "around", "each", "every", "after"]
  }

  /// Without the letters l, p and q, a comma is the only mark that is found.
  lemma {:induction false} OnlyCommas(s: string, k: nat)
    requires k <= |MARKS| && 'l' !in s && 'p' !in s && 'q' !in s
    ensures forall e :: e in MARKS ==> |e.0| > 1
    ensures forall c :: c in MarksFrom(MARKS, s, k) ==> c == ','
    decreases |MARKS| - k, |s|
  {
    MarkNames();
    if k < |MARKS| {
      var name := MARKS[k].0;
      var at := Find(s, name, 0);
      if at.None? {
        OnlyCommas(s, k + 1);
      } else {
        FoundIffThere(s, name);
        assert Contains(s, name);
        CommaNames(s, k);
        OnlyCommas(Blanked(s, at.value, |name|), k);
      }
    }
  }

  lemma {:induction false} CommaNames(s: string, k: nat)
    requires k < |MARKS| && 'l' !in s && 'p' !in s && 'q' !in s && Contains(s, MARKS[k].0)
    ensures MARKS[k].1 == ','
  {
    Lacks(s, "exclamation mark", 'l');
    Lacks(s, "exclamation point", 'l');
    Lacks(s, "question mark", 'q');
    Lacks(s, "full stop", 'l');
    Lacks(s, "semicolon", 'l');
    Lacks(s, "semi colon", 'l');
    Lacks(s, "period", 'p');
    Lacks(s, "colon", 'l');
  }

  lemma {:induction false} CommaNamed(s: string)
    requires 'l' !in s && 'p' !in s && 'q' !in s && Contains(s, "comma")
    ensures OnlyMark(s) == Some(',')
  {
    MarkNames();
    OnlyCommas(s, 0);
    assert MARKS[7].0 == "comma";
    NamedIsFound(MARKS, s, 0, 7);
    assert MarksFrom(MARKS, s, 0)[0] in MarksFrom(MARKS, s, 0);
  }

  lemma {:induction false} PlaceIsPlain(place: string)
    requires PlainPlace(place)
    ensures PlainWords(PlaceWords(place))
  {
    assert IsWord("add") && TrimMarks("add") == "add" && IsWord("a") && TrimMarks("a") == "a";
    assert IsWord("comma") && TrimMarks("comma") == "comma" && IsWord("at") && TrimMarks("at") == "at";
    assert IsWord("the") && TrimMarks("the") == "the";
  }

  lemma {:induction false} PlaceLetters(place: string)
    requires PlainPlace(place)
    ensures var u := Join(PlaceWords(place)); 'l' !in u && 'p' !in u && 'q' !in u
  {
    NotInJoin(PlaceWords(place), 'l');
    NotInJoin(PlaceWords(place), 'p');
    NotInJoin(PlaceWords(place), 'q');
  }

  lemma {:induction false} CommaIsThere(place: string)
    ensures Contains(Join(PlaceWords(place)), "comma")
  {
    var rest := Join(["at", "the", place]);
    Unjoin(PlaceWords(place));
    Unjoin(["a", "comma", "at", "the", place]);
    Unjoin(["comma", "at", "the", place]);
    var u := Join(PlaceWords(place));
    assert u == "add" + (" " + ("a" + (" " + ("comma" + (" " + rest)))));
    assert HasAt(u, "comma", 6);
  }

  lemma {:induction false} PlaceIsUnread(place: string)
    requires PlainPlace(place)
    ensures !NamesPlacement(PlaceWords(place)) && "after" !in PlaceWords(place)
  {
  }

  /// A word is a unit or a position, and not both.
  lemma {:induction false} PlaceIsOne(place: string)
    ensures !Mentions(PlaceWords(place))
  {
    OrdinalIsNoUnit(place);
    assert forall w :: w in PlaceWords(place) && w != place ==> Ordinal(w).None? && UnitOf(w).None?;
  }

  /// Every other place is the end: "add a comma at the start" puts it there, and so does any word that
  /// is not one of the five.
  lemma {:induction false} AnyPlaceIsTheEnd(fold: Fold, place: string)
    requires PlainPlace(place) && FoldAll(fold, Join(PlaceWords(place))) == Join(PlaceWords(place))
    ensures Parse(fold, Join(PlaceWords(place))) == Punctuate(',', AtEnd)
  {
    var u := Join(PlaceWords(place));
    PlaceIsPlain(place);
    CleanWords(PlaceWords(place));
    JoinedWords(PlaceWords(place));
    PlaceLetters(place);
    CommaIsThere(place);
    CommaNamed(u);
    PlaceIsUnread(place);
    PlaceIsOne(place);
    MarkAtEndIff(fold, u, ',');
  }

  lemma {:induction false} StartIsPlain()
    ensures PlainPlace("start")
  {
  }

  lemma {:induction false} StartJoined()
    ensures Join(PlaceWords("start")) == "add a comma at the start"
  {
    Unjoin(PlaceWords("start"));
    Unjoin(["a", "comma", "at", "the", "start"]);
    Unjoin(["comma", "at", "the", "start"]);
    Unjoin(["at", "the", "start"]);
    Unjoin(["the", "start"]);
    assert Join(["start"]) == "start";
  }

  lemma {:induction false} StartIsTheEnd(fold: Fold)
    requires FoldAll(fold, "add a comma at the start") == "add a comma at the start"
    ensures Parse(fold, "add a comma at the start") == Punctuate(',', AtEnd)
  {
    StartIsPlain();
    StartJoined();
    AnyPlaceIsTheEnd(fold, "start");
  }
}
