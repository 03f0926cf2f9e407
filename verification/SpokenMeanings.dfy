// What the words of a command come to in the intent (crates/edit-intent/src/parse.rs and lib.rs): which
// unit is deleted, which mark is placed or deleted and where, what is wrapped in what, what is undone,
// and which case and style are chosen.

module SpokenMeanings {
  import opened Common
  import opened Text
  import opened SpokenGrammar
  import opened SpokenScope
  import opened SpokenMarks

  // ---- Tokens ---------------------------------------------------------------------------------------

  const MARK_CHARS := ",.!?;:"

  predicate AllMarks(s: string) { forall i :: 0 <= i < |s| ==> s[i] in MARK_CHARS }

  /// The word is the core between marks, and the core neither begins nor ends with one.
  ghost predicate BareIn(w: string, a: string, core: string, b: string)
  {
    && AllMarks(a) && AllMarks(b) && w == a + core + b
    && (core != "" ==> core[0] !in MARK_CHARS && core[|core| - 1] !in MARK_CHARS)
  }

  ghost predicate Bares(w: string, core: string) { exists a, b :: BareIn(w, a, core, b) }

  lemma {:induction false} MarkChars(c: char)
    ensures IsMarkChar(c) <==> c in MARK_CHARS
  {
    assert MARK_CHARS == [',', '.', '!', '?', ';', ':'];
  }

  lemma {:induction false} BareFirst(c: char, w: string, a: string, core: string, b: string)
    requires c in MARK_CHARS && BareIn(w, a, core, b)
    ensures BareIn([c] + w, [c] + a, core, b)
  {
    assert [c] + (a + core + b) == [c] + a + core + b;
  }

  lemma {:induction false} BareLast(c: char, w: string, a: string, core: string, b: string)
    requires c in MARK_CHARS && BareIn(w, a, core, b)
    ensures BareIn(w + [c], a, core, b + [c])
  {
    assert a + core + b + [c] == a + core + (b + [c]);
  }

  lemma {:induction false} BareItself(w: string)
    requires w != "" ==> w[0] !in MARK_CHARS && w[|w| - 1] !in MARK_CHARS
    ensures BareIn(w, "", w, "")
  {
    assert "" + w + "" == w;
  }

  lemma {:induction false} TrimMarksIs(w: string) returns (a: string, b: string)
    ensures BareIn(w, a, TrimMarks(w), b)
    decreases |w|
  {
    a, b := "", "";
    if w == "" {
      BareItself(w);
    } else {
      var (first, last) := (w[0], w[|w| - 1]);
      MarkChars(first);
      MarkChars(last);
      if IsMarkChar(first) {
        var rest := w[1..];
        a, b := TrimMarksIs(rest);
        BareFirst(first, rest, a, TrimMarks(rest), b);
        a := [first] + a;
        assert w == [first] + rest;
      } else if IsMarkChar(last) {
        var rest := w[..|w| - 1];
        a, b := TrimMarksIs(rest);
        BareLast(last, rest, a, TrimMarks(rest), b);
        b := b + [last];
        assert w == rest + [last];
      } else {
        BareItself(w);
      }
    }
  }

  /// Token k is word at[k], bared; the places rise, and every other word is nothing but marks.
  ghost predicate Tokenizes(words: seq<string>, toks: seq<string>, at: seq<nat>)
  {
    && |at| == |toks|
    && (forall k :: 0 <= k < |at| ==> TokenOf(words, at[k], toks[k]))
    && (forall k :: 0 < k < |at| ==> at[k - 1] < at[k])
    && (forall i :: 0 <= i < |words| && i !in at ==> Bares(words[i], ""))
  }

  ghost predicate TokenOf(words: seq<string>, i: int, tok: string) { 0 <= i < |words| && tok != "" && Bares(words[i], tok) }

  lemma {:induction false} CleanMore(words: seq<string>, w: string)
    ensures Clean(words + [w]) == Clean(words) + if TrimMarks(w) == [] then [] else [TrimMarks(w)]
  {
    if words == [] {
      assert [w][1..] == [] && [] + [w] == [w];
    } else {
      assert (words + [w])[1..] == words[1..] + [w];
      CleanMore(words[1..], w);
    }
  }

  lemma {:induction false} CleanTokenizes(words: seq<string>) returns (at: seq<nat>)
    ensures Tokenizes(words, Clean(words), at)
    decreases |words|
  {
    if words == [] {
      return [];
    }
    var (init, n) := (words[..|words| - 1], |words| - 1);
    at := CleanTokenizes(init);
    assert words == init + [words[n]];
    CleanMore(init, words[n]);
    var t := TrimMarks(words[n]);
    var a, b := TrimMarksIs(words[n]);
    assert Bares(words[n], t);
    if t != [] {
      TokenizesOn(words, init, Clean(init), at, t);
      at := at + [n];
    } else {
      assert Clean(init) + [] == Clean(init);
      TokenizesStill(words, init, Clean(init), at);
    }
  }

  lemma {:induction false} TokenizesOn(words: seq<string>, init: seq<string>, toks: seq<string>, at: seq<nat>, t: string)
    requires init <= words && |words| == |init| + 1 && Tokenizes(init, toks, at) && TokenOf(words, |init|, t)
    ensures Tokenizes(words, toks + [t], at + [|init|])
  {
    var (more, longer) := (at + [|init|], toks + [t]);
    forall k | 0 <= k < |more| ensures TokenOf(words, more[k], longer[k]) {
      if k < |at| { assert TokenOf(init, at[k], toks[k]); }
    }
    forall k | 0 < k < |more| ensures more[k - 1] < more[k] { assert TokenOf(init, at[k - 1], toks[k - 1]); }
    assert more[|at|] == |init|;
    assert forall i :: i in at ==> i in more;
  }

  lemma {:induction false} TokenizesStill(words: seq<string>, init: seq<string>, toks: seq<string>, at: seq<nat>)
    requires init <= words && |words| == |init| + 1 && Tokenizes(init, toks, at) && Bares(words[|init|], "")
    ensures Tokenizes(words, toks, at)
  {
    forall k | 0 <= k < |at| ensures TokenOf(words, at[k], toks[k]) { assert TokenOf(init, at[k], toks[k]); }
  }

  /// The rules see the lower-cased words without the marks around them.
  lemma {:induction false} TokensAre(fold: Fold, u: string) returns (at: seq<nat>)
    ensures Tokenizes(Words(FoldAll(fold, Trim(u))), Said(fold, u), at)
  {
    at := CleanTokenizes(Words(FoldAll(fold, Trim(u))));
  }

  // ---- Positions and units -------------------------------------------------------------------------

  /// The word says this position: the first is number 0, and "this" and "that" are the last.
  predicate SaysPosition(w: string, which: Which)
  {
    match which
    case Nth(n) => n < 5 && w == ["first", "second", "third", "fourth", "fifth"][n]
    case Last => w in ["last", "final", "this", "that"]
  }

  predicate SaysUnit(w: string, kind: TextUnit)
  {
    match kind
    case Sentence => w in ["sentence", "sentences"]
    case Word => w in ["word", "words"]
    case Line => w in ["line", "lines"]
    case Paragraph => w in ["paragraph", "paragraphs"]
    case Character => w in ["letter", "character", "char"]
  }

  lemma {:induction false} PositionIs(w: string, which: Which)
    ensures Ordinal(w) == Some(which) <==> SaysPosition(w, which)
  {
    if which.Nth? && which.n < 5 {
      if which.n == 0 {
      } else if which.n == 1 {
      } else if which.n == 2 {
      } else if which.n == 3 {
      }
    }
  }

  lemma {:induction false} UnitIs(w: string, kind: TextUnit)
    ensures UnitOf(w) == Some(kind) <==> SaysUnit(w, kind)
  {
  }

  /// A position directly before a unit, with or without "the".
  predicate SaysScope(phrase: seq<string>, which: Which, kind: TextUnit)
  {
    || (|phrase| == 2 && SaysPosition(phrase[0], which) && SaysUnit(phrase[1], kind))
    || (|phrase| == 3 && phrase[0] == "the" && SaysPosition(phrase[1], which) && SaysUnit(phrase[2], kind))
  }

  lemma {:induction false} LeadingIs(toks: seq<string>, from: nat, used: nat, which: Which, kind: TextUnit)
    requires from + used <= |toks|
    ensures LeadingScope(toks, from) == Some((Unit(which, kind), used)) <==> SaysScope(toks[from..from + used], which, kind)
  {
    var phrase := toks[from..from + used];
    forall i | 0 <= i < used ensures phrase[i] == toks[from + i] {}
    if used == 2 {
      PositionIs(phrase[0], which);
      UnitIs(phrase[1], kind);
    } else if used == 3 {
      PositionIs(phrase[1], which);
      UnitIs(phrase[2], kind);
    }
  }

  // ---- Deleting a unit, or everything --------------------------------------------------------------

  lemma {:induction false} StripFinds(toks: seq<string>, heads: seq<seq<string>>, k: nat, rest: seq<string>)
    requires k < |heads| && toks == heads[k] + rest && forall j :: 0 <= j < k ==> !(heads[j] <= toks)
    ensures StripAny(toks, heads) == Some(rest)
    decreases k
  {
    if k > 0 { StripFinds(toks, heads[1..], k - 1, rest); }
  }

  /// No two heads begin with the same word.
  lemma {:induction false} OtherHead(toks: seq<string>, h: seq<string>, other: seq<string>)
    requires h in DELETE_HEADS && other in DELETE_HEADS && h != other && h <= toks
    ensures !(other <= toks)
  {
    assert h[0] == toks[0];
  }

  lemma {:induction false} HeadStrips(toks: seq<string>, heads: seq<seq<string>>, rest: seq<string>)
    requires forall h :: h in heads ==> h in DELETE_HEADS
    requires forall i, j :: 0 <= i < j < |heads| ==> heads[i] != heads[j]
    ensures StripAny(toks, heads) == Some(rest) <==> exists h :: h in heads && toks == h + rest
  {
    Stripped(toks, heads);
    if h :| h in heads && toks == h + rest {
      var k :| 0 <= k < |heads| && heads[k] == h;
      forall j | 0 <= j < k ensures !(heads[j] <= toks) { OtherHead(toks, heads[k], heads[j]); }
      StripFinds(toks, heads, k, rest);
    }
  }

  /// A deleting head, and then the scope.
  ghost predicate SaysDelete(toks: seq<string>, scope: Scope)
  {
    exists h, rest :: h in DELETE_HEADS && toks == h + rest && Names(rest, scope)
  }

  predicate Names(rest: seq<string>, scope: Scope)
  {
    match scope
    case Unit(which, kind) => SaysScope(rest, which, kind)
    case Whole => rest in WHOLE_PHRASES
  }

  lemma {:induction false} PhraseLeadsNowhere(rest: seq<string>)
    requires rest in WHOLE_PHRASES
    ensures rest != [] && LeadingScope(rest, 0).None?
  {
  }

  lemma {:induction false} RestDecides(toks: seq<string>, rest: seq<string>, scope: Scope)
    requires AllWords(rest) && StripAny(toks, [["delete"], ["remove"], ["get", "rid", "of"], ["cut"], ["erase"]]) == Some(rest)
    ensures DeleteUnitRule(toks) == Some(Accept(DeleteScope(scope))) <==> Names(rest, scope)
  {
    match scope {
      case Unit(which, kind) =>
        LeadingIs(rest, 0, |rest|, which, kind);
        assert rest[0..|rest|] == rest;
      case Whole =>
        WholeIffPhrase(rest);
        if rest in WHOLE_PHRASES { PhraseLeadsNowhere(rest); }
    }
  }

  lemma {:induction false} DeleteRuleIff(toks: seq<string>, scope: Scope)
    requires AllWords(toks)
    ensures DeleteUnitRule(toks) == Some(Accept(DeleteScope(scope))) <==> SaysDelete(toks, scope)
  {
    var heads := [["delete"], ["remove"], ["get", "rid", "of"], ["cut"], ["erase"]];
    assert heads == DELETE_HEADS;
    var stripped := StripAny(toks, heads);
    if stripped.Some? {
      HeadStrips(toks, heads, stripped.value);
      RestDecides(toks, stripped.value, scope);
    }
    if SaysDelete(toks, scope) {
      var h, rest :| h in DELETE_HEADS && toks == h + rest && Names(rest, scope);
      HeadStrips(toks, heads, rest);
      RestDecides(toks, rest, scope);
    }
  }

  lemma {:induction false} RemoveIsNoUndo(toks: seq<string>)
    requires toks != [] && (toks[0] == "remove" || toks[0] == "get")
    ensures UndoRule(toks).None?
  {
    JoinBegins(toks, 0);
    JoinBegins(toks, 1);
    JoinBegins(toks, 2);
  }

  lemma {:induction false} HeadIsNoUndo(toks: seq<string>, h: seq<string>)
    requires h in DELETE_HEADS && h <= toks
    ensures UndoRule(toks).None? && !Inward(toks)
  {
    assert toks[0] == h[0];
    if toks[0] == "remove" || toks[0] == "get" { RemoveIsNoUndo(toks); } else { NotUndo(toks); }
  }

  lemma {:induction false} OthersDeleteNoScope(lower: string, toks: seq<string>, scope: Scope)
    requires toks != []
    ensures Flat(lower, toks) == Accept(DeleteScope(scope)) <==> DeleteUnitRule(toks) == Some(Accept(DeleteScope(scope)))
  {
  }

  lemma {:induction false} EarlyIsNoDelete(fold: Fold, t: string, lower: string, toks: seq<string>, scope: Scope)
    requires toks == Tokens(lower) && toks != [] && Early(fold, t, toks)
    ensures Extended(fold, t, lower) != Accept(DeleteScope(scope)) && !SaysDelete(toks, scope)
  {
    if UndoRule(toks).Some? {
      UndoNarrow(fold, t, lower, toks);
    } else {
      PrefixAnswers(fold, t, lower, toks);
    }
    if SaysDelete(toks, scope) {
      var h, rest :| h in DELETE_HEADS && toks == h + rest && Names(rest, scope);
      HeadIsNoUndo(toks, h);
      NotInward(fold, t, toks);
    }
  }

  predicate Extends(i: Intent) { !i.Replace? && !i.Delete? && !i.Append? && !i.Recase? && !i.Freeform? }

  lemma {:induction false} LiteralExtendsNothing(t: string, lower: string)
    ensures !Extends(Literal(t, lower))
  {
  }

  /// What no literal verb gives comes from a rule.
  lemma {:induction false} ParsedByRule(fold: Fold, u: string, t: string, lower: string, i: Intent)
    requires t == Trim(u) && lower == FoldAll(fold, t) && Extends(i)
    ensures Parse(fold, u) == i <==> Extended(fold, t, lower) == Accept(i)
  {
    LiteralExtendsNothing(t, lower);
    Decided(fold, u, t, lower, Extended(fold, t, lower));
  }

  lemma {:induction false} ExtendedDeletesIff(fold: Fold, t: string, lower: string, toks: seq<string>, scope: Scope)
    requires toks == Tokens(lower)
    ensures Extended(fold, t, lower) == Accept(DeleteScope(scope)) <==> SaysDelete(toks, scope)
  {
    TokensAreWords(lower);
    if toks != [] {
      if Early(fold, t, toks) {
        EarlyIsNoDelete(fold, t, lower, toks, scope);
      } else {
        LaterFlat(fold, t, lower, toks);
        OthersDeleteNoScope(lower, toks, scope);
        DeleteRuleIff(toks, scope);
      }
    }
  }

  /// For every utterance: a unit is deleted exactly when a deleting head is followed by its position
  /// and it, with or without "the", and by nothing more; and everything exactly when the head is
  /// followed by one of four phrases.
  lemma {:induction false} DeleteScopeIff(fold: Fold, u: string, scope: Scope)
    ensures Parse(fold, u) == DeleteScope(scope) <==> SaysDelete(Said(fold, u), scope)
  {
    var (t, lower, toks) := (Trim(u), FoldAll(fold, Trim(u)), Said(fold, u));
    ExtendedDeletesIff(fold, t, lower, toks, scope);
    ParsedByRule(fold, u, t, lower, DeleteScope(scope));
  }

  // ---- Undoing -------------------------------------------------------------------------------------

  const UNDO_ONE: seq<seq<string>> :=
    [["undo"], ["undo", "that"], ["undo", "the", "last", "edit"], ["never", "mind"], ["nevermind"], ["scratch", "that"],
     ["scratch", "this"]]

  const UNDO_ALL: seq<seq<string>> :=
    [["undo", "everything"], ["go", "back", "to", "the", "original"], ["revert", "everything"], ["start", "over"]]

  lemma {:induction false} Two(a: string, b: string)
    ensures Join([a, b]) == a + " " + b && Join([a]) == a
  {
    Unjoin([a, b]);
  }

  lemma {:induction false} OneJoined()
    ensures Join(UNDO_ONE[0]) == "undo" && Join(UNDO_ONE[1]) == "undo that" && Join(UNDO_ONE[3]) == "never mind"
    ensures Join(UNDO_ONE[4]) == "nevermind" && Join(UNDO_ONE[5]) == "scratch that" && Join(UNDO_ONE[6]) == "scratch this"
    ensures Join(UNDO_ONE[2]) == "undo the last edit"
  {
    Two("undo", "that");
    Two("never", "mind");
    Two("scratch", "that");
    Two("scratch", "this");
    Unjoin(["undo", "the", "last", "edit"]);
    Unjoin(["the", "last", "edit"]);
    Two("last", "edit");
  }

  lemma {:induction false} AllJoined()
    ensures Join(UNDO_ALL[0]) == "undo everything" && Join(UNDO_ALL[2]) == "revert everything"
    ensures Join(UNDO_ALL[3]) == "start over" && Join(UNDO_ALL[1]) == "go back to the original"
  {
    Two("undo", "everything");
    Two("revert", "everything");
    Two("start", "over");
    Unjoin(["go", "back", "to", "the", "original"]);
    Unjoin(["back", "to", "the", "original"]);
    Unjoin(["to", "the", "original"]);
    Two("the", "original");
  }

  lemma {:induction false} UndoWords()
    ensures forall p :: p in UNDO_ONE ==> AllWords(p)
    ensures forall p :: p in UNDO_ALL ==> AllWords(p)
  {
  }

  lemma {:induction false} OneIff(toks: seq<string>)
    requires AllWords(toks)
    ensures Join(toks) in ["undo", "undo that", "undo the last edit", "never mind", "nevermind", "scratch that", "scratch this"]
            <==> toks in UNDO_ONE
  {
    OneJoined();
    UndoWords();
    forall k | 0 <= k < |UNDO_ONE| ensures Join(toks) == Join(UNDO_ONE[k]) <==> toks == UNDO_ONE[k] { SameJoin(toks, UNDO_ONE[k]); }
  }

  lemma {:induction false} AllIff(toks: seq<string>)
    requires AllWords(toks)
    ensures Join(toks) in ["undo everything", "go back to the original", "revert everything", "start over"] <==> toks in UNDO_ALL
  {
    AllJoined();
    UndoWords();
    forall k | 0 <= k < |UNDO_ALL| ensures Join(toks) == Join(UNDO_ALL[k]) <==> toks == UNDO_ALL[k] { SameJoin(toks, UNDO_ALL[k]); }
  }

  predicate SaysUndo(toks: seq<string>, depth: UndoDepth)
  {
    if depth.One? then toks in UNDO_ONE else toks in UNDO_ALL
  }

  lemma {:induction false} OneIsNotAll(toks: seq<string>)
    requires toks in UNDO_ONE
    ensures toks !in UNDO_ALL
  {
  }

  lemma {:induction false} UndoRuleIff(toks: seq<string>, depth: UndoDepth)
    requires AllWords(toks)
    ensures UndoRule(toks) == Some(depth) <==> SaysUndo(toks, depth)
  {
    OneIff(toks);
    AllIff(toks);
    if toks in UNDO_ONE { OneIsNotAll(toks); }
  }

  lemma {:induction false} FlatUndoesNothing(lower: string, toks: seq<string>)
    requires toks != []
    ensures Flat(lower, toks).Accept? ==> !Flat(lower, toks).intent.Undo?
  {
  }

  /// An edit is undone exactly by seven phrases, and all of them by four.
  lemma {:induction false} UndoIff(fold: Fold, u: string, depth: UndoDepth)
    ensures Parse(fold, u) == Undo(depth) <==> SaysUndo(Said(fold, u), depth)
  {
    var (t, lower, toks) := (Trim(u), FoldAll(fold, Trim(u)), Said(fold, u));
    ExtendedUndoIff(fold, t, lower, toks, depth);
    ParsedByRule(fold, u, t, lower, Undo(depth));
  }

  lemma {:induction false} ExtendedUndoIff(fold: Fold, t: string, lower: string, toks: seq<string>, depth: UndoDepth)
    requires toks == Tokens(lower)
    ensures Extended(fold, t, lower) == Accept(Undo(depth)) <==> SaysUndo(toks, depth)
  {
    TokensAreWords(lower);
    if toks != [] {
      UndoRuleIff(toks, depth);
      if UndoRule(toks).Some? {
        UndoNarrow(fold, t, lower, toks);
      } else if ScopedPrefix(fold, t, toks).Some? {
        PrefixAnswers(fold, t, lower, toks);
      } else {
        LaterFlat(fold, t, lower, toks);
        FlatUndoesNothing(lower, toks);
      }
    }
  }

  // ---- Deleting a mark -----------------------------------------------------------------------------

  /// A mark that is reported is one that the text names.
  lemma {:induction false} MarkIsNamed(table: Table, s: string, k: nat, mark: char)
    requires k <= |table| && Same(MarksFrom(table, s, k)) == Some(mark)
    ensures exists m :: k <= m < |table| && table[m].1 == mark && Contains(s, table[m].0)
    decreases |table| - k
  {
    FoundIffThere(s, table[k].0);
    if Find(s, table[k].0, 0).None? {
      MarkIsNamed(table, s, k + 1, mark);
    } else {
      assert MarksFrom(table, s, k)[0] == table[k].1;
    }
  }

  predicate NamesMarkBy(names: seq<string>, s: string) { exists n :: n in names && Contains(s, n) }

  predicate NamedBy(s: string, mark: char)
  {
    match mark
    case '!' => NamesMarkBy(["exclamation mark", "exclamation point"], s)
    case '?' => NamesMarkBy(["question mark"], s)
    case '.' => NamesMarkBy(["full stop", "period"], s)
    case ';' => NamesMarkBy(["semicolon", "semi colon"], s)
    case ',' => NamesMarkBy(["comma"], s)
    case ':' => NamesMarkBy(["colon"], s)
    case _ => false
  }

  /// The only mark is named by one of its own names.
  lemma {:induction false} OnlyMarkIsNamed(s: string, mark: char)
    requires OnlyMark(s) == Some(mark)
    ensures NamedBy(s, mark)
  {
    MarkNames();
    MarkIsNamed(MARKS, s, 0, mark);
    var m :| 0 <= m < |MARKS| && MARKS[m].1 == mark && Contains(s, MARKS[m].0);
    MarkTable(m);
    assert NamesMarkBy([MARKS[m].0], s);
  }

  lemma {:induction false} MarkTable(m: nat)
    requires m < |MARKS|
    ensures match MARKS[m].1
            case '!' => MARKS[m].0 in ["exclamation mark", "exclamation point"]
            case '?' => MARKS[m].0 in ["question mark"]
            case '.' => MARKS[m].0 in ["full stop", "period"]
            case ';' => MARKS[m].0 in ["semicolon", "semi colon"]
            case ',' => MARKS[m].0 in ["comma"]
            case ':' => MARKS[m].0 in ["colon"]
            case _ => false
  {
  }

  function WithoutThe(rest: seq<string>): seq<string> { if rest != [] && rest[0] == "the" then rest[1..] else rest }

  /// One of three heads, "the" or not, a position that stands before no unit, and one mark.
  ghost predicate SaysDeleteMark(toks: seq<string>, mark: char, which: Which)
  {
    exists h, rest :: h in DELETE_HEADS[..3] && toks == h + rest && NamesOneMark(WithoutThe(rest), mark, which)
  }

  predicate NamesOneMark(named: seq<string>, mark: char, which: Which)
  {
    && named != [] && SaysPosition(named[0], which) && OnlyMark(Join(named[1..])) == Some(mark)
    && (|named| > 1 ==> UnitOf(named[1]).None?)
  }

  lemma {:induction false} MarkHeads()
    ensures DELETE_HEADS[..3] == [["delete"], ["remove"], ["get", "rid", "of"]]
    ensures forall h :: h in DELETE_HEADS[..3] ==> h in DELETE_HEADS
  {
  }

  lemma {:induction false} MarkRuleDecides(toks: seq<string>, rest: seq<string>, mark: char, which: Which)
    requires StripAny(toks, [["delete"], ["remove"], ["get", "rid", "of"]]) == Some(rest)
    ensures DeleteMarkRule(toks) == Some(Accept(DeleteMark(mark, which)))
            <==> var named := WithoutThe(rest);
                 named != [] && SaysPosition(named[0], which) && OnlyMark(Join(named[1..])) == Some(mark)
  {
    var named := WithoutThe(rest);
    assert named == if ["the"] <= rest then rest[1..] else rest;
    if named != [] { PositionIs(named[0], which); }
  }

  /// The rule for units answers first exactly when a unit follows the position.
  lemma {:induction false} UnitFirst(rest: seq<string>, toks: seq<string>, which: Which)
    requires AllWords(rest) && StripAny(toks, [["delete"], ["remove"], ["get", "rid", "of"], ["cut"], ["erase"]]) == Some(rest)
    requires WithoutThe(rest) != [] && SaysPosition(WithoutThe(rest)[0], which)
    ensures DeleteUnitRule(toks).None? <==> (|WithoutThe(rest)| > 1 ==> UnitOf(WithoutThe(rest)[1]).None?)
  {
    var named := WithoutThe(rest);
    PositionIs(named[0], which);
    WholeIffPhrase(rest);
    OrdinalIsNoUnit(named[0]);
    assert rest !in WHOLE_PHRASES;
  }

  lemma {:induction false} BothStrip(toks: seq<string>, h: seq<string>, rest: seq<string>)
    requires h in DELETE_HEADS[..3] && toks == h + rest
    ensures StripAny(toks, [["delete"], ["remove"], ["get", "rid", "of"]]) == Some(rest)
    ensures StripAny(toks, [["delete"], ["remove"], ["get", "rid", "of"], ["cut"], ["erase"]]) == Some(rest)
  {
    MarkHeads();
    HeadStrips(toks, [["delete"], ["remove"], ["get", "rid", "of"]], rest);
    HeadStrips(toks, [["delete"], ["remove"], ["get", "rid", "of"], ["cut"], ["erase"]], rest);
  }

  lemma {:induction false} FlatMarkIff(lower: string, toks: seq<string>, mark: char, which: Which)
    requires toks != []
    ensures Flat(lower, toks) == Accept(DeleteMark(mark, which))
            <==> && DeleteUnitRule(toks).None? && PunctuationRule(lower, toks).None?
                 && DeleteMarkRule(toks) == Some(Accept(DeleteMark(mark, which)))
  {
  }

  predicate MarkRules(lower: string, toks: seq<string>, mark: char, which: Which)
    requires toks != []
  {
    && DeleteUnitRule(toks).None? && PunctuationRule(lower, toks).None?
    && DeleteMarkRule(toks) == Some(Accept(DeleteMark(mark, which)))
  }

  lemma {:induction false} DeletingPlacesNothing(lower: string, toks: seq<string>, h: seq<string>)
    requires h in DELETE_HEADS && h <= toks
    ensures PunctuationRule(lower, toks).None?
  {
    assert toks[0] == h[0];
  }

  lemma {:induction false} MarkAfterHead(lower: string, toks: seq<string>, h: seq<string>, rest: seq<string>, mark: char, which: Which)
    requires h in DELETE_HEADS[..3] && toks == h + rest && toks != [] && AllWords(toks)
    ensures MarkRules(lower, toks, mark, which) <==> NamesOneMark(WithoutThe(rest), mark, which)
  {
    MarkHeads();
    BothStrip(toks, h, rest);
    DeletingPlacesNothing(lower, toks, h);
    MarkRuleDecides(toks, rest, mark, which);
    var named := WithoutThe(rest);
    if named != [] && SaysPosition(named[0], which) { UnitFirst(rest, toks, which); }
  }

  lemma {:induction false} MarkRulesIff(lower: string, toks: seq<string>, mark: char, which: Which)
    requires toks != [] && AllWords(toks)
    ensures MarkRules(lower, toks, mark, which) <==> SaysDeleteMark(toks, mark, which)
  {
    if MarkRules(lower, toks, mark, which) {
      var heads := [["delete"], ["remove"], ["get", "rid", "of"]];
      Stripped(toks, heads);
      MarkHeads();
      var rest := StripAny(toks, heads).value;
      var h :| h in heads && toks == h + rest;
      MarkAfterHead(lower, toks, h, rest, mark, which);
    }
    if SaysDeleteMark(toks, mark, which) {
      var h, rest :| h in DELETE_HEADS[..3] && toks == h + rest && NamesOneMark(WithoutThe(rest), mark, which);
      MarkAfterHead(lower, toks, h, rest, mark, which);
    }
  }

  lemma {:induction false} EarlyIsNoMark(fold: Fold, t: string, lower: string, toks: seq<string>, mark: char, which: Which)
    requires toks == Tokens(lower) && toks != [] && Early(fold, t, toks)
    ensures Extended(fold, t, lower) != Accept(DeleteMark(mark, which)) && !SaysDeleteMark(toks, mark, which)
  {
    if UndoRule(toks).Some? {
      UndoNarrow(fold, t, lower, toks);
    } else {
      PrefixAnswers(fold, t, lower, toks);
    }
    if SaysDeleteMark(toks, mark, which) {
      var h, rest :| h in DELETE_HEADS[..3] && toks == h + rest && NamesOneMark(WithoutThe(rest), mark, which);
      MarkHeads();
      HeadIsNoUndo(toks, h);
      NotInward(fold, t, toks);
    }
  }

  lemma {:induction false} ExtendedMarkIff(fold: Fold, t: string, lower: string, toks: seq<string>, mark: char, which: Which)
    requires toks == Tokens(lower)
    ensures Extended(fold, t, lower) == Accept(DeleteMark(mark, which)) <==> SaysDeleteMark(toks, mark, which)
  {
    TokensAreWords(lower);
    if toks != [] {
      if Early(fold, t, toks) {
        EarlyIsNoMark(fold, t, lower, toks, mark, which);
      } else {
        LaterFlat(fold, t, lower, toks);
        FlatMarkIff(lower, toks, mark, which);
        MarkRulesIff(lower, toks, mark, which);
      }
    }
  }

  /// A mark is deleted exactly when one of three heads is followed by its position, which stands before
  /// no unit, and by words that name this mark and no other.
  lemma {:induction false} DeleteMarkIff(fold: Fold, u: string, mark: char, which: Which)
    ensures Parse(fold, u) == DeleteMark(mark, which) <==> SaysDeleteMark(Said(fold, u), mark, which)
  {
    var (t, lower, toks) := (Trim(u), FoldAll(fold, Trim(u)), Said(fold, u));
    ExtendedMarkIff(fold, t, lower, toks, mark, which);
    ParsedByRule(fold, u, t, lower, DeleteMark(mark, which));
  }

  // ---- A mark after something ----------------------------------------------------------------------

  lemma {:induction false} PositionIsFirst(toks: seq<string>, w: string, i: nat)
    requires i < |toks|
    ensures PositionOf(toks, w) == i <==> toks[i] == w && w !in toks[..i]
  {
    if toks[0] == w {
      assert i > 0 ==> toks[..i][0] == w;
    } else if i > 0 {
      PositionIsFirst(toks[1..], w, i - 1);
      assert toks[..i] == [toks[0]] + toks[1..][..i - 1];
    }
  }

  /// What is left of the words after "after": neither "the" nor "the word" before it.
  predicate Anchored(tail: seq<string>, anchor: seq<string>)
  {
    || tail == ["the", "word"] + anchor
    || (tail == ["the"] + anchor && (anchor != [] ==> anchor[0] != "word"))
    || (tail == anchor && (anchor != [] ==> anchor[0] != "the"))
  }

  lemma {:induction false} AnchorIs(tail: seq<string>, anchor: seq<string>)
    ensures StripArticle(tail) == anchor <==> Anchored(tail, anchor)
  {
    if ["the", "word"] <= tail {
      assert tail == ["the", "word"] + tail[2..];
      assert tail == ["the"] + tail[1..] && tail[1..][0] == "word";
    } else if ["the"] <= tail {
      assert tail == ["the"] + tail[1..];
    }
  }

  /// The text is what stands after the first "after", and is no place.
  predicate StandsAfter(toks: seq<string>, i: int, anchor: seq<string>, text: string)
  {
    && 0 <= i < |toks| && toks[i] == "after" && "after" !in toks[..i]
    && Anchored(toks[i + 1..], anchor) && anchor != [] && !Mentions(anchor) && text == Join(anchor)
  }

  /// One of the six verbs, one mark, no placement that cannot be computed; and after the first "after"
  /// an anchor that is no place itself.
  ghost predicate SaysAfter(lower: string, toks: seq<string>, mark: char, text: string)
  {
    && toks != [] && MarkHead(toks[0]) && OnlyMark(lower) == Some(mark) && !NamesPlacement(toks)
    && exists i, anchor :: StandsAfter(toks, i, anchor, text)
  }

  predicate AnchorFits(anchor: seq<string>, text: string) { anchor != [] && !Mentions(anchor) && text == Join(anchor) }

  lemma {:induction false} AfterIff(toks: seq<string>, i: nat, text: string)
    requires i == PositionOf(toks, "after") && i < |toks|
    ensures AnchorFits(StripArticle(toks[i + 1..]), text) <==> exists j, a :: StandsAfter(toks, j, a, text)
  {
    var anchor := StripArticle(toks[i + 1..]);
    PositionIsFirst(toks, "after", i);
    AnchorIs(toks[i + 1..], anchor);
    if AnchorFits(anchor, text) { assert StandsAfter(toks, i, anchor, text); }
    if j, a :| StandsAfter(toks, j, a, text) {
      PositionIsFirst(toks, "after", j);
      AnchorIs(toks[i + 1..], a);
    }
  }

  lemma {:induction false} RuleAfterIff(lower: string, toks: seq<string>, mark: char, text: string, i: nat)
    requires toks != [] && i == PositionOf(toks, "after")
    ensures PunctuationRule(lower, toks) == Some(Accept(Punctuate(mark, After(text))))
            <==> && MarkHead(toks[0]) && OnlyMark(lower) == Some(mark) && !NamesPlacement(toks)
                 && i < |toks| && AnchorFits(StripArticle(toks[i + 1..]), text)
  {
  }

  lemma {:induction false} AfterRuleIff(lower: string, toks: seq<string>, mark: char, text: string)
    requires toks != []
    ensures PunctuationRule(lower, toks) == Some(Accept(Punctuate(mark, After(text)))) <==> SaysAfter(lower, toks, mark, text)
  {
    var i := PositionOf(toks, "after");
    RuleAfterIff(lower, toks, mark, text, i);
    PositionIff(toks, "after");
    if i < |toks| { AfterIff(toks, i, text); }
  }

  lemma {:induction false} FlatAfterIff(lower: string, toks: seq<string>, mark: char, text: string)
    requires toks != []
    ensures Flat(lower, toks) == Accept(Punctuate(mark, After(text)))
            <==> PunctuationRule(lower, toks) == Some(Accept(Punctuate(mark, After(text))))
  {
    if MarkHead(toks[0]) { NothingDeleted(toks); }
  }

  lemma {:induction false} ExtendedAfterIff(fold: Fold, t: string, lower: string, toks: seq<string>, mark: char, text: string)
    requires toks == Tokens(lower)
    ensures Extended(fold, t, lower) == Accept(Punctuate(mark, After(text))) <==> SaysAfter(lower, toks, mark, text)
  {
    if toks != [] {
      AfterRuleIff(lower, toks, mark, text);
      FlatAfterIff(lower, toks, mark, text);
      if MarkHead(toks[0]) { MarkFlat(fold, t, lower, toks); }
    }
  }

  /// A mark is placed after a text exactly when one of six verbs begins the utterance, it names that
  /// mark and no other and none of five placements, and the words after the first "after", without
  /// article, are that text and no place.
  lemma {:induction false} MarkAfterIff(fold: Fold, u: string, mark: char, text: string)
    ensures Parse(fold, u) == Punctuate(mark, After(text))
            <==> SaysAfter(FoldAll(fold, Trim(u)), Said(fold, u), mark, text)
  {
    var (t, lower, toks) := (Trim(u), FoldAll(fold, Trim(u)), Said(fold, u));
    ExtendedAfterIff(fold, t, lower, toks, mark, text);
    ParsedByRule(fold, u, t, lower, Punctuate(mark, After(text)));
  }

  // ---- What names choose ---------------------------------------------------------------------------

  /// Row k is the first that has a name the text contains.
  ghost predicate FirstRow<T>(table: seq<(seq<string>, T)>, s: string, k: int)
  {
    0 <= k < |table| && ContainsAny(s, table[k].0) && forall j :: 0 <= j < k ==> !ContainsAny(s, table[j].0)
  }

  /// The text chooses what stands in that row.
  ghost predicate Chooses<T>(table: seq<(seq<string>, T)>, s: string, v: T)
  {
    exists k :: FirstRow(table, s, k) && table[k].1 == v
  }

  function Chosen<T>(table: seq<(seq<string>, T)>, s: string, k: nat): Option<T>
    requires k <= |table|
    decreases |table| - k
  {
    if k == |table| then None else if ContainsAny(s, table[k].0) then Some(table[k].1) else Chosen(table, s, k + 1)
  }

  lemma {:induction false} ChosenFrom<T>(table: seq<(seq<string>, T)>, s: string, k: nat, v: T)
    requires k <= |table| && forall j :: 0 <= j < k ==> !ContainsAny(s, table[j].0)
    ensures Chosen(table, s, k) == Some(v) <==> Chooses(table, s, v)
    decreases |table| - k
  {
    if k < |table| {
      if ContainsAny(s, table[k].0) {
        assert FirstRow(table, s, k);
      } else {
        ChosenFrom(table, s, k + 1, v);
      }
    }
  }

  lemma {:induction false} OneName(s: string, name: string)
    ensures ContainsAny(s, [name]) <==> Contains(s, name)
  {
    assert name in [name];
  }

  const WRAPPERS: seq<(seq<string>, (string, string))> :=
    [(["single quote"], ("'", "'")), (["quote"], ("\"", "\"")), (["backtick", "back tick", "code"], ("`", "`")),
     (["square bracket"], ("[", "]")), (["curly", "brace"], ("{", "}")), (["paren", "bracket"], ("(", ")")),
     (["bold", "double asterisk"], ("**", "**")), (["asterisk", "star"], ("*", "*"))]

  lemma {:induction false} WrapperRows(s: string)
    ensures Chosen(WRAPPERS, s, 3) == if ContainsAny(s, ["square bracket"]) then Some(("[", "]")) else Chosen(WRAPPERS, s, 4)
    ensures Chosen(WRAPPERS, s, 4) == if ContainsAny(s, ["curly", "brace"]) then Some(("{", "}")) else Chosen(WRAPPERS, s, 5)
    ensures Chosen(WRAPPERS, s, 5) == if ContainsAny(s, ["paren", "bracket"]) then Some(("(", ")")) else Chosen(WRAPPERS, s, 6)
    ensures Chosen(WRAPPERS, s, 6)
            == if ContainsAny(s, ["bold", "double asterisk"]) then Some(("**", "**")) else Chosen(WRAPPERS, s, 7)
    ensures Chosen(WRAPPERS, s, 7) == if ContainsAny(s, ["asterisk", "star"]) then Some(("*", "*")) else Chosen(WRAPPERS, s, 8)
  {
  }

  lemma {:induction false} WrapperIs(s: string, pair: (string, string))
    ensures Wrapper(s) == Some(pair) <==> Chooses(WRAPPERS, s, pair)
  {
    OneName(s, "single quote");
    OneName(s, "quote");
    OneName(s, "square bracket");
    WrapperRows(s);
    assert Chosen(WRAPPERS, s, 8) == None;
    assert Chosen(WRAPPERS, s, 2)
           == if ContainsAny(s, ["backtick", "back tick", "code"]) then Some(("`", "`")) else Chosen(WRAPPERS, s, 3);
    assert Chosen(WRAPPERS, s, 1) == if ContainsAny(s, ["quote"]) then Some(("\"", "\"")) else Chosen(WRAPPERS, s, 2);
    assert Chosen(WRAPPERS, s, 0) == if ContainsAny(s, ["single quote"]) then Some(("'", "'")) else Chosen(WRAPPERS, s, 1);
    ChosenFrom(WRAPPERS, s, 0, pair);
  }

  /// One of four verbs, a word that says in what, no position beside a unit; and what is named first.
  /// "put" with a mark is a command for marks.
  ghost predicate SaysWrap(lower: string, toks: seq<string>, pair: (string, string))
  {
    && toks != [] && toks[0] in ["wrap", "surround", "put", "enclose"]
    && (exists w :: w in toks && w in ["in", "with", "inside"]) && !Mentions(toks)
    && Chooses(WRAPPERS, lower, pair) && (toks[0] == "put" ==> OnlyMark(lower).None?)
  }

  lemma {:induction false} WrapRuleDecides(lower: string, toks: seq<string>, pair: (string, string))
    requires toks != []
    ensures WrapRule(lower, toks) == Some(Accept(Wrap(pair.0, pair.1))) && PunctuationRule(lower, toks).None?
            <==> SaysWrap(lower, toks, pair)
  {
    WrapperIs(lower, pair);
    if Wrapper(lower).Some? { assert Wrapper(lower).value == (Wrapper(lower).value.0, Wrapper(lower).value.1); }
  }

  lemma {:induction false} FlatWrapIff(lower: string, toks: seq<string>, pair: (string, string))
    requires toks != []
    ensures Flat(lower, toks) == Accept(Wrap(pair.0, pair.1))
            <==> WrapRule(lower, toks) == Some(Accept(Wrap(pair.0, pair.1))) && PunctuationRule(lower, toks).None?
  {
    if toks[0] in ["wrap", "surround", "put", "enclose"] { NothingDeleted(toks); }
  }

  lemma {:induction false} WrapIsNoUndo(toks: seq<string>)
    requires toks != [] && toks[0] in ["wrap", "surround", "put", "enclose"]
    ensures UndoRule(toks).None?
  {
    JoinBegins(toks, 0);
    JoinBegins(toks, 1);
  }

  lemma {:induction false} WrapIsFlat(fold: Fold, t: string, lower: string, toks: seq<string>)
    requires toks == Tokens(lower) && toks != [] && toks[0] in ["wrap", "surround", "put", "enclose"]
    ensures Extended(fold, t, lower) == Flat(lower, toks)
  {
    WrapIsNoUndo(toks);
    NotInward(fold, t, toks);
    LaterFlat(fold, t, lower, toks);
  }

  lemma {:induction false} ExtendedWrapIff(fold: Fold, t: string, lower: string, toks: seq<string>, pair: (string, string))
    requires toks == Tokens(lower)
    ensures Extended(fold, t, lower) == Accept(Wrap(pair.0, pair.1)) <==> SaysWrap(lower, toks, pair)
  {
    if toks != [] {
      WrapRuleDecides(lower, toks, pair);
      FlatWrapIff(lower, toks, pair);
      if toks[0] in ["wrap", "surround", "put", "enclose"] { WrapIsFlat(fold, t, lower, toks); }
    }
  }

  /// Everything is wrapped in a pair exactly when one of four verbs begins the utterance, it says "in",
  /// "with" or "inside", has no position beside a unit, and the pair is the first that it names.
  lemma {:induction false} WrapIff(fold: Fold, u: string, pair: (string, string))
    ensures Parse(fold, u) == Wrap(pair.0, pair.1) <==> SaysWrap(FoldAll(fold, Trim(u)), Said(fold, u), pair)
  {
    var (t, lower, toks) := (Trim(u), FoldAll(fold, Trim(u)), Said(fold, u));
    ExtendedWrapIff(fold, t, lower, toks, pair);
    ParsedByRule(fold, u, t, lower, Wrap(pair.0, pair.1));
  }

  // ---- Styles, lists and cases ---------------------------------------------------------------------

  const STYLES: seq<(seq<string>, IdentCase)> :=
    [(["screaming snake", "constant case"], ScreamingSnake), (["snake case"], Snake), (["camel case"], Camel),
     (["pascal case", "upper camel case"], Pascal), (["kebab case", "dash case", "slug"], Kebab)]

  lemma {:induction false} StyleRows(s: string)
    ensures Chosen(STYLES, s, 2) == if ContainsAny(s, ["camel case"]) then Some(Camel) else Chosen(STYLES, s, 3)
    ensures Chosen(STYLES, s, 3)
            == if ContainsAny(s, ["pascal case", "upper camel case"]) then Some(Pascal) else Chosen(STYLES, s, 4)
    ensures Chosen(STYLES, s, 4)
            == if ContainsAny(s, ["kebab case", "dash case", "slug"]) then Some(Kebab) else Chosen(STYLES, s, 5)
    ensures Chosen(STYLES, s, 5) == None
  {
  }

  lemma {:induction false} StyleIs(s: string, style: IdentCase)
    ensures StyleNamed(s) == Some(style) <==> Chooses(STYLES, s, style)
  {
    OneName(s, "snake case");
    OneName(s, "camel case");
    StyleRows(s);
    assert Chosen(STYLES, s, 1) == if ContainsAny(s, ["snake case"]) then Some(Snake) else Chosen(STYLES, s, 2);
    assert Chosen(STYLES, s, 0)
           == if ContainsAny(s, ["screaming snake", "constant case"]) then Some(ScreamingSnake) else Chosen(STYLES, s, 1);
    ChosenFrom(STYLES, s, 0, style);
  }

  const CASES: seq<(seq<string>, Case)> :=
    [(["title case", "titlecase"], Title), (["sentence case"], SentenceCase),
     (["uppercase", "upper case", "all caps", "shout"], Upper), (["lowercase", "lower case"], Lower)]

  lemma {:induction false} CaseRows(s: string)
    ensures Chosen(CASES, s, 1) == if ContainsAny(s, ["sentence case"]) then Some(SentenceCase) else Chosen(CASES, s, 2)
    ensures Chosen(CASES, s, 2)
            == if ContainsAny(s, ["uppercase", "upper case", "all caps", "shout"]) then Some(Upper) else Chosen(CASES, s, 3)
    ensures Chosen(CASES, s, 3) == if ContainsAny(s, ["lowercase", "lower case"]) then Some(Lower) else Chosen(CASES, s, 4)
    ensures Chosen(CASES, s, 4) == None
  {
  }

  /// The case named first; or, of a word or a character that is to be capitalised, title case.
  ghost predicate SaysCase(s: string, scope: Scope, style: Case)
  {
    || Chooses(CASES, s, style)
    || (style.Title? && (forall other :: !Chooses(CASES, s, other))
        && ContainsAny(s, ["capitalize", "capitalise"]) && scope.Unit? && (scope.kind.Word? || scope.kind.Character?))
  }

  lemma {:induction false} CaseIs(s: string, scope: Scope, style: Case)
    ensures CaseNamed(s, scope) == Some(style) <==> SaysCase(s, scope, style)
  {
    OneName(s, "sentence case");
    CaseRows(s);
    assert Chosen(CASES, s, 0) == if ContainsAny(s, ["title case", "titlecase"]) then Some(Title) else Chosen(CASES, s, 1);
    forall other ensures Chosen(CASES, s, 0) == Some(other) <==> Chooses(CASES, s, other) { ChosenFrom(CASES, s, 0, other); }
    if Chosen(CASES, s, 0).Some? { assert Chooses(CASES, s, Chosen(CASES, s, 0).value); }
  }

  const WHOLE_CASES: seq<(seq<string>, Case)> :=
    [(["uppercase", "all caps", "capitalize everything"], Upper), (["lowercase", "all lowercase"], Lower),
     (["title case", "titlecase"], Title), (["sentence case", "sentencecase"], SentenceCase)]

  lemma {:induction false} WholeRows(s: string)
    ensures Chosen(WHOLE_CASES, s, 1)
            == if ContainsAny(s, ["lowercase", "all lowercase"]) then Some(Lower) else Chosen(WHOLE_CASES, s, 2)
    ensures Chosen(WHOLE_CASES, s, 2)
            == if ContainsAny(s, ["title case", "titlecase"]) then Some(Title) else Chosen(WHOLE_CASES, s, 3)
    ensures Chosen(WHOLE_CASES, s, 3)
            == if ContainsAny(s, ["sentence case", "sentencecase"]) then Some(SentenceCase) else Chosen(WHOLE_CASES, s, 4)
    ensures Chosen(WHOLE_CASES, s, 4) == None
  {
  }

  lemma {:induction false} WholeCaseIs(s: string, style: Case)
    ensures WholeCase(s) == Some(style) <==> Chooses(WHOLE_CASES, s, style)
  {
    WholeRows(s);
    assert Chosen(WHOLE_CASES, s, 0)
           == if ContainsAny(s, ["uppercase", "all caps", "capitalize everything"]) then Some(Upper) else Chosen(WHOLE_CASES, s, 1);
    ChosenFrom(WHOLE_CASES, s, 0, style);
  }

  /// What is listed, when nothing is to be joined and no count is said.
  predicate SaysList(lower: string, toks: seq<string>, kind: ListKind)
  {
    var numbers := (Contains(lower, "number") && HasAny(toks, ["lines", "list", "sentences"])) || Contains(lower, "numbered list");
    match kind
    case JoinLines => Joins(lower, toks)
    case Bullet => !Joins(lower, toks) && !NamesCount(toks) && Contains(lower, "bullet")
    case Number => !Joins(lower, toks) && !NamesCount(toks) && !Contains(lower, "bullet") && numbers
    case SplitSentences =>
      && !Joins(lower, toks) && !NamesCount(toks) && !Contains(lower, "bullet") && !numbers
      && ((HasAny(toks, ["split"]) && HasAny(toks, ["line", "lines", "sentence", "sentences"])) || Contains(lower, "own line"))
  }

  lemma {:induction false} ListIs(lower: string, toks: seq<string>, kind: ListKind)
    ensures ListRule(lower, toks) == Some(Accept(ListOp(kind))) <==> SaysList(lower, toks, kind)
  {
  }

  /// The rule that answers, and the intent it gives.
  ghost predicate SaysStyled(rule: Rule, lower: string, toks: seq<string>, i: Intent)
  {
    match i
    case Identifier(style) => rule.Identifies? && !Mentions(toks) && Chooses(STYLES, lower, style)
    case ListOp(kind) => rule.Lists? && SaysList(lower, toks, kind)
    case _ => false
  }

  lemma {:induction false} FlatStyledIff(lower: string, toks: seq<string>, i: Intent)
    requires toks != [] && (i.Identifier? || i.ListOp?)
    ensures Flat(lower, toks) == Accept(i) <==> SaysStyled(FlatClaimant(lower, toks), lower, toks, i)
  {
    if i.Identifier? {
      StyleIs(lower, i.ident);
      FlatIdentifierIff(lower, toks, i.ident);
    } else {
      ListIs(lower, toks, i.kind);
      FlatListOnlyIff(lower, toks, i.kind);
    }
  }

  lemma {:induction false} FlatIdentifierIff(lower: string, toks: seq<string>, style: IdentCase)
    requires toks != []
    ensures Flat(lower, toks) == Accept(Identifier(style))
            <==> FlatClaimant(lower, toks).Identifies? && !Mentions(toks) && StyleNamed(lower) == Some(style)
  {
  }

  lemma {:induction false} FlatListOnlyIff(lower: string, toks: seq<string>, kind: ListKind)
    requires toks != []
    ensures Flat(lower, toks) == Accept(ListOp(kind))
            <==> FlatClaimant(lower, toks).Lists? && ListRule(lower, toks) == Some(Accept(ListOp(kind)))
  {
  }

  lemma {:induction false} EarlyIsNoStyle(fold: Fold, t: string, lower: string, toks: seq<string>, i: Intent)
    requires toks == Tokens(lower) && toks != [] && Early(fold, t, toks) && (i.Identifier? || i.ListOp?)
    ensures Extended(fold, t, lower) != Accept(i) && !SaysStyled(Claimant(fold, t, lower), lower, toks, i)
  {
    EarlyNarrow(fold, t, lower, toks);
  }

  lemma {:induction false} ExtendedStyledIff(fold: Fold, t: string, lower: string, toks: seq<string>, i: Intent)
    requires toks == Tokens(lower) && (i.Identifier? || i.ListOp?)
    ensures Extended(fold, t, lower) == Accept(i) <==> SaysStyled(Claimant(fold, t, lower), lower, toks, i)
  {
    if toks != [] {
      if Early(fold, t, toks) {
        EarlyIsNoStyle(fold, t, lower, toks, i);
      } else {
        LaterFlat(fold, t, lower, toks);
        FlatStyledIff(lower, toks, i);
      }
    }
  }

  /// A style or an operation on lists is chosen exactly when its rule answers first, and then by the
  /// first of its names that is said.
  lemma {:induction false} StyledIff(fold: Fold, u: string, i: Intent)
    requires i.Identifier? || i.ListOp?
    ensures Parse(fold, u) == i
            <==> SaysStyled(Claimant(fold, Trim(u), FoldAll(fold, Trim(u))), FoldAll(fold, Trim(u)), Said(fold, u), i)
  {
    var (t, lower, toks) := (Trim(u), FoldAll(fold, Trim(u)), Said(fold, u));
    ExtendedStyledIff(fold, t, lower, toks, i);
    ParsedByRule(fold, u, t, lower, i);
  }

  // ---- A scope and its case ------------------------------------------------------------------------

  /// A position directly before a unit, at i.
  predicate PairSays(toks: seq<string>, i: int, which: Which, kind: TextUnit)
  {
    0 <= i && i + 1 < |toks| && SaysPosition(toks[i], which) && SaysUnit(toks[i + 1], kind)
  }

  lemma {:induction false} PairIs(toks: seq<string>, i: nat, which: Which, kind: TextUnit)
    ensures PairAt(toks, i) == Some(Unit(which, kind)) <==> PairSays(toks, i, which, kind)
  {
    if i + 1 < |toks| {
      PositionIs(toks[i], which);
      UnitIs(toks[i + 1], kind);
    }
  }

  /// There is one such place, and this is said there.
  ghost predicate OneScope(toks: seq<string>, which: Which, kind: TextUnit)
  {
    exists i :: PairSays(toks, i, which, kind) && forall j, w, k :: PairSays(toks, j, w, k) ==> j == i
  }

  /// The places from i on.
  ghost predicate OnlyAt(toks: seq<string>, from: nat, i: nat)
  {
    from <= i && PairAt(toks, i).Some? && forall j :: from <= j < |toks| && PairAt(toks, j).Some? ==> j == i
  }

  lemma {:induction false} ScopesEmpty(toks: seq<string>, from: nat)
    ensures ScopesFrom(toks, from) == [] <==> forall j :: from <= j < |toks| ==> PairAt(toks, j).None?
    decreases |toks| - from
  {
    if from < |toks| { ScopesEmpty(toks, from + 1); }
  }

  lemma {:induction false} IsSingle(x: Scope, rest: seq<Scope>, y: Scope)
    ensures [x] + rest == [y] <==> x == y && rest == []
  {
    var all := [x] + rest;
    if all == [y] { assert all[0] == y && |all| == 1; }
  }

  lemma {:induction false} OnlyHere(toks: seq<string>, from: nat)
    requires from < |toks| && PairAt(toks, from).Some?
    ensures forall i :: OnlyAt(toks, from, i) ==> i == from
    ensures OnlyAt(toks, from, from) <==> ScopesFrom(toks, from + 1) == []
  {
    ScopesEmpty(toks, from + 1);
  }

  lemma {:induction false} ScopesOne(toks: seq<string>, from: nat, scope: Scope)
    ensures ScopesFrom(toks, from) == [scope] <==> exists i :: OnlyAt(toks, from, i) && PairAt(toks, i) == Some(scope)
    decreases |toks| - from
  {
    if from < |toks| {
      if PairAt(toks, from).Some? {
        IsSingle(PairAt(toks, from).value, ScopesFrom(toks, from + 1), scope);
        OnlyHere(toks, from);
      } else {
        ScopesOne(toks, from + 1, scope);
        assert forall i :: OnlyAt(toks, from, i) <==> OnlyAt(toks, from + 1, i);
      }
    }
  }

  lemma {:induction false} OneScopeIff(toks: seq<string>, which: Which, kind: TextUnit)
    ensures Only(ScopesFrom(toks, 0)) == Some(Unit(which, kind)) <==> OneScope(toks, which, kind)
  {
    var scope := Unit(which, kind);
    ScopesOne(toks, 0, scope);
    assert Only(ScopesFrom(toks, 0)) == Some(scope) <==> ScopesFrom(toks, 0) == [scope];
    if i :| OnlyAt(toks, 0, i) && PairAt(toks, i) == Some(scope) {
      PairIs(toks, i, which, kind);
      forall j, w, k | PairSays(toks, j, w, k) ensures j == i { PairIs(toks, j, w, k); }
    }
    if OneScope(toks, which, kind) {
      var i :| PairSays(toks, i, which, kind) && forall j, w, k :: PairSays(toks, j, w, k) ==> j == i;
      PairIs(toks, i, which, kind);
      forall j | 0 <= j < |toks| && PairAt(toks, j).Some? ensures j == i {
        var at := PairAt(toks, j).value;
        PairIs(toks, j, at.which, at.kind);
      }
      assert OnlyAt(toks, 0, i);
    }
  }

  lemma {:induction false} FlatCaseIff(lower: string, toks: seq<string>, which: Which, kind: TextUnit, style: Case)
    requires toks != [] && FlatClaimant(lower, toks).Recases?
    ensures Flat(lower, toks) == Accept(Scoped(Unit(which, kind), Recase(style)))
            <==> OneScope(toks, which, kind) && SaysCase(lower, Unit(which, kind), style)
  {
    OneScopeIff(toks, which, kind);
    CaseIs(lower, Unit(which, kind), style);
  }

  /// Where the rule for changes of case answers first, it gives the one unit that is named and the case
  /// that is said of it.
  lemma {:induction false} ScopedCaseIff(fold: Fold, u: string, which: Which, kind: TextUnit, style: Case)
    requires Claimant(fold, Trim(u), FoldAll(fold, Trim(u))).Recases?
    ensures Parse(fold, u) == Scoped(Unit(which, kind), Recase(style))
            <==> OneScope(Said(fold, u), which, kind) && SaysCase(FoldAll(fold, Trim(u)), Unit(which, kind), style)
  {
    var (t, lower, toks) := (Trim(u), FoldAll(fold, Trim(u)), Said(fold, u));
    RecasesIsLate(fold, t, lower, toks);
    LaterFlat(fold, t, lower, toks);
    FlatCaseIff(lower, toks, which, kind, style);
    ParsedByRule(fold, u, t, lower, Scoped(Unit(which, kind), Recase(style)));
  }

  lemma {:induction false} RecasesIsLate(fold: Fold, t: string, lower: string, toks: seq<string>)
    requires toks == Tokens(lower) && Claimant(fold, t, lower).Recases?
    ensures toks != [] && !Early(fold, t, toks)
  {
    if toks != [] && Early(fold, t, toks) { EarlyNarrow(fold, t, lower, toks); }
  }

  // ---- The case of everything ----------------------------------------------------------------------

  /// No literal verb finds its operands.
  ghost predicate NoVerbReads(t: string, lower: string)
  {
    && !VerbReads(t, lower, "change ", " to ") && !VerbReads(t, lower, "replace ", " with ")
    && !VerbReads(t, lower, "make ", " into ") && !VerbReads(t, lower, "swap ", " for ")
    && !HeadReads(lower, ["delete ", "remove ", "get rid of ", "scratch "])
    && !HeadReads(lower, ["append ", "add ", "also add "])
  }

  lemma {:induction false} LiteralCaseIff(t: string, lower: string, style: Case)
    ensures Literal(t, lower) == Recase(style) <==> NoVerbReads(t, lower) && WholeCase(lower) == Some(style)
  {
    VerbReadsIff(t, lower, "change ", " to ");
    VerbReadsIff(t, lower, "replace ", " with ");
    VerbReadsIff(t, lower, "make ", " into ");
    VerbReadsIff(t, lower, "swap ", " for ");
    HeadReadsIff(t, lower, ["delete ", "remove ", "get rid of ", "scratch "]);
    HeadReadsIff(t, lower, ["append ", "add ", "also add "]);
  }

  lemma {:induction false} NoRuleIsPass(fold: Fold, t: string, lower: string, toks: seq<string>)
    requires toks == Tokens(lower)
    ensures Extended(fold, t, lower).Pass? <==> Claimant(fold, t, lower).NoRule?
  {
    if toks != [] {
      if Early(fold, t, toks) {
        EarlyNarrow(fold, t, lower, toks);
      } else {
        LaterFlat(fold, t, lower, toks);
        FlatPassIff(lower, toks);
      }
    }
  }

  lemma {:induction false} RulesRecaseNothing(fold: Fold, t: string, lower: string, style: Case)
    ensures Extended(fold, t, lower) != Accept(Recase(style))
  {
    LiteralOnlyOnPass(fold, t, lower);
  }

  /// The case of everything is changed exactly when no rule answers, no literal verb finds operands, and
  /// the case is the first that is named.
  lemma {:induction false} RecaseIff(fold: Fold, u: string, style: Case)
    ensures var (t, lower) := (Trim(u), FoldAll(fold, Trim(u)));
            Parse(fold, u) == Recase(style)
            <==> Claimant(fold, t, lower).NoRule? && NoVerbReads(t, lower) && Chooses(WHOLE_CASES, lower, style)
  {
    var (t, lower, toks) := (Trim(u), FoldAll(fold, Trim(u)), Said(fold, u));
    NoRuleIsPass(fold, t, lower, toks);
    LiteralCaseIff(t, lower, style);
    WholeCaseIs(lower, style);
    RulesRecaseNothing(fold, t, lower, style);
    Decided(fold, u, t, lower, Extended(fold, t, lower));
  }

  // ---- A scope before a command --------------------------------------------------------------------

  lemma {:induction false} PrefixTakes(fold: Fold, t: string, toks: seq<string>, used: nat, which: Which, kind: TextUnit)
    requires Inward(toks) && 1 + used < |toks| == |Words(t)| && SaysScope(toks[1..1 + used], which, kind)
    ensures var inner := Parse(fold, Join(Words(t)[1 + used..]));
            ScopedPrefix(fold, t, toks) == Some(if Runnable(inner) then Accept(Scoped(Unit(which, kind), inner)) else Refuse)
  {
    LeadingIs(toks, 1, used, which, kind);
    TailIs(t, |toks|, 1 + used);
  }

  /// "in", "within" or "inside", a scope, and a command: the command, as the rest of the words say it,
  /// is given that scope; and what is refused or scoped itself is refused.
  lemma {:induction false} PrefixedIs(fold: Fold, u: string, used: nat, which: Which, kind: TextUnit)
    requires var (t, toks) := (Trim(u), Said(fold, u));
             Inward(toks) && 1 + used < |toks| == |Words(t)| && SaysScope(toks[1..1 + used], which, kind)
    ensures var inner := Parse(fold, Join(Words(Trim(u))[1 + used..]));
            Parse(fold, u) == if Runnable(inner) then Scoped(Unit(which, kind), inner) else Freeform(Trim(u))
  {
    var (t, lower, toks) := (Trim(u), FoldAll(fold, Trim(u)), Said(fold, u));
    PrefixTakes(fold, t, toks, used, which, kind);
    InwardNoUndo(toks);
    PrefixAnswers(fold, t, lower, toks);
    Decided(fold, u, t, lower, ScopedPrefix(fold, t, toks).value);
  }
}
