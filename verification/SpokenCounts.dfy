// When a spoken count is heeded (crates/edit-intent/src/parse.rs).

module SpokenCounts {
  import opened Common
  import opened Text
  import opened SpokenGrammar
  import opened SpokenScope
  import opened SpokenMarks

  predicate CountsLines(i: Intent) { i.ListOp? && !i.kind.JoinLines? }

  lemma {:induction false} FlatListIff(lower: string, toks: seq<string>)
    requires toks != []
    ensures Flat(lower, toks).Accept? && Flat(lower, toks).intent.ListOp? ==> ListRule(lower, toks) == Some(Flat(lower, toks))
  {
    if DeleteUnitRule(toks).Some? {
    } else if PunctuationRule(lower, toks).Some? {
    } else if DeleteMarkRule(toks).Some? {
    } else if WrapRule(lower, toks).Some? {
    } else if IdentifierRule(lower, toks).Some? {
    }
  }

  lemma {:induction false} CountedListsPass(lower: string, toks: seq<string>)
    requires NamesCount(toks) && ListRule(lower, toks).Some?
    ensures ListRule(lower, toks) == Some(Accept(ListOp(JoinLines)))
  {
  }

  lemma {:induction false} ExtendedCounts(fold: Fold, t: string, lower: string, toks: seq<string>)
    requires toks == Tokens(lower) && NamesCount(toks)
    ensures var d := Extended(fold, t, lower); d.Accept? ==> !CountsLines(d.intent)
  {
    if Early(fold, t, toks) {
      EarlyNarrow(fold, t, lower, toks);
    } else {
      LaterFlat(fold, t, lower, toks);
      FlatListIff(lower, toks);
      if ListRule(lower, toks).Some? { CountedListsPass(lower, toks); }
    }
  }

  /// Nothing is split or listed when a number from two to ten, or one of one or two digits, is said.
  lemma {:induction false} CountedIsNotSplit(fold: Fold, u: string)
    requires NamesCount(Said(fold, u))
    ensures !CountsLines(Parse(fold, u))
  {
    var t := Trim(u);
    var lower := FoldAll(fold, t);
    ExtendedCounts(fold, t, lower, Tokens(lower));
    LiteralPlacesNothing(t, lower);
    Decided(fold, u, t, lower, Extended(fold, t, lower));
  }

  /// What the rule for lists reads, count or no count.
  predicate ListTalk(lower: string, toks: seq<string>) { Joins(lower, toks) || ListNamed(lower, toks).Some? }

  predicate BeforeLists(rule: Rule)
  {
    rule in [Undoes, Prefixed, DeletesUnit, Marks, DeletesMark, Wraps, Identifies]
  }

  lemma {:induction false} FlatClaim(lower: string, toks: seq<string>)
    requires toks != [] && NamesCount(toks)
    ensures FlatClaimant(lower, toks).Lists? ==> Joins(lower, toks)
    ensures Joins(lower, toks) ==> FlatClaimant(lower, toks).Lists? || BeforeLists(FlatClaimant(lower, toks))
  {
  }

  lemma {:induction false} CountedClaim(fold: Fold, t: string, lower: string, toks: seq<string>)
    requires toks == Tokens(lower) && toks != [] && NamesCount(toks)
    ensures var rule := Claimant(fold, t, lower);
            && (rule.Lists? ==> Joins(lower, toks))
            && (Joins(lower, toks) ==> rule.Lists? || BeforeLists(rule))
  {
    if Early(fold, t, toks) {
      EarlyNarrow(fold, t, lower, toks);
    } else {
      LaterFlat(fold, t, lower, toks);
      FlatClaim(lower, toks);
    }
  }

  lemma {:induction false} JoinsAnyway(fold: Fold, t: string, lower: string, toks: seq<string>)
    requires toks == Tokens(lower) && toks != [] && NamesCount(toks) && Claimant(fold, t, lower).Lists?
    ensures Extended(fold, t, lower) == Accept(ListOp(JoinLines))
  {
    assert !Early(fold, t, toks);
    LaterFlat(fold, t, lower, toks);
    CountedListsPass(lower, toks);
  }

  /// A count turns a command that the rule for lists reads into a refusal exactly when the first rule
  /// that answers has a guard against it, or none answers and the literal verbs find nothing: neither
  /// verb nor case word. The guard for joining stands before the count, and then lines are joined.
  lemma {:induction false} CountedRefusedIff(fold: Fold, u: string)
    requires NamesCount(Said(fold, u)) && ListTalk(FoldAll(fold, Trim(u)), Said(fold, u))
    ensures var (t, lower, toks) := (Trim(u), FoldAll(fold, Trim(u)), Said(fold, u));
            var rule := Claimant(fold, t, lower);
            && (Parse(fold, u) == Freeform(t) <==> Stops(fold, t, lower, toks))
            && (rule.Lists? ==> Joins(lower, toks) && Parse(fold, u) == ListOp(JoinLines))
            && (Joins(lower, toks) ==> rule.Lists? || BeforeLists(rule))
  {
    var (t, lower, toks) := (Trim(u), FoldAll(fold, Trim(u)), Said(fold, u));
    RefusedIff(fold, u);
    CountedClaim(fold, t, lower, toks);
    if Claimant(fold, t, lower).Lists? {
      JoinsAnyway(fold, t, lower, toks);
      Decided(fold, u, t, lower, Accept(ListOp(JoinLines)));
    }
  }

  // ---- Letters side by side ------------------------------------------------------------------------

  predicate Beside(s: string, c: char, d: char) { exists i :: 0 <= i < |s| - 1 && s[i] == c && s[i + 1] == d }

  lemma {:induction false} LacksPair(s: string, part: string, k: nat)
    requires k + 1 < |part| && !Beside(s, part[k], part[k + 1])
    ensures !Contains(s, part)
  {
    forall i | 0 <= i <= |s| - |part| ensures !HasAt(s, part, i) {
      assert s[i..i + |part|][k] == s[i + k] && s[i..i + |part|][k + 1] == s[i + k + 1];
    }
  }

  lemma {:induction false} BesideInConcat(a: string, b: string, c: char, d: char)
    requires !Beside(a, c, d) && !Beside(b, c, d) && (a == [] || b == [] || a[|a| - 1] != c || b[0] != d)
    ensures !Beside(a + b, c, d)
  {
    var s := a + b;
    forall i | 0 <= i < |s| - 1 ensures s[i] != c || s[i + 1] != d {
      if i + 1 < |a| {
        assert s[i] == a[i] && s[i + 1] == a[i + 1];
      } else if i >= |a| {
        assert s[i] == b[i - |a|] && s[i + 1] == b[i + 1 - |a|];
      }
    }
  }

  lemma {:induction false} NotBesideInJoin(ws: seq<string>, c: char, d: char)
    requires c != ' ' && d != ' ' && forall w :: w in ws ==> !Beside(w, c, d)
    ensures !Beside(Join(ws), c, d)
    decreases |ws|
  {
    if |ws| > 0 { assert ws[0] in ws; }
    if |ws| > 1 {
      var rest := ws[1..];
      assert forall w :: w in rest ==> w in ws;
      NotBesideInJoin(rest, c, d);
      BesideInConcat(" ", Join(rest), c, d);
      BesideInConcat(ws[0], " " + Join(rest), c, d);
      Unjoin(ws);
    }
  }

  // ---- Counts in commands --------------------------------------------------------------------------

  function SplitInto(n: string): seq<string> { ["split", "this", "into", n, "lines"] }

  /// Nothing in the utterance but the verb and the unit that a rule looks for.
  predicate OnlySplits(u: string, n: string)
  {
    && StyleNamed(u).None? && !Contains(u, "one line") && !Contains(u, "single line") && n != "join"
    && !Contains(u, "bullet") && !Contains(u, "number") && !Contains(u, "numbered list")
  }

  lemma {:induction false} SplitCounts(n: string)
    ensures NamesCount(SplitInto(n)) <==> IsCount(n)
  {
    var toks := SplitInto(n);
    assert toks[3] == n;
    forall w | w in toks && w != n ensures !IsCount(w) {
      assert w in ["split", "this", "into", "lines"];
    }
  }

  lemma {:induction false} SplitRule(u: string, n: string)
    requires OnlySplits(u, n) && !IsCount(n)
    ensures ListRule(u, SplitInto(n)) == Some(Accept(ListOp(SplitSentences)))
  {
    var toks := SplitInto(n);
    SplitCounts(n);
    assert toks[0] == "split" && toks[4] == "lines" && "lines" in toks && "split" in toks;
    assert HasAny(toks, ["split"]) && HasAny(toks, ["line", "lines", "sentence", "sentences"]);
    assert "join" !in toks;
  }

  lemma {:induction false} SplitFlat(u: string, n: string)
    requires OnlySplits(u, n) && !IsCount(n)
    ensures Flat(u, SplitInto(n)) == Accept(ListOp(SplitSentences))
  {
    NothingDeleted(SplitInto(n));
    SplitRule(u, n);
  }

  lemma {:induction false} SplitIntoIsPlain(n: string)
    requires IsWord(n) && TrimMarks(n) == n
    ensures PlainWords(SplitInto(n))
  {
    assert IsWord("split") && TrimMarks("split") == "split" && IsWord("this") && TrimMarks("this") == "this";
    assert IsWord("into") && TrimMarks("into") == "into" && IsWord("lines") && TrimMarks("lines") == "lines";
  }

  lemma {:induction false} SplitIntoSaid(fold: Fold, u: string, n: string)
    requires u == Join(SplitInto(n)) && FoldAll(fold, u) == u && IsWord(n) && TrimMarks(n) == n
    ensures Trim(u) == u && Tokens(u) == Said(fold, u) == SplitInto(n)
  {
    SplitIntoIsPlain(n);
    CleanWords(SplitInto(n));
    JoinedWords(SplitInto(n));
  }

  lemma {:induction false} CountIsPlain(n: string)
    requires IsCount(n) && n != []
    ensures IsWord(n) && TrimMarks(n) == n
  {
    forall c | c in n ensures !IsSpace(c) && !IsMarkChar(c) {
      if |n| > 2 { CountWordLetters(n); }
    }
    assert n[0] in n && n[|n| - 1] in n;
  }

  lemma {:induction false} CountWordLetters(n: string)
    requires n in ["two", "three", "four", "five", "six", "seven", "eight", "nine", "ten"]
    ensures forall c :: c in n ==> 'a' <= c <= 'z'
  {
  }

  predicate Apart(w: string, c: char, d: char) { c !in w || d !in w }

  /// Letters that no count has, alone or together.
  predicate CountLike(w: string)
  {
    && 'a' !in w && 'c' !in w && 'k' !in w && 'm' !in w && 'd' !in w && 'p' !in w
    && Apart(w, 'o', 'n') && Apart(w, 'n', 'g') && Apart(w, 'u', 'g')
  }

  lemma {:induction false} SmallerLetters(n: string)
    requires n in ["two", "three", "four", "five", "six"]
    ensures CountLike(n)
  {
    if n == "two" {
    } else if n == "three" {
    } else if n == "four" {
    } else if n == "five" {
    }
  }

  lemma {:induction false} LargerLetters(n: string)
    requires n in ["seven", "eight", "nine", "ten"]
    ensures CountLike(n)
  {
    if n == "seven" {
    } else if n == "eight" {
    } else if n == "nine" {
    }
  }

  lemma {:induction false} CountLetters(n: string)
    requires IsCount(n)
    ensures CountLike(n)
  {
    if n in ["two", "three", "four", "five", "six"] {
      SmallerLetters(n);
    } else if n in ["seven", "eight", "nine", "ten"] {
      LargerLetters(n);
    } else {
      assert forall c :: c in n ==> '0' <= c <= '9';
    }
  }

  lemma {:induction false} ApartIsNotBeside(w: string, c: char, d: char)
    requires Apart(w, c, d)
    ensures !Beside(w, c, d)
  {
    forall i | 0 <= i < |w| - 1 ensures w[i] != c || w[i + 1] != d { assert w[i] in w && w[i + 1] in w; }
  }

  /// No guard for joining, no style, no scope and no position: after "split", a count leaves every
  /// rule silent.
  predicate OnlyCounts(u: string, toks: seq<string>)
  {
    && toks != [] && toks[0] == "split" && NamesCount(toks)
    && StyleNamed(u).None? && !Joins(u, toks) && ScopesFrom(toks, 0) == [] && !NamesPosition(toks)
  }

  lemma {:induction false} CountedPasses(u: string, toks: seq<string>)
    requires OnlyCounts(u, toks)
    ensures Flat(u, toks).Pass?
  {
    NothingDeleted(toks);
    assert ListRule(u, toks).None? && RecaseRule(u, toks).None?;
  }

  lemma {:induction false} SplitIsHeadless(toks: seq<string>)
    requires toks != [] && toks[0] == "split"
    ensures Headless(toks)
  {
  }

  lemma {:induction false} SplitIsFlat(fold: Fold, u: string, toks: seq<string>)
    requires toks == Tokens(u) && toks != [] && toks[0] == "split"
    ensures Extended(fold, u, u) == Flat(u, toks)
  {
    SecondLetterIsP(fold, u, u, toks);
  }

  lemma {:induction false} SplitIsLiteral(u: string, toks: seq<string>)
    requires toks == Tokens(u) && toks != [] && toks[0] == "split"
    ensures Literal(u, u) == if WholeCase(u).Some? then Recase(WholeCase(u).value) else Freeform(u)
  {
    SplitIsHeadless(toks);
    HeadlessLiteral(u, u);
  }

  /// And then nothing but a case word is read.
  lemma {:induction false} CountedParses(fold: Fold, u: string, toks: seq<string>)
    requires u == Trim(u) && u == FoldAll(fold, u) && toks == Tokens(u) && OnlyCounts(u, toks)
    ensures Parse(fold, u) == if WholeCase(u).Some? then Recase(WholeCase(u).value) else Freeform(u)
  {
    CountedPasses(u, toks);
    SplitIsFlat(fold, u, toks);
    SplitIsLiteral(u, toks);
    Decided(fold, u, u, u, Pass);
  }

  /// No word that could be an ordinal stands before a unit.
  predicate Scopeless(toks: seq<string>)
  {
    forall i :: 0 <= i < |toks| - 1 ==> Ordinal(toks[i]).None? || UnitOf(toks[i + 1]).None?
  }

  lemma {:induction false} ScopelessHasNone(toks: seq<string>, i: nat)
    requires Scopeless(toks)
    ensures ScopesFrom(toks, i) == []
    decreases |toks| - i
  {
    if i < |toks| { ScopelessHasNone(toks, i + 1); }
  }

  /// A text in which no style, no case word and no single line can be found.
  predicate Unlettered(s: string)
  {
    'a' !in s && 'c' !in s && !Beside(s, 'o', 'n') && !Beside(s, 'n', 'g') && !Beside(s, 'u', 'g')
  }

  lemma {:induction false} UnletteredJoin(ws: seq<string>)
    requires forall w :: w in ws ==> Unlettered(w)
    ensures Unlettered(Join(ws))
  {
    NotInJoin(ws, 'a');
    NotInJoin(ws, 'c');
    NotBesideInJoin(ws, 'o', 'n');
    NotBesideInJoin(ws, 'n', 'g');
    NotBesideInJoin(ws, 'u', 'g');
  }

  lemma {:induction false} CountIsUnlettered(n: string)
    requires IsCount(n)
    ensures Unlettered(n)
  {
    CountLetters(n);
    ApartIsNotBeside(n, 'o', 'n');
    ApartIsNotBeside(n, 'n', 'g');
    ApartIsNotBeside(n, 'u', 'g');
  }

  lemma {:induction false} NoStyleWithoutA(u: string)
    requires 'a' !in u && !Beside(u, 'u', 'g')
    ensures StyleNamed(u).None?
  {
    Lacks(u, "screaming snake", 'a');
    Lacks(u, "constant case", 'a');
    Lacks(u, "snake case", 'a');
    Lacks(u, "camel case", 'a');
    Lacks(u, "pascal case", 'a');
    Lacks(u, "upper camel case", 'a');
    Lacks(u, "kebab case", 'a');
    Lacks(u, "dash case", 'a');
    LacksPair(u, "slug", 2);
  }

  lemma {:induction false} NoCaseUnlettered(u: string)
    requires 'c' !in u
    ensures WholeCase(u).None?
  {
    Lacks(u, "uppercase", 'c');
    Lacks(u, "all caps", 'c');
    Lacks(u, "capitalize everything", 'c');
    Lacks(u, "lowercase", 'c');
    Lacks(u, "all lowercase", 'c');
    Lacks(u, "title case", 'c');
    Lacks(u, "titlecase", 'c');
    Lacks(u, "sentence case", 'c');
    Lacks(u, "sentencecase", 'c');
  }

  lemma {:induction false} NotOnOneLine(u: string, toks: seq<string>)
    requires !Beside(u, 'o', 'n') && !Beside(u, 'n', 'g') && "join" !in toks
    ensures !Joins(u, toks)
  {
    LacksPair(u, "one line", 0);
    LacksPair(u, "single line", 2);
  }

  lemma {:induction false} SplitUnlettered()
    ensures forall w :: w in ["split", "this", "into", "lines"] ==> Unlettered(w)
  {
    ApartIsNotBeside("split", 'o', 'n');
    ApartIsNotBeside("this", 'o', 'n');
    ApartIsNotBeside("lines", 'o', 'n');
  }

  lemma {:induction false} SplitIntoUnlettered(n: string)
    requires Unlettered(n)
    ensures Unlettered(Join(SplitInto(n)))
  {
    SplitUnlettered();
    forall w | w in SplitInto(n) ensures Unlettered(w) {
      assert w == n || w in ["split", "this", "into", "lines"];
    }
    UnletteredJoin(SplitInto(n));
  }

  lemma {:induction false} CountIsNoPlace(n: string)
    requires IsCount(n)
    ensures Ordinal(n).None? && UnitOf(n).None? && n != "join"
  {
  }

  /// "this" stands before no unit, and it is no position when an unread scope is looked for.
  lemma {:induction false} SplitIsScopeless(toks: seq<string>, rest: seq<string>)
    requires toks == ["split", "this", "into"] + rest && forall w :: w in rest ==> Ordinal(w).None?
    ensures ScopesFrom(toks, 0) == [] && !NamesPosition(toks)
  {
    forall i | 0 <= i < |toks| - 1 ensures Ordinal(toks[i]).None? || UnitOf(toks[i + 1]).None? {
      if i >= 3 { assert toks[i] == rest[i - 3]; }
    }
    ScopelessHasNone(toks, 0);
    forall w | w in toks ensures !IsPosition(w) {
      assert w in rest || w in ["split", "this", "into"];
    }
  }

  lemma {:induction false} SplitIntoIsScopeless(n: string)
    requires IsCount(n)
    ensures ScopesFrom(SplitInto(n), 0) == [] && !NamesPosition(SplitInto(n)) && "join" !in SplitInto(n)
  {
    CountIsNoPlace(n);
    SplitIsScopeless(SplitInto(n), [n, "lines"]);
  }

  lemma {:induction false} SplitOnlyCounts(u: string, n: string)
    requires u == Join(SplitInto(n)) && IsCount(n)
    ensures OnlyCounts(u, SplitInto(n)) && WholeCase(u).None?
  {
    CountIsUnlettered(n);
    SplitIntoUnlettered(n);
    NoStyleWithoutA(u);
    NoCaseUnlettered(u);
    SplitIntoIsScopeless(n);
    NotOnOneLine(u, SplitInto(n));
    SplitCounts(n);
  }

  /// "split this into two lines", and so on to ten and with one or two digits: refused, as documented.
  lemma {:induction false} CountsAreRefused(fold: Fold, u: string, n: string)
    requires u == Join(SplitInto(n)) && FoldAll(fold, u) == u && IsCount(n) && n != []
    ensures Parse(fold, u) == Freeform(u)
  {
    CountIsPlain(n);
    SplitIntoSaid(fold, u, n);
    SplitOnlyCounts(u, n);
    CountedParses(fold, u, SplitInto(n));
  }

  lemma {:induction false} SplitParses(fold: Fold, u: string, n: string)
    requires Trim(u) == u && FoldAll(fold, u) == u && Tokens(u) == SplitInto(n) && OnlySplits(u, n) && !IsCount(n)
    ensures Parse(fold, u) == ListOp(SplitSentences)
  {
    SplitFlat(u, n);
    SecondLetterIsP(fold, u, u, SplitInto(n));
    Decided(fold, u, u, u, Flat(u, SplitInto(n)));
  }

  /// "split this into <n> lines", when nothing else in it is a word of the rules: refused exactly when
  /// n is one of the counts known, and otherwise split into its sentences, however many they are.
  lemma {:induction false} SplitHeedsIff(fold: Fold, u: string, n: string)
    requires u == Join(SplitInto(n)) && FoldAll(fold, u) == u && IsWord(n) && TrimMarks(n) == n && OnlySplits(u, n)
    ensures Parse(fold, u) == if IsCount(n) then Freeform(u) else ListOp(SplitSentences)
    ensures Parse(fold, u) == Freeform(u) <==> IsCount(n)
  {
    if IsCount(n) {
      CountsAreRefused(fold, u, n);
    } else {
      SplitIntoSaid(fold, u, n);
      SplitParses(fold, u, n);
    }
  }

  lemma {:induction false} PositionLetters(n: string)
    requires IsPosition(n)
    ensures ('a' !in n || 'c' !in n) && Apart(n, 'u', 'g')
  {
    if n == "first" {
    } else if n == "second" {
    } else if n == "third" {
    } else if n == "fourth" {
    }
  }

  /// A style and a position cannot both stand there: every style needs an a and a c, or a "ug".
  lemma {:induction false} PositionIsNoStyle(u: string, n: string, c: char)
    requires u == Join(SplitInto(n)) && (c == 'a' || c == 'c') && c !in n && !Beside(n, 'u', 'g')
    ensures StyleNamed(u).None?
  {
    SplitUnlettered();
    forall w | w in SplitInto(n) ensures c !in w && !Beside(w, 'u', 'g') {
      assert w == n || w in ["split", "this", "into", "lines"];
    }
    NotInJoin(SplitInto(n), c);
    NotBesideInJoin(SplitInto(n), 'u', 'g');
    if c == 'a' { NoStyleWithoutA(u); } else { NoStyleWithoutC(u); }
  }

  lemma {:induction false} NoStyleWithoutC(u: string)
    requires 'c' !in u && !Beside(u, 'u', 'g')
    ensures StyleNamed(u).None?
  {
    Lacks(u, "screaming snake", 'c');
    Lacks(u, "constant case", 'c');
    Lacks(u, "snake case", 'c');
    Lacks(u, "camel case", 'c');
    Lacks(u, "pascal case", 'c');
    Lacks(u, "upper camel case", 'c');
    Lacks(u, "kebab case", 'c');
    Lacks(u, "dash case", 'c');
    LacksPair(u, "slug", 2);
  }

  lemma {:induction false} SplitTalks(u: string, n: string)
    requires !IsCount(n)
    ensures ListRule(u, SplitInto(n)).Some? && ListRule(u, SplitInto(n)).value.Accept?
  {
    var toks := SplitInto(n);
    SplitCounts(n);
    assert "split" in toks && "lines" in toks;
    assert HasAny(toks, ["split"]) && HasAny(toks, ["line", "lines", "sentence", "sentences"]);
  }

  lemma {:induction false} SplitAnswers(u: string, n: string)
    requires !IsCount(n) && (StyleNamed(u).Some? ==> !NamesPosition(SplitInto(n)))
    ensures Flat(u, SplitInto(n)).Accept? && !Flat(u, SplitInto(n)).intent.Freeform?
  {
    NothingDeleted(SplitInto(n));
    SplitTalks(u, n);
  }

  lemma {:induction false} UncountedIsRead(u: string, n: string)
    requires u == Join(SplitInto(n)) && !IsCount(n)
    ensures Flat(u, SplitInto(n)).Accept? && !Flat(u, SplitInto(n)).intent.Freeform?
  {
    if NamesPosition(SplitInto(n)) {
      assert forall w :: w in SplitInto(n) ==> w == n || w in ["split", "this", "into", "lines"];
      assert IsPosition(n);
      PositionLetters(n);
      ApartIsNotBeside(n, 'u', 'g');
      PositionIsNoStyle(u, n, if 'a' !in n then 'a' else 'c');
    }
    SplitAnswers(u, n);
  }

  /// "split this into <n> lines" with any word n at all is refused exactly when n is one of the counts.
  lemma {:induction false} SplitRefusedIff(fold: Fold, u: string, n: string)
    requires u == Join(SplitInto(n)) && FoldAll(fold, u) == u && IsWord(n) && TrimMarks(n) == n
    ensures Parse(fold, u) == Freeform(u) <==> IsCount(n)
  {
    if IsCount(n) {
      CountsAreRefused(fold, u, n);
    } else {
      SplitIntoSaid(fold, u, n);
      UncountedIsRead(u, n);
      SplitDecides(fold, u, SplitInto(n));
    }
  }

  lemma {:induction false} ElevenIsUnlettered()
    ensures Unlettered("eleven") && IsWord("eleven") && TrimMarks("eleven") == "eleven" && !IsCount("eleven")
  {
    ApartIsNotBeside("eleven", 'o', 'n');
    ApartIsNotBeside("eleven", 'n', 'g');
    ApartIsNotBeside("eleven", 'u', 'g');
  }

  lemma {:induction false} ElevenLetters()
    ensures forall w :: w in SplitInto("eleven") ==> 'b' !in w
  {
  }

  lemma {:induction false} ElevenIsPlain(u: string)
    requires u == Join(SplitInto("eleven"))
    ensures OnlySplits(u, "eleven")
  {
    ElevenIsUnlettered();
    SplitIntoUnlettered("eleven");
    ElevenLetters();
    NotInJoin(SplitInto("eleven"), 'b');
    NoStyleWithoutA(u);
    LacksPair(u, "one line", 0);
    LacksPair(u, "single line", 2);
    Lacks(u, "bullet", 'b');
    Lacks(u, "number", 'b');
    Lacks(u, "numbered list", 'b');
  }

  lemma {:induction false} ElevenJoined()
    ensures Join(SplitInto("eleven")) == "split this into eleven lines"
  {
    Unjoin(SplitInto("eleven"));
    Unjoin(["this", "into", "eleven", "lines"]);
    Unjoin(["into", "eleven", "lines"]);
    Unjoin(["eleven", "lines"]);
    assert Join(["lines"]) == "lines";
  }

  /// A larger number is not heeded: the text is split into its sentences, however many they are.
  lemma {:induction false} ElevenIsIgnored(fold: Fold)
    requires FoldAll(fold, "split this into eleven lines") == "split this into eleven lines"
    ensures Parse(fold, "split this into eleven lines") == ListOp(SplitSentences)
  {
    ElevenJoined();
    var u := Join(SplitInto("eleven"));
    ElevenIsPlain(u);
    ElevenIsUnlettered();
    SplitHeedsIff(fold, u, "eleven");
  }

  // ---- Counts that are passed over -----------------------------------------------------------------

  function JoinThese(n: string): seq<string> { ["join", "these", n, "lines"] }

  lemma {:induction false} JoinTheseIsPlain(n: string)
    requires IsWord(n) && TrimMarks(n) == n
    ensures PlainWords(JoinThese(n))
  {
    assert IsWord("join") && TrimMarks("join") == "join" && IsWord("these") && TrimMarks("these") == "these";
    assert IsWord("lines") && TrimMarks("lines") == "lines";
  }

  lemma {:induction false} JoinUnlettered()
    ensures forall w :: w in ["join", "these", "lines"] ==> Unlettered(w)
  {
    ApartIsNotBeside("these", 'o', 'n');
    ApartIsNotBeside("lines", 'o', 'n');
  }

  lemma {:induction false} JoinTheseHasNoStyle(u: string, n: string)
    requires u == Join(JoinThese(n)) && IsCount(n)
    ensures StyleNamed(u).None?
  {
    JoinUnlettered();
    CountIsUnlettered(n);
    forall w | w in JoinThese(n) ensures Unlettered(w) {
      assert w == n || w in ["join", "these", "lines"];
    }
    UnletteredJoin(JoinThese(n));
    NoStyleWithoutA(u);
  }

  lemma {:induction false} JoinTheseFlat(u: string, n: string)
    requires StyleNamed(u).None?
    ensures Flat(u, JoinThese(n)) == Accept(ListOp(JoinLines))
  {
    var toks := JoinThese(n);
    NothingDeleted(toks);
    assert "join" in toks && "these" in toks;
    assert HasAny(toks, ["join"]) && HasAny(toks, ["line", "lines", "them", "these"]);
    assert Joins(u, toks);
  }

  /// The finding: the guard for joining stands before the count, so "join these two lines", with any
  /// count, joins all there are.
  lemma {:induction false} CountedLinesAreJoined(fold: Fold, u: string, n: string)
    requires u == Join(JoinThese(n)) && FoldAll(fold, u) == u && IsCount(n) && n != []
    ensures NamesCount(Said(fold, u)) && Parse(fold, u) == ListOp(JoinLines)
  {
    CountIsPlain(n);
    JoinTheseIsPlain(n);
    CleanWords(JoinThese(n));
    JoinedWords(JoinThese(n));
    JoinTheseHasNoStyle(u, n);
    JoinTheseParses(fold, u, n);
  }

  lemma {:induction false} JoinTheseParses(fold: Fold, u: string, n: string)
    requires u == Trim(u) && u == FoldAll(fold, u) && Tokens(u) == JoinThese(n) && IsCount(n) && StyleNamed(u).None?
    ensures NamesCount(Said(fold, u)) && Parse(fold, u) == ListOp(JoinLines)
  {
    assert JoinThese(n)[2] in JoinThese(n);
    StartsPlainly(fold, u, u);
    JoinTheseFlat(u, n);
    Decided(fold, u, u, u, Flat(u, JoinThese(n)));
  }

  function SplitCased(n: string): seq<string> { ["split", "this", "into", n, "uppercase", "lines"] }

  /// A text in which only a case word can be found.
  predicate Cased(s: string)
  {
    && 'm' !in s && 'k' !in s && 'd' !in s && !Beside(s, 'c', 'o') && !Beside(s, 'p', 'a')
    && !Beside(s, 'o', 'n') && !Beside(s, 'n', 'g') && !Beside(s, 'u', 'g')
  }

  lemma {:induction false} CasedJoin(ws: seq<string>)
    requires forall w :: w in ws ==> Cased(w)
    ensures Cased(Join(ws))
  {
    NotInJoin(ws, 'm');
    NotInJoin(ws, 'k');
    NotInJoin(ws, 'd');
    NotBesideInJoin(ws, 'c', 'o');
    NotBesideInJoin(ws, 'p', 'a');
    NotBesideInJoin(ws, 'o', 'n');
    NotBesideInJoin(ws, 'n', 'g');
    NotBesideInJoin(ws, 'u', 'g');
  }

  lemma {:induction false} CountIsCased(n: string)
    requires IsCount(n)
    ensures Cased(n)
  {
    CountLetters(n);
    CountIsUnlettered(n);
    ApartIsNotBeside(n, 'c', 'o');
    ApartIsNotBeside(n, 'p', 'a');
  }

  lemma {:induction false} UppercaseIsCased()
    ensures Cased("uppercase")
  {
    ApartIsNotBeside("uppercase", 'c', 'o');
    ApartIsNotBeside("uppercase", 'o', 'n');
    ApartIsNotBeside("uppercase", 'n', 'g');
    ApartIsNotBeside("uppercase", 'u', 'g');
  }

  lemma {:induction false} SplitIsCased()
    ensures forall w :: w in ["split", "this", "into", "lines"] ==> Cased(w)
  {
    SplitUnlettered();
    forall w | w in ["split", "this", "into", "lines"] ensures !Beside(w, 'c', 'o') && !Beside(w, 'p', 'a') {
      ApartIsNotBeside(w, 'c', 'o');
      ApartIsNotBeside(w, 'p', 'a');
    }
  }

  lemma {:induction false} SplitCasedIsCased(n: string)
    requires IsCount(n)
    ensures Cased(Join(SplitCased(n)))
  {
    CountIsCased(n);
    UppercaseIsCased();
    SplitIsCased();
    forall w | w in SplitCased(n) ensures Cased(w) {
      assert w == n || w == "uppercase" || w in ["split", "this", "into", "lines"];
    }
    CasedJoin(SplitCased(n));
  }

  lemma {:induction false} NoStyleCased(u: string)
    requires Cased(u)
    ensures StyleNamed(u).None?
  {
    Lacks(u, "screaming snake", 'm');
    LacksPair(u, "constant case", 0);
    Lacks(u, "snake case", 'k');
    Lacks(u, "camel case", 'm');
    LacksPair(u, "pascal case", 0);
    Lacks(u, "upper camel case", 'm');
    Lacks(u, "kebab case", 'k');
    Lacks(u, "dash case", 'd');
    LacksPair(u, "slug", 2);
  }

  lemma {:induction false} SplitCasedIsScopeless(n: string)
    requires IsCount(n)
    ensures ScopesFrom(SplitCased(n), 0) == [] && !NamesPosition(SplitCased(n))
  {
    CountIsNoPlace(n);
    SplitIsScopeless(SplitCased(n), [n, "uppercase", "lines"]);
  }

  lemma {:induction false} SplitCasedCounts(n: string)
    requires IsCount(n)
    ensures NamesCount(SplitCased(n)) && "join" !in SplitCased(n)
  {
    CountIsNoPlace(n);
    assert SplitCased(n)[3] == n;
  }

  lemma {:induction false} SplitCasedOnlyCounts(u: string, n: string)
    requires u == Join(SplitCased(n)) && IsCount(n)
    ensures OnlyCounts(u, SplitCased(n))
  {
    SplitCasedIsCased(n);
    NoStyleCased(u);
    SplitCasedIsScopeless(n);
    SplitCasedCounts(n);
    NotOnOneLine(u, SplitCased(n));
  }

  lemma {:induction false} SplitCasedIsPlain(n: string)
    requires IsWord(n) && TrimMarks(n) == n
    ensures PlainWords(SplitCased(n))
  {
    SplitIntoIsPlain(n);
    assert IsWord("uppercase") && TrimMarks("uppercase") == "uppercase";
    forall w | w in SplitCased(n) ensures w in SplitInto(n) || w == "uppercase" {}
  }

  lemma {:induction false} SaysUppercase(n: string)
    ensures Contains(Join(SplitCased(n)), "uppercase")
  {
    var (front, all) := (["split", "this", "into", n], SplitCased(n));
    assert all == front + ["uppercase", "lines"];
    var p := JoinEndsWith(front, "uppercase");
    var q := JoinMore(front + ["uppercase"], ["lines"]);
    assert front + ["uppercase"] + ["lines"] == all;
    assert Join(all) == (p + "uppercase") + q;
    assert HasAt(Join(all), "uppercase", |p|);
  }

  lemma {:induction false} JoinMore(ws: seq<string>, more: seq<string>) returns (q: string)
    requires ws != []
    ensures Join(ws + more) == Join(ws) + q
    decreases |ws|
  {
    var all := ws + more;
    if more == [] {
      assert all == ws;
      q := [];
      assert Join(ws) + q == Join(ws);
    } else if |ws| == 1 {
      assert all[1..] == more;
      q := " " + Join(more);
      Unjoin(all);
    } else {
      q := JoinMore(ws[1..], more);
      assert all[1..] == ws[1..] + more;
      Unjoin(ws);
      Unjoin(all);
      assert ws[0] + (" " + (Join(ws[1..]) + q)) == (ws[0] + (" " + Join(ws[1..]))) + q;
    }
  }

  lemma {:induction false} SplitCasedSaid(u: string, n: string)
    requires u == Join(SplitCased(n)) && IsCount(n) && n != []
    ensures Trim(u) == u && Tokens(u) == SplitCased(n)
  {
    CountIsPlain(n);
    SplitCasedIsPlain(n);
    CleanWords(SplitCased(n));
    JoinedWords(SplitCased(n));
  }

  lemma {:induction false} UppercaseIsUpper(u: string)
    requires Contains(u, "uppercase")
    ensures WholeCase(u) == Some(Upper)
  {
  }

  /// The finding: "split this into two uppercase lines", with any count, is passed on by the rule for
  /// lists and shouts everything.
  lemma {:induction false} CountedCaseShouts(fold: Fold, u: string, n: string)
    requires u == Join(SplitCased(n)) && FoldAll(fold, u) == u && IsCount(n) && n != []
    ensures NamesCount(Said(fold, u)) && Parse(fold, u) == Recase(Upper)
  {
    SplitCasedSaid(u, n);
    SplitCasedOnlyCounts(u, n);
    CountedParses(fold, u, SplitCased(n));
    SaysUppercase(n);
    UppercaseIsUpper(u);
  }

  function SplitSlug(n: string): seq<string> { ["split", "this", "into", n, "lines", "as", "a", "slug"] }

  lemma {:induction false} SplitSlugIsPlain(n: string)
    requires IsWord(n) && TrimMarks(n) == n
    ensures PlainWords(SplitSlug(n))
  {
    SplitIntoIsPlain(n);
    assert IsWord("as") && TrimMarks("as") == "as" && IsWord("a") && TrimMarks("a") == "a";
    assert IsWord("slug") && TrimMarks("slug") == "slug";
    forall w | w in SplitSlug(n) ensures w in SplitInto(n) || w in ["as", "a", "slug"] {}
  }

  lemma {:induction false} SaysSlug(n: string)
    ensures Contains(Join(SplitSlug(n)), "slug")
  {
    var front := ["split", "this", "into", n, "lines", "as", "a"];
    assert SplitSlug(n) == front + ["slug"];
    var p := JoinEndsWith(front, "slug");
    assert HasAt(Join(SplitSlug(n)), "slug", |p|);
  }

  lemma {:induction false} SlugLetters(n: string)
    requires 'c' !in n
    ensures 'c' !in Join(SplitSlug(n))
  {
    NotInJoin(SplitSlug(n), 'c');
  }

  lemma {:induction false} SlugWithoutC(u: string)
    requires Contains(u, "slug") && 'c' !in u
    ensures StyleNamed(u) == Some(Kebab)
  {
    Lacks(u, "screaming snake", 'c');
    Lacks(u, "constant case", 'c');
    Lacks(u, "snake case", 'c');
    Lacks(u, "camel case", 'c');
    Lacks(u, "pascal case", 'c');
    Lacks(u, "upper camel case", 'c');
  }

  lemma {:induction false} SplitSlugIsScopeless(n: string)
    requires IsCount(n)
    ensures !NamesPosition(SplitSlug(n)) && NamesCount(SplitSlug(n))
  {
    CountIsNoPlace(n);
    SplitIsScopeless(SplitSlug(n), [n, "lines", "as", "a", "slug"]);
    assert SplitSlug(n)[3] == n;
  }

  lemma {:induction false} SplitSlugSaid(u: string, n: string)
    requires u == Join(SplitSlug(n)) && IsCount(n) && n != []
    ensures Trim(u) == u && Tokens(u) == SplitSlug(n)
  {
    CountIsPlain(n);
    SplitSlugIsPlain(n);
    CleanWords(SplitSlug(n));
    JoinedWords(SplitSlug(n));
  }

  /// The finding: the rule for identifiers stands before the count as well.
  lemma {:induction false} CountedSlug(fold: Fold, u: string, n: string)
    requires u == Join(SplitSlug(n)) && FoldAll(fold, u) == u && IsCount(n) && n != []
    ensures NamesCount(Said(fold, u)) && Parse(fold, u) == Identifier(Kebab)
  {
    SplitSlugSaid(u, n);
    CountLetters(n);
    SaysSlug(n);
    SlugLetters(n);
    SlugWithoutC(u);
    SplitSlugIsScopeless(n);
    StyledFlat(u, SplitSlug(n), Kebab);
    SplitDecides(fold, u, SplitSlug(n));
  }
}
