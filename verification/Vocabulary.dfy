// Fuzzy correction against the user's vocabulary (crates/config/src/vocab.rs).
//
// Lower-casing, the test for a letter or digit and the measure of similarity are parameters; scores
// are exact reals.

module Vocabulary {
  import opened Common
  import opened Text

  datatype Ear = Ear(fold: Fold, alnum: char -> bool, similarity: (string, string) -> real)

  datatype Entry = Entry(spoken: string, written: string, preserveCase: bool, strip: bool, line: nat)

  datatype Correction = Correction(from: string, into: string, line: nat)

  const FUZZY_THRESHOLD := 0.63
  const MIN_FUZZY_LEN := 5

  // ---- Words ---------------------------------------------------------------------------------------

  /// The first letter or digit of w from i on, or |w|.
  function FirstLetter(l: Ear, w: string, i: nat): (a: nat)
    requires i <= |w|
    ensures i <= a <= |w|
    decreases |w| - i
  {
    if i < |w| && !l.alnum(w[i]) then FirstLetter(l, w, i + 1) else i
  }

  /// Just past the last letter or digit of w[from..i].
  function LastLetter(l: Ear, w: string, from: nat, i: nat): (b: nat)
    requires from <= i <= |w|
    ensures from <= b <= i
  {
    if from < i && !l.alnum(w[i - 1]) then LastLetter(l, w, from, i - 1) else i
  }

  /// `strip_word`.
  function StripWord(l: Ear, w: string): string
  {
    var a := FirstLetter(l, w, 0);
    w[a..LastLetter(l, w, a, |w|)]
  }

  /// `carry_punctuation`: what follows the last letter of the original, unless the entry drops it.
  function Carried(l: Ear, original: string, e: Entry): string
  {
    if e.strip then e.written else e.written + original[LastLetter(l, original, 0, |original|)..]
  }

  function WithoutSpaces(s: string): string
  {
    if s == [] then [] else (if s[0] == ' ' then [] else [s[0]]) + WithoutSpaces(s[1..])
  }

  function Spoken(l: Ear, e: Entry): string { FoldAll(l.fold, e.spoken) }

  // ---- The best entry ------------------------------------------------------------------------------

  function Score(l: Ear, lower: string, e: Entry): real
  {
    l.similarity(WithoutSpaces(lower), WithoutSpaces(Spoken(l, e)))
  }

  /// The entry is worth comparing: the candidate is not a single word that the term begins with.
  predicate Comparable(l: Ear, lower: string, e: Entry)
  {
    ' ' in lower || !(lower <= Spoken(l, e))
  }

  /// The score of an entry that is close enough.
  function CloseScore(l: Ear, lower: string, e: Entry): Option<real>
  {
    if Comparable(l, lower, e) && Score(l, lower, e) >= FUZZY_THRESHOLD then Some(Score(l, lower, e)) else None
  }

  predicate Known(l: Ear, bias: seq<Entry>, lower: string)
  {
    exists e :: e in bias && Spoken(l, e) == lower
  }

  function CloseScores(l: Ear, bias: seq<Entry>, lower: string): (c: seq<Option<real>>)
    ensures |c| == |bias| && forall k :: 0 <= k < |bias| ==> c[k] == CloseScore(l, lower, bias[k])
  {
    seq(|bias|, k requires 0 <= k < |bias| => CloseScore(l, lower, bias[k]))
  }

  /// The first of the highest scores among the first n.
  function Highest(c: seq<Option<real>>, n: nat): (r: Option<nat>)
    requires n <= |c|
    ensures r.Some? ==> r.value < n && c[r.value].Some?
  {
    if n == 0 then None
    else
      var before := Highest(c, n - 1);
      if c[n - 1].Some? && (before.None? || c[n - 1].value > c[before.value].value) then Some(n - 1) else before
  }

  /// Nothing scores more, and nothing before it scores as much.
  lemma {:induction false} HighestIsFirstBest(c: seq<Option<real>>, n: nat)
    requires n <= |c|
    ensures var r := Highest(c, n);
            if r.None? then forall k :: 0 <= k < n ==> c[k].None?
            else && (forall k :: 0 <= k < n && c[k].Some? ==> c[k].value <= c[r.value].value)
                 && (forall k :: 0 <= k < r.value && c[k].Some? ==> c[k].value < c[r.value].value)
  {
    if n > 0 {
      HighestIsFirstBest(c, n - 1);
    }
  }

  /// The entry with that score.
  function Picked(bias: seq<Entry>, c: seq<Option<real>>, n: nat): Option<(Entry, real)>
    requires n <= |c| == |bias|
  {
    match Highest(c, n) case None => None case Some(k) => Some((bias[k], c[k].value))
  }

  /// What `best_match` finds.
  function Best(l: Ear, bias: seq<Entry>, candidate: string): Option<(Entry, real)>
  {
    var lower := FoldAll(l.fold, candidate);
    if |candidate| < MIN_FUZZY_LEN || Known(l, bias, lower) then None
    else Picked(bias, CloseScores(l, bias, lower), |bias|)
  }

  method BestMatch(l: Ear, bias: seq<Entry>, candidate: string) returns (best: Option<(Entry, real)>)
    ensures best == Best(l, bias, candidate)
  {
    if |candidate| < MIN_FUZZY_LEN {
      return None;
    }
    var lower := FoldAll(l.fold, candidate);
    ghost var c := CloseScores(l, bias, lower);
    best := None;
    for i := 0 to |bias|
      invariant best == Picked(bias, c, i)
      invariant forall k :: 0 <= k < i ==> Spoken(l, bias[k]) != lower
    {
      var e := bias[i];
      if lower == Spoken(l, e) {
        assert e in bias;
        return None;
      }
      var score := CloseScore(l, lower, e);
      if score.Some? && (best.None? || score.value > best.value.1) {
        best := Some((e, score.value));
      }
    }
  }

  // ---- The walk over the words ---------------------------------------------------------------------

  /// The entries long enough to correct towards.
  function BiasOf(entries: seq<Entry>): (r: seq<Entry>)
    ensures forall e :: e in r ==> e in entries
  {
    if entries == [] then []
    else (if |entries[0].spoken| >= MIN_FUZZY_LEN then [entries[0]] else []) + BiasOf(entries[1..])
  }

  /// The word is a term already, as it is spoken or as it is written.
  predicate IsTerm(l: Ear, entries: seq<Entry>, w: string)
  {
    var lower := FoldAll(l.fold, StripWord(l, w));
    exists e :: e in entries && (Spoken(l, e) == lower || FoldAll(l.fold, e.written) == lower)
  }

  /// One or two words, the token that stands for them, and the line of the entry used, if any.
  datatype Step = Step(words: seq<string>, token: string, line: Option<nat>)

  function PairMatch(l: Ear, entries: seq<Entry>, bias: seq<Entry>, words: seq<string>, i: nat): Option<(Entry, real)>
    requires i < |words|
  {
    if i + 1 < |words| && !IsTerm(l, entries, words[i]) && !IsTerm(l, entries, words[i + 1])
    then Best(l, bias, StripWord(l, words[i]) + " " + StripWord(l, words[i + 1])) else None
  }

  /// What is done at word i: the pair if it scores at least as well as the single word.
  function StepAt(l: Ear, entries: seq<Entry>, bias: seq<Entry>, words: seq<string>, i: nat): (s: Step)
    requires i < |words|
    ensures 1 <= |s.words| <= 2 && i + |s.words| <= |words| && s.words == words[i..i + |s.words|]
    ensures s.line.None? ==> s.words == [words[i]] && s.token == words[i]
  {
    var pair := PairMatch(l, entries, bias, words, i);
    var single := Best(l, bias, StripWord(l, words[i]));
    if pair.Some? && (single.None? || pair.value.1 >= single.value.1) then
      Step([words[i], words[i + 1]], Carried(l, words[i + 1], pair.value.0), Some(pair.value.0.line))
    else if single.Some? then
      var token := Carried(l, words[i], single.value.0);
      Step([words[i]], token, if token != words[i] then Some(single.value.0.line) else None)
    else Step([words[i]], words[i], None)
  }

  /// What would be done at each word.
  function Plan(l: Ear, entries: seq<Entry>, bias: seq<Entry>, words: seq<string>): (p: seq<Step>)
    ensures Fits(p, words)
  {
    seq(|words|, i requires 0 <= i < |words| => StepAt(l, entries, bias, words, i))
  }

  lemma {:induction false} PlanAt(l: Ear, entries: seq<Entry>, bias: seq<Entry>, words: seq<string>, i: nat)
    requires i < |words|
    ensures Plan(l, entries, bias, words)[i] == StepAt(l, entries, bias, words, i)
  {
  }

  /// Each step takes the one or two words at its place, and one that logs nothing changes nothing.
  predicate Fits(plan: seq<Step>, words: seq<string>)
  {
    |plan| == |words|
    && forall i {:trigger plan[i]} :: 0 <= i < |plan| ==>
         && 1 <= |plan[i].words| <= 2 && i + |plan[i].words| <= |words|
         && plan[i].words == words[i..i + |plan[i].words|]
         && (plan[i].line.None? ==> plan[i].words == [plan[i].token])
  }

  /// The steps that are taken from word i on: each begins where the one before it ended.
  function Walk(plan: seq<Step>, words: seq<string>, i: nat): seq<Step>
    requires Fits(plan, words) && i <= |words|
    decreases |words| - i
  {
    if i == |words| then [] else [plan[i]] + Walk(plan, words, i + |plan[i].words|)
  }

  /// Those of a whole text.
  function Steps(l: Ear, entries: seq<Entry>, text: string): seq<Step>
  {
    Walk(Plan(l, entries, BiasOf(entries), Words(text)), Words(text), 0)
  }

  function Tokens(steps: seq<Step>): (r: seq<string>)
    ensures |r| == |steps|
  {
    seq(|steps|, k requires 0 <= k < |steps| => steps[k].token)
  }

  lemma {:induction false} TokensMore(steps: seq<Step>, s: Step)
    ensures Tokens(steps + [s]) == Tokens(steps) + [s.token]
  {
  }

  function Log(steps: seq<Step>): seq<Correction>
  {
    if steps == [] then []
    else Logged(steps[0]) + Log(steps[1..])
  }

  function Logged(s: Step): seq<Correction>
  {
    if s.line.Some? then [Correction(Join(s.words), s.token, s.line.value)] else []
  }

  lemma {:induction false} LogMore(steps: seq<Step>, s: Step)
    ensures Log(steps + [s]) == Log(steps) + Logged(s)
  {
    if steps == [] {
      assert [] + [s] == [s];
    } else {
      assert (steps + [s])[1..] == steps[1..] + [s];
      LogMore(steps[1..], s);
    }
  }

  /// What is done with the next word or two.
  method NextStep(l: Ear, entries: seq<Entry>, bias: seq<Entry>, words: seq<string>, i: nat) returns (s: Step)
    requires i < |words|
    ensures s == Plan(l, entries, bias, words)[i]
  {
    PlanAt(l, entries, bias, words, i);
    var pair: Option<(Entry, real)> := None;
    if i + 1 < |words| && !IsTerm(l, entries, words[i]) && !IsTerm(l, entries, words[i + 1]) {
      pair := BestMatch(l, bias, StripWord(l, words[i]) + " " + StripWord(l, words[i + 1]));
    }
    var single := BestMatch(l, bias, StripWord(l, words[i]));
    if pair.Some? && (single.None? || pair.value.1 >= single.value.1) {
      s := Step([words[i], words[i + 1]], Carried(l, words[i + 1], pair.value.0), Some(pair.value.0.line));
    } else if single.Some? {
      var token := Carried(l, words[i], single.value.0);
      s := Step([words[i]], token, if token != words[i] then Some(single.value.0.line) else None);
    } else {
      s := Step([words[i]], words[i], None);
    }
  }

  lemma {:induction false} Walked(plan: seq<Step>, words: seq<string>, i: nat, next: nat, steps: seq<Step>, rest: seq<Step>)
    requires Fits(plan, words) && i < |words| && next == i + |plan[i].words| && rest == Walk(plan, words, i)
    ensures next <= |words| && rest != [] && rest[1..] == Walk(plan, words, next)
    ensures steps + rest == (steps + [plan[i]]) + rest[1..]
  {
    assert rest == [plan[i]] + Walk(plan, words, next);
  }

  /// The walk itself.
  method Follow(l: Ear, entries: seq<Entry>, bias: seq<Entry>, words: seq<string>)
      returns (tokens: seq<string>, log: seq<Correction>)
    ensures var steps := Walk(Plan(l, entries, bias, words), words, 0);
            tokens == Tokens(steps) && log == Log(steps)
  {
    tokens, log := [], [];
    ghost var steps: seq<Step> := [];
    ghost var plan := Plan(l, entries, bias, words);
    ghost var whole := Walk(plan, words, 0);
    var i := 0;
    ghost var rest := whole;
    while i < |words|
      invariant i <= |words|
      invariant tokens == Tokens(steps) && log == Log(steps)
      invariant rest == Walk(plan, words, i) && whole == steps + rest
    {
      var s := NextStep(l, entries, bias, words, i);
      assert s == plan[i];
      LogMore(steps, s);
      TokensMore(steps, s);
      var next := i + |s.words|;
      Walked(plan, words, i, next, steps, rest);
      rest := rest[1..];
      log := log + Logged(s);
      tokens := tokens + [s.token];
      i := next;
      steps := steps + [s];
    }
    assert steps + [] == steps;
  }

  /// `apply_fuzzy`.
  method ApplyFuzzy(l: Ear, entries: seq<Entry>, text: string) returns (r: string, log: seq<Correction>)
    ensures (forall e :: e in entries ==> |e.spoken| < MIN_FUZZY_LEN) ==> r == text && log == []
    ensures (exists e :: e in entries && |e.spoken| >= MIN_FUZZY_LEN) ==> Corrects(l, entries, text, r, log)
    ensures r == Output(l, entries, text)
    ensures BiasOf(entries) != [] ==> log == Log(Steps(l, entries, text))
  {
    var bias := BiasOf(entries);
    BiasIff(entries);
    if |bias| == 0 {
      return text, [];
    }
    var tokens;
    tokens, log := Follow(l, entries, bias, Words(text));
    r := Join(tokens);
    OutputCorrects(l, entries, text, Steps(l, entries, text));
  }

  // ---- What it keeps -------------------------------------------------------------------------------

  function Sources(steps: seq<Step>): seq<string>
  {
    if steps == [] then [] else steps[0].words + Sources(steps[1..])
  }

  /// The steps cut the words into groups of one or two, in order and leaving none out.
  lemma {:induction false} WalkPartitions(plan: seq<Step>, words: seq<string>, i: nat)
    requires Fits(plan, words) && i <= |words|
    ensures Sources(Walk(plan, words, i)) == words[i..]
    ensures forall s :: s in Walk(plan, words, i) ==> s in plan
    decreases |words| - i
  {
    if i < |words| {
      var next := i + |plan[i].words|;
      WalkPartitions(plan, words, next);
      assert words[i..] == words[i..next] + words[next..];
    }
  }

  /// Which of the tokens are corrections.
  function Corrected(steps: seq<Step>): (r: seq<bool>)
    ensures |r| == |steps|
  {
    seq(|steps|, k requires 0 <= k < |steps| => steps[k].line.Some?)
  }

  /// Each corrected token exchanged for what its log entry says it came from.
  function PutBack(tokens: seq<string>, corrected: seq<bool>, log: seq<Correction>): seq<string>
    requires |tokens| == |corrected|
  {
    if tokens == [] then []
    else if corrected[0] && log != [] then [log[0].from] + PutBack(tokens[1..], corrected[1..], log[1..])
    else [tokens[0]] + PutBack(tokens[1..], corrected[1..], log)
  }

  lemma {:induction false} JoinMore(w: string, rest: seq<string>)
    ensures Join([w] + rest) == if rest == [] then w else w + " " + Join(rest)
  {
    assert ([w] + rest)[1..] == rest;
  }

  lemma {:induction false} JoinGroup(group: seq<string>, rest: seq<string>)
    requires 1 <= |group| <= 2
    ensures Join(group + rest) == if rest == [] then Join(group) else Join(group) + " " + Join(rest)
  {
    if |group| == 1 {
      assert group + rest == [group[0]] + rest;
      JoinMore(group[0], rest);
    } else {
      var tail := [group[1]] + rest;
      assert group + rest == [group[0]] + tail;
      JoinMore(group[0], tail);
      JoinMore(group[1], rest);
      assert Join(group) == group[0] + " " + group[1];
      if rest != [] {
        assert group[0] + " " + (group[1] + " " + Join(rest)) == (group[0] + " " + group[1]) + " " + Join(rest);
      }
    }
  }

  /// Putting the log's `from` texts back gives the input's words again, joined by single spaces.
  lemma {:induction false} PutBackRestores(steps: seq<Step>)
    requires forall s :: s in steps ==> 1 <= |s.words| <= 2 && (s.line.None? ==> s.words == [s.token])
    ensures var back := PutBack(Tokens(steps), Corrected(steps), Log(steps));
            && Join(back) == Join(Sources(steps)) && |back| == |steps|
    ensures Sources(steps) == [] <==> steps == []
    decreases |steps|
  {
    if steps != [] {
      var s, rest := steps[0], steps[1..];
      assert s in steps;
      PutBackRestores(rest);
      FirstPutBack(steps);
      JoinGroup(s.words, Sources(rest));
      JoinMore(Join(s.words), PutBack(Tokens(rest), Corrected(rest), Log(rest)));
    }
  }

  lemma {:induction false} FirstPutBack(steps: seq<Step>)
    requires steps != [] && (steps[0].line.None? ==> steps[0].words == [steps[0].token])
    ensures var rest := steps[1..];
            PutBack(Tokens(steps), Corrected(steps), Log(steps))
            == [Join(steps[0].words)] + PutBack(Tokens(rest), Corrected(rest), Log(rest))
  {
    var rest := steps[1..];
    FirstToken(steps);
    assert Corrected(steps)[1..] == Corrected(rest) && Tokens(steps)[1..] == Tokens(rest);
    assert Log(steps) == Logged(steps[0]) + Log(rest);
    if steps[0].line.Some? {
      assert Log(steps)[1..] == Log(rest);
    } else {
      assert Log(steps) == Log(rest);
    }
  }

  /// Over any text: the steps cut its words into groups of one or two; and from the output's tokens,
  /// the log and the places of the corrections, the input is recovered up to its white space.
  lemma {:induction false} LogRecoversTheWords(l: Ear, entries: seq<Entry>, text: string)
    ensures var steps := Steps(l, entries, text);
            && Sources(steps) == Words(text)
            && (forall s :: s in steps ==> 1 <= |s.words| <= 2)
            && Join(PutBack(Tokens(steps), Corrected(steps), Log(steps))) == Join(Words(text))
  {
    var words := Words(text);
    var plan := Plan(l, entries, BiasOf(entries), words);
    WalkPartitions(plan, words, 0);
    PutBackRestores(Walk(plan, words, 0));
    assert words[0..] == words;
  }

  /// An empty log means that no word changed.
  lemma {:induction false} NothingLoggedNothingChanged(l: Ear, entries: seq<Entry>, text: string)
    requires Log(Steps(l, entries, text)) == []
    ensures Tokens(Steps(l, entries, text)) == Words(text)
  {
    var words := Words(text);
    var plan := Plan(l, entries, BiasOf(entries), words);
    WalkPartitions(plan, words, 0);
    UnloggedTokens(Walk(plan, words, 0));
    assert words[0..] == words;
  }

  lemma {:induction false} UnloggedTokens(steps: seq<Step>)
    requires Log(steps) == [] && forall s :: s in steps ==> (s.line.None? ==> s.words == [s.token])
    ensures Tokens(steps) == Sources(steps)
    decreases |steps|
  {
    if steps != [] {
      assert steps[0] in steps;
      UnloggedTokens(steps[1..]);
      FirstToken(steps);
    }
  }

  lemma {:induction false} FirstToken(steps: seq<Step>)
    requires steps != []
    ensures Tokens(steps) == [steps[0].token] + Tokens(steps[1..])
  {
  }

  /// A word that is a spoken term keeps its place and its spelling.
  lemma {:induction false} TermsSurvive(l: Ear, entries: seq<Entry>, text: string, s: Step, w: string)
    requires s in Steps(l, entries, text) && w in s.words
    requires Known(l, BiasOf(entries), FoldAll(l.fold, StripWord(l, w)))
    ensures s == Step([w], w, None)
  {
    var words := Words(text);
    var plan := Plan(l, entries, BiasOf(entries), words);
    WalkPartitions(plan, words, 0);
    var i :| 0 <= i < |plan| && plan[i] == s;
    KnownIsTerm(l, entries, w);
    PlanAt(l, entries, BiasOf(entries), words, i);
    TermStands(l, entries, words, i, w);
  }

  /// And any term, spoken or written and of any length, is left out of every pair.
  lemma {:induction false} TermsStaySingle(l: Ear, entries: seq<Entry>, text: string, s: Step, w: string)
    requires s in Steps(l, entries, text) && w in s.words && IsTerm(l, entries, w)
    ensures s.words == [w]
  {
    var words := Words(text);
    var plan := Plan(l, entries, BiasOf(entries), words);
    WalkPartitions(plan, words, 0);
    var i :| 0 <= i < |plan| && plan[i] == s;
    PlanAt(l, entries, BiasOf(entries), words, i);
    TermAlone(l, entries, BiasOf(entries), words, i, w);
  }

  lemma {:induction false} TermAlone(l: Ear, entries: seq<Entry>, bias: seq<Entry>, words: seq<string>, i: nat, w: string)
    requires i < |words| && w in StepAt(l, entries, bias, words, i).words && IsTerm(l, entries, w)
    ensures StepAt(l, entries, bias, words, i).words == [w]
  {
  }

  lemma {:induction false} TermStands(l: Ear, entries: seq<Entry>, words: seq<string>, i: nat, w: string)
    requires i < |words| && w in StepAt(l, entries, BiasOf(entries), words, i).words
    requires Known(l, BiasOf(entries), FoldAll(l.fold, StripWord(l, w))) && IsTerm(l, entries, w)
    ensures StepAt(l, entries, BiasOf(entries), words, i) == Step([w], w, None)
  {
    assert Best(l, BiasOf(entries), StripWord(l, w)).None?;
  }

  lemma {:induction false} KnownIsTerm(l: Ear, entries: seq<Entry>, w: string)
    requires Known(l, BiasOf(entries), FoldAll(l.fold, StripWord(l, w)))
    ensures IsTerm(l, entries, w)
  {
  }

  // ---- White space ---------------------------------------------------------------------------------

  /// The only white space is single spaces between other characters.
  predicate Neat(t: string)
  {
    forall i :: 0 <= i < |t| && IsSpace(t[i]) ==> t[i] == ' ' && 0 < i < |t| - 1 && !IsSpace(t[i + 1])
  }

  /// After the first word of a neat text stand one space and another neat text.
  lemma {:induction false} NeatSplits(t: string, n: nat)
    requires Neat(t) && n < |t| && IsSpace(t[n]) && (forall i :: 0 <= i < n ==> !IsSpace(t[i])) && n > 0
    ensures t == t[..n] + " " + t[n + 1..] && Neat(t[n + 1..])
  {
    var rest := t[n + 1..];
    assert forall i :: 0 <= i < |rest| ==> rest[i] == t[n + 1 + i];
  }

  lemma {:induction false} WordsAfter(w: string, rest: string)
    requires IsWord(w)
    ensures Words(w + " " + rest) == [w] + Words(rest)
  {
    var tail := " " + rest;
    assert tail[0] == ' ' && tail[1..] == rest && w + " " + rest == w + tail;
    FirstWord(w, tail);
  }

  lemma {:induction false} NeatWords(t: string)
    requires Neat(t)
    ensures Join(Words(t)) == t
    decreases |t|
  {
    if t != [] {
      var n := WordLength(t);
      var w := t[..n];
      if n == |t| {
        assert w == t && t[n..] == [];
        JoinMore(w, []);
        assert [w] + [] == [w];
      } else {
        var rest := t[n + 1..];
        NeatSplits(t, n);
        NeatWords(rest);
        WordsAfter(w, rest);
        JoinMore(w, Words(rest));
        assert rest != [];
      }
    }
  }

  lemma {:induction false} JoinIsNeat(ws: seq<string>)
    requires forall w :: w in ws ==> IsWord(w)
    ensures Neat(Join(ws))
    decreases |ws|
  {
    if ws != [] {
      var w := ws[0];
      assert w in ws && forall i :: 0 <= i < |w| ==> w[i] in w;
      if |ws| > 1 {
        var rest := ws[1..];
        JoinIsNeat(rest);
        JoinEnds(rest);
        NeatJoint(w, Join(rest));
      }
    }
  }

  lemma {:induction false} NeatJoint(w: string, rest: string)
    requires IsWord(w) && Neat(rest) && rest != [] && !IsSpace(rest[0])
    ensures Neat(w + " " + rest)
  {
    var t := w + " " + rest;
    assert forall i :: 0 <= i < |w| ==> t[i] == w[i] && w[i] in w;
    assert forall i :: 0 <= i < |rest| ==> t[|w| + 1 + i] == rest[i];
    forall i | 0 <= i < |t| && IsSpace(t[i]) ensures t[i] == ' ' && 0 < i < |t| - 1 && !IsSpace(t[i + 1]) {
      if i > |w| {
        assert t[i] == rest[i - |w| - 1];
      }
    }
  }

  /// What `apply_fuzzy` returns.
  function Output(l: Ear, entries: seq<Entry>, text: string): string
  {
    if BiasOf(entries) == [] then text else Join(Tokens(Steps(l, entries, text)))
  }

  /// When nothing is corrected, the text comes back as it was exactly if there is no term to correct
  /// towards, or its only white space is single spaces between words.
  lemma {:induction false} LosslessIff(l: Ear, entries: seq<Entry>, text: string)
    requires BiasOf(entries) == [] || Log(Steps(l, entries, text)) == []
    ensures Output(l, entries, text) == text <==> BiasOf(entries) == [] || Neat(text)
  {
    if BiasOf(entries) != [] {
      NothingLoggedNothingChanged(l, entries, text);
      JoinIsNeat(Words(text));
      if Neat(text) {
        NeatWords(text);
      }
    }
  }

  /// With any term to correct towards, a line break is turned into a space although nothing is
  /// corrected.
  lemma {:induction false} LineBreaksAreLost(l: Ear, entries: seq<Entry>)
    requires BiasOf(entries) != []
    ensures Log(Steps(l, entries, "a\nb")) == [] && Output(l, entries, "a\nb") == "a b"
  {
    BreakWords();
    TwoKept(l, entries, BiasOf(entries), ["a", "b"]);
    NothingSaid(Step(["a"], "a", None), Step(["b"], "b", None));
  }

  /// One term is enough.
  lemma {:induction false} OneTermIsEnough(l: Ear)
    ensures Output(l, [Entry("kubernetes", "kubernetes", false, false, 1)], "a\nb") == "a b"
  {
    var entries := [Entry("kubernetes", "kubernetes", false, false, 1)];
    assert BiasOf(entries) == entries + BiasOf(entries[1..]);
    LineBreaksAreLost(l, entries);
  }

  lemma {:induction false} NothingSaid(s: Step, t: Step)
    requires s.line.None? && t.line.None?
    ensures Tokens([s, t]) == [s.token, t.token] && Log([s, t]) == []
  {
    assert [s, t][1..] == [t] && [t][1..] == [];
    assert Log([t]) == Logged(t) + Log([]);
    assert Log([s, t]) == Logged(s) + Log([t]);
  }

  lemma {:induction false} TwoKept(l: Ear, entries: seq<Entry>, bias: seq<Entry>, words: seq<string>)
    requires |words| == 2 && forall w :: w in words ==> |w| == 1
    ensures Walk(Plan(l, entries, bias, words), words, 0)
            == [Step([words[0]], words[0], None), Step([words[1]], words[1], None)]
  {
    var plan := Plan(l, entries, bias, words);
    ShortIsKept(l, entries, bias, words, 0);
    ShortIsKept(l, entries, bias, words, 1);
    PlanAt(l, entries, bias, words, 0);
    PlanAt(l, entries, bias, words, 1);
    TwoSteps(plan, words);
  }

  lemma {:induction false} TwoSteps(plan: seq<Step>, words: seq<string>)
    requires |words| == 2 && Fits(plan, words) && |plan[0].words| == 1 && |plan[1].words| == 1
    ensures Walk(plan, words, 0) == [plan[0], plan[1]]
  {
    assert Walk(plan, words, 2) == [];
    assert Walk(plan, words, 1) == [plan[1]] + Walk(plan, words, 2);
  }

  lemma {:induction false} BreakWords()
    ensures Words("a\nb") == ["a", "b"] && Join(["a", "b"]) == "a b"
  {
    FirstWord("a", "\nb");
    FirstWord("b", "");
    assert "a" + "\nb" == "a\nb" && "b" + "" == "b" && "\nb"[1..] == "b";
    assert Words("\nb") == Words("b");
    assert Words("b") == ["b"] + Words("");
    assert ["a", "b"][1..] == ["b"];
  }

  /// A word of one letter before another or at the end is too short to correct.
  lemma {:induction false} ShortIsKept(l: Ear, entries: seq<Entry>, bias: seq<Entry>, words: seq<string>, i: nat)
    requires i < |words| && forall w :: w in words ==> |w| == 1
    ensures StepAt(l, entries, bias, words, i) == Step([words[i]], words[i], None)
  {
    assert words[i] in words;
    StrippedIsShorter(l, words[i]);
    if i + 1 < |words| {
      assert words[i + 1] in words;
      StrippedIsShorter(l, words[i + 1]);
      TooShort(l, bias, StripWord(l, words[i]) + " " + StripWord(l, words[i + 1]));
    }
    TooShort(l, bias, StripWord(l, words[i]));
  }

  lemma {:induction false} StrippedIsShorter(l: Ear, w: string)
    ensures |StripWord(l, w)| <= |w|
  {
  }

  lemma {:induction false} TooShort(l: Ear, bias: seq<Entry>, candidate: string)
    requires |candidate| < MIN_FUZZY_LEN
    ensures Best(l, bias, candidate).None?
  {
  }

  // ---- What a correction writes --------------------------------------------------------------------

  /// t is the run at the end of w that has no letter or digit.
  predicate EndRun(l: Ear, w: string, t: string)
  {
    && |t| <= |w| && w[|w| - |t|..] == t && (forall c :: c in t ==> !l.alnum(c))
    && (|t| < |w| ==> l.alnum(w[|w| - |t| - 1]))
  }

  /// w without the runs at its two ends that have no letter or digit.
  predicate CoreOf(l: Ear, w: string, core: string)
  {
    exists a, b :: 0 <= a <= b <= |w| && CoreAt(l, w, a, b) && core == w[a..b]
  }

  predicate CoreAt(l: Ear, w: string, a: nat, b: nat)
    requires a <= b <= |w|
  {
    && (forall i :: 0 <= i < a ==> !l.alnum(w[i])) && (forall i :: b <= i < |w| ==> !l.alnum(w[i]))
    && (a < b ==> l.alnum(w[a]) && l.alnum(w[b - 1]))
  }

  lemma {:induction false} FirstLetterIs(l: Ear, w: string, i: nat)
    requires i <= |w|
    ensures forall k :: i <= k < FirstLetter(l, w, i) ==> !l.alnum(w[k])
    ensures FirstLetter(l, w, i) < |w| ==> l.alnum(w[FirstLetter(l, w, i)])
    decreases |w| - i
  {
    if i < |w| && !l.alnum(w[i]) { FirstLetterIs(l, w, i + 1); }
  }

  lemma {:induction false} LastLetterIs(l: Ear, w: string, from: nat, i: nat)
    requires from <= i <= |w|
    ensures forall k :: LastLetter(l, w, from, i) <= k < i ==> !l.alnum(w[k])
    ensures LastLetter(l, w, from, i) > from ==> l.alnum(w[LastLetter(l, w, from, i) - 1])
  {
    if from < i && !l.alnum(w[i - 1]) { LastLetterIs(l, w, from, i - 1); }
  }

  lemma {:induction false} StripIsCore(l: Ear, w: string)
    ensures CoreOf(l, w, StripWord(l, w))
  {
    var a := FirstLetter(l, w, 0);
    var b := LastLetter(l, w, a, |w|);
    FirstLetterIs(l, w, 0);
    LastLetterIs(l, w, a, |w|);
    assert CoreAt(l, w, a, b);
  }

  /// What is compared has no spaces and everything else, in order.
  lemma {:induction false} SpacesGo(a: string, b: string)
    ensures WithoutSpaces(a + b) == WithoutSpaces(a) + WithoutSpaces(b)
    ensures ' ' !in WithoutSpaces(a) && (' ' !in a ==> WithoutSpaces(a) == a)
    decreases |a|
  {
    if a == [] {
      assert a + b == b;
    } else {
      assert (a + b)[1..] == a[1..] + b && a == [a[0]] + a[1..];
      SpacesGo(a[1..], b);
    }
  }

  /// The written form, and the run that ends the last word taken unless the entry drops it.
  ghost predicate Writes(l: Ear, e: Entry, last: string, token: string)
  {
    exists t :: token == e.written + t && if e.strip then t == "" else EndRun(l, last, t)
  }

  lemma {:induction false} CarriedWrites(l: Ear, e: Entry, last: string)
    ensures Writes(l, e, last, Carried(l, last, e))
  {
    if e.strip {
      assert e.written + "" == e.written;
    } else {
      var b := LastLetter(l, last, 0, |last|);
      LastLetterIs(l, last, 0, |last|);
      forall c | c in last[b..] ensures !l.alnum(c) {
        var k :| 0 <= k < |last[b..]| && last[b..][k] == c;
        assert c == last[b + k];
      }
      assert EndRun(l, last, last[b..]);
    }
  }

  function ScoreOf(l: Ear, candidate: string, e: Entry): real
  {
    l.similarity(WithoutSpaces(FoldAll(l.fold, candidate)), WithoutSpaces(FoldAll(l.fold, e.spoken)))
  }

  /// The entry is spoken in five letters or more and near enough to the candidate, which is no term
  /// itself and, if it is one word, no beginning of this one.
  ghost predicate Near(l: Ear, entries: seq<Entry>, candidate: string, e: Entry)
  {
    var lower := FoldAll(l.fold, candidate);
    && |e.spoken| >= MIN_FUZZY_LEN && |candidate| >= MIN_FUZZY_LEN
    && (forall other :: other in entries && |other.spoken| >= MIN_FUZZY_LEN ==> FoldAll(l.fold, other.spoken) != lower)
    && (' ' in lower || !(lower <= FoldAll(l.fold, e.spoken)))
    && ScoreOf(l, candidate, e) >= FUZZY_THRESHOLD
  }

  /// Of the near entries, none scores higher than the k-th, and none before it as high.
  ghost predicate Nearest(l: Ear, entries: seq<Entry>, candidate: string, k: int)
  {
    && 0 <= k < |entries| && Near(l, entries, candidate, entries[k])
    && forall j :: 0 <= j < |entries| && Near(l, entries, candidate, entries[j]) ==>
         && ScoreOf(l, candidate, entries[j]) <= ScoreOf(l, candidate, entries[k])
         && (j < k ==> ScoreOf(l, candidate, entries[j]) < ScoreOf(l, candidate, entries[k]))
  }

  lemma {:induction false} BiasOfConcat(a: seq<Entry>, b: seq<Entry>)
    ensures BiasOf(a + b) == BiasOf(a) + BiasOf(b)
    decreases |a|
  {
    if a == [] {
      assert a + b == b;
    } else {
      assert (a + b)[1..] == a[1..] + b;
      BiasOfConcat(a[1..], b);
    }
  }

  /// Where an entry stands among those to correct towards.
  function PlaceOf(entries: seq<Entry>, k: nat): nat
    requires k <= |entries|
  {
    |BiasOf(entries[..k])|
  }

  lemma {:induction false} EntryPlaced(entries: seq<Entry>, k: nat)
    requires k < |entries| && |entries[k].spoken| >= MIN_FUZZY_LEN
    ensures PlaceOf(entries, k) < |BiasOf(entries)| && BiasOf(entries)[PlaceOf(entries, k)] == entries[k]
  {
    var tail := entries[k..];
    assert entries == entries[..k] + tail;
    BiasOfConcat(entries[..k], tail);
    assert tail[0] == entries[k];
    assert BiasOf(tail) == [entries[k]] + BiasOf(tail[1..]);
  }

  lemma {:induction false} PlacesRise(entries: seq<Entry>, j: nat, k: nat)
    requires j < k <= |entries| && |entries[j].spoken| >= MIN_FUZZY_LEN
    ensures PlaceOf(entries, j) < PlaceOf(entries, k)
  {
    var front := entries[..k];
    EntryPlaced(front, j);
    assert front[..j] == entries[..j];
  }

  lemma {:induction false} PlacedEntry(entries: seq<Entry>, p: nat) returns (k: nat)
    requires p < |BiasOf(entries)|
    ensures k < |entries| && |entries[k].spoken| >= MIN_FUZZY_LEN
    ensures PlaceOf(entries, k) == p && entries[k] == BiasOf(entries)[p]
  {
    var init, last := entries[..|entries| - 1], entries[|entries| - 1];
    assert entries == init + [last];
    BiasOfConcat(init, [last]);
    assert BiasOf([last]) == if |last.spoken| >= MIN_FUZZY_LEN then [last] else [];
    if p < |BiasOf(init)| {
      k := PlacedEntry(init, p);
      assert entries[..k] == init[..k];
    } else {
      k := |entries| - 1;
    }
  }

  lemma {:induction false} BiasMembers(entries: seq<Entry>, e: Entry)
    ensures e in BiasOf(entries) <==> e in entries && |e.spoken| >= MIN_FUZZY_LEN
  {
    if entries != [] {
      BiasMembers(entries[1..], e);
      assert entries == [entries[0]] + entries[1..];
    }
  }

  /// A score is close enough exactly when the entry is near.
  lemma {:induction false} CloseIffNear(l: Ear, entries: seq<Entry>, candidate: string, e: Entry)
    requires |candidate| >= MIN_FUZZY_LEN && !Known(l, BiasOf(entries), FoldAll(l.fold, candidate))
    requires |e.spoken| >= MIN_FUZZY_LEN
    ensures CloseScore(l, FoldAll(l.fold, candidate), e)
            == if Near(l, entries, candidate, e) then Some(ScoreOf(l, candidate, e)) else None
  {
    forall other | other in entries && |other.spoken| >= MIN_FUZZY_LEN
      ensures Spoken(l, other) != FoldAll(l.fold, candidate)
    {
      BiasMembers(entries, other);
    }
  }

  lemma {:induction false} KnownIsNotNear(l: Ear, entries: seq<Entry>, candidate: string, e: Entry)
    requires Known(l, BiasOf(entries), FoldAll(l.fold, candidate))
    ensures !Near(l, entries, candidate, e)
  {
    var other :| other in BiasOf(entries) && Spoken(l, other) == FoldAll(l.fold, candidate);
    BiasMembers(entries, other);
  }

  lemma {:induction false} HighestIsNearest(l: Ear, entries: seq<Entry>, candidate: string, p: nat) returns (k: nat)
    requires |candidate| >= MIN_FUZZY_LEN && !Known(l, BiasOf(entries), FoldAll(l.fold, candidate))
    requires Highest(CloseScores(l, BiasOf(entries), FoldAll(l.fold, candidate)), |BiasOf(entries)|) == Some(p)
    ensures Nearest(l, entries, candidate, k) && entries[k] == BiasOf(entries)[p]
  {
    var (lower, bias) := (FoldAll(l.fold, candidate), BiasOf(entries));
    var c := CloseScores(l, bias, lower);
    HighestIsFirstBest(c, |bias|);
    k := PlacedEntry(entries, p);
    CloseIffNear(l, entries, candidate, entries[k]);
    forall j | 0 <= j < |entries| && Near(l, entries, candidate, entries[j])
      ensures ScoreOf(l, candidate, entries[j]) <= ScoreOf(l, candidate, entries[k])
      ensures j < k ==> ScoreOf(l, candidate, entries[j]) < ScoreOf(l, candidate, entries[k])
    {
      EntryPlaced(entries, j);
      CloseIffNear(l, entries, candidate, entries[j]);
      assert c[PlaceOf(entries, j)] == Some(ScoreOf(l, candidate, entries[j]));
      if j < k { PlacesRise(entries, j, k); }
    }
  }

  lemma {:induction false} NearestIsOne(l: Ear, entries: seq<Entry>, candidate: string, j: int, k: int)
    requires Nearest(l, entries, candidate, j) && Nearest(l, entries, candidate, k)
    ensures j == k
  {
  }

  lemma {:induction false} NearIsFound(l: Ear, entries: seq<Entry>, candidate: string, k: nat)
    requires k < |entries| && Near(l, entries, candidate, entries[k])
    ensures Best(l, BiasOf(entries), candidate).Some?
  {
    var (lower, bias) := (FoldAll(l.fold, candidate), BiasOf(entries));
    if Known(l, bias, lower) {
      KnownIsNotNear(l, entries, candidate, entries[k]);
    } else {
      var c := CloseScores(l, bias, lower);
      HighestIsFirstBest(c, |bias|);
      EntryPlaced(entries, k);
      CloseIffNear(l, entries, candidate, entries[k]);
      assert c[PlaceOf(entries, k)].Some?;
    }
  }

  /// The entry found is the nearest, with its score; and there is one exactly if some entry is near.
  lemma {:induction false} BestIsNearest(l: Ear, entries: seq<Entry>, candidate: string)
    ensures var r := Best(l, BiasOf(entries), candidate);
            && (r.Some? <==> exists k :: Nearest(l, entries, candidate, k))
            && (forall k :: Nearest(l, entries, candidate, k) ==> r == Some((entries[k], ScoreOf(l, candidate, entries[k]))))
  {
    var (lower, bias) := (FoldAll(l.fold, candidate), BiasOf(entries));
    if Best(l, bias, candidate).Some? {
      var p := Highest(CloseScores(l, bias, lower), |bias|).value;
      var k := HighestIsNearest(l, entries, candidate, p);
      forall j | Nearest(l, entries, candidate, j) ensures j == k { NearestIsOne(l, entries, candidate, j, k); }
      CloseIffNear(l, entries, candidate, entries[k]);
      BiasMembers(entries, entries[k]);
    } else {
      forall k | Nearest(l, entries, candidate, k) ensures false { NearIsFound(l, entries, candidate, k); }
    }
  }

  /// Two words without what surrounds them, as one candidate.
  function PairText(l: Ear, words: seq<string>, i: nat): string
    requires i + 1 < |words|
  {
    StripWord(l, words[i]) + " " + StripWord(l, words[i + 1])
  }

  /// The word, without what surrounds it, is how some entry is spoken or written.
  ghost predicate SaidAsTerm(l: Ear, entries: seq<Entry>, w: string)
  {
    exists k :: 0 <= k < |entries| && FoldAll(l.fold, StripWord(l, w)) in
                  [FoldAll(l.fold, entries[k].spoken), FoldAll(l.fold, entries[k].written)]
  }

  lemma {:induction false} TermIff(l: Ear, entries: seq<Entry>, w: string)
    ensures IsTerm(l, entries, w) <==> SaidAsTerm(l, entries, w)
  {
  }

  /// The p-th entry takes words i and i + 1 together: neither is a term, it is the nearest to the two,
  /// and at least as near as the nearest to the first alone.
  ghost predicate TakesPair(l: Ear, entries: seq<Entry>, words: seq<string>, i: nat, p: int)
    requires i < |words|
  {
    && i + 1 < |words| && !SaidAsTerm(l, entries, words[i]) && !SaidAsTerm(l, entries, words[i + 1])
    && Nearest(l, entries, PairText(l, words, i), p)
    && forall k :: Nearest(l, entries, StripWord(l, words[i]), k) ==>
         ScoreOf(l, PairText(l, words, i), entries[p]) >= ScoreOf(l, StripWord(l, words[i]), entries[k])
  }

  /// What is done at word i: a pair taken is replaced and logged; a single word is replaced if an entry
  /// is near, and logged if that changes it; and any other word is kept.
  ghost predicate Right(l: Ear, entries: seq<Entry>, words: seq<string>, i: nat, s: Step)
    requires i < |words|
  {
    && 1 <= |s.words| <= 2
    && (|s.words| == 2 <==> exists p :: TakesPair(l, entries, words, i, p))
    && (forall p :: TakesPair(l, entries, words, i, p) ==> PairRight(l, entries[p], words, i, s))
    && (|s.words| == 1 ==> s.words == [words[i]])
    && (|s.words| == 1 ==> forall k :: Nearest(l, entries, StripWord(l, words[i]), k) ==> SingleRight(l, entries[k], words[i], s))
    && (|s.words| == 1 && s.token != words[i] ==> exists k :: Nearest(l, entries, StripWord(l, words[i]), k))
    && (s.line.None? ==> s.token == words[i])
  }

  ghost predicate PairRight(l: Ear, e: Entry, words: seq<string>, i: nat, s: Step)
    requires i + 1 < |words|
  {
    s.words == [words[i], words[i + 1]] && Writes(l, e, words[i + 1], s.token) && s.line == Some(e.line)
  }

  ghost predicate SingleRight(l: Ear, e: Entry, word: string, s: Step)
  {
    Writes(l, e, word, s.token) && s.line == if s.token == word then None else Some(e.line)
  }

  lemma {:induction false} PairFound(l: Ear, entries: seq<Entry>, words: seq<string>, i: nat, pair: Option<(Entry, real)>,
                                     single: Option<(Entry, real)>)
    requires i < |words| && pair == PairMatch(l, entries, BiasOf(entries), words, i)
    requires single == Best(l, BiasOf(entries), StripWord(l, words[i]))
    ensures pair.Some? && (single.None? || pair.value.1 >= single.value.1)
            <==> exists p :: TakesPair(l, entries, words, i, p)
    ensures forall p :: TakesPair(l, entries, words, i, p) ==> pair.Some? && pair.value.0 == entries[p]
  {
    BestIsNearest(l, entries, StripWord(l, words[i]));
    if i + 1 < |words| {
      TermIff(l, entries, words[i]);
      TermIff(l, entries, words[i + 1]);
      BestIsNearest(l, entries, PairText(l, words, i));
      if pair.Some? && (single.None? || pair.value.1 >= single.value.1) {
        var p :| Nearest(l, entries, PairText(l, words, i), p);
        assert TakesPair(l, entries, words, i, p);
      }
    }
  }

  lemma {:induction false} StepIsRight(l: Ear, entries: seq<Entry>, words: seq<string>, i: nat)
    requires i < |words|
    ensures Right(l, entries, words, i, StepAt(l, entries, BiasOf(entries), words, i))
  {
    var bias := BiasOf(entries);
    var (pair, single) := (PairMatch(l, entries, bias, words, i), Best(l, bias, StripWord(l, words[i])));
    PairFound(l, entries, words, i, pair, single);
    if pair.Some? && (single.None? || pair.value.1 >= single.value.1) {
      PairIsRight(l, entries, words, i, pair.value.0);
    } else {
      BestIsNearest(l, entries, StripWord(l, words[i]));
      SingleIsRight(l, entries, words, i, single);
    }
  }

  lemma {:induction false} PairIsRight(l: Ear, entries: seq<Entry>, words: seq<string>, i: nat, e: Entry)
    requires i + 1 < |words| && exists p :: TakesPair(l, entries, words, i, p)
    requires forall p :: TakesPair(l, entries, words, i, p) ==> e == entries[p]
    ensures Right(l, entries, words, i, Step([words[i], words[i + 1]], Carried(l, words[i + 1], e), Some(e.line)))
  {
    CarriedWrites(l, e, words[i + 1]);
  }

  lemma {:induction false} SingleIsRight(l: Ear, entries: seq<Entry>, words: seq<string>, i: nat, single: Option<(Entry, real)>)
    requires i < |words| && forall p :: !TakesPair(l, entries, words, i, p)
    requires single.Some? <==> exists k :: Nearest(l, entries, StripWord(l, words[i]), k)
    requires forall k :: Nearest(l, entries, StripWord(l, words[i]), k) ==> single.Some? && single.value.0 == entries[k]
    ensures var token := if single.Some? then Carried(l, words[i], single.value.0) else words[i];
            Right(l, entries, words, i, Step([words[i]], token, if token != words[i] then Some(single.value.0.line) else None))
  {
    if single.Some? { CarriedWrites(l, single.value.0, words[i]); }
  }

  /// The steps cut the words, and each of them is what is to be done where it stands.
  ghost predicate AllRight(l: Ear, entries: seq<Entry>, words: seq<string>, steps: seq<Step>)
  {
    && Sources(steps) == words
    && forall k :: 0 <= k < |steps| ==>
         var i := |Sources(steps[..k])|; i < |words| && Right(l, entries, words, i, steps[k])
  }

  lemma {:induction false} SourcesMore(steps: seq<Step>, s: Step)
    ensures Sources(steps + [s]) == Sources(steps) + s.words
  {
    if steps == [] {
      assert [s][1..] == [] && [] + [s] == [s];
    } else {
      assert (steps + [s])[1..] == steps[1..] + [s];
      SourcesMore(steps[1..], s);
    }
  }

  /// The k-th step taken is the one planned for the word it begins at.
  lemma {:induction false} WalkAt(plan: seq<Step>, words: seq<string>, i: nat, k: nat)
    requires Fits(plan, words) && i <= |words| && k < |Walk(plan, words, i)|
    ensures var at := i + |Sources(Walk(plan, words, i)[..k])|;
            at < |words| && Walk(plan, words, i)[k] == plan[at]
    decreases k
  {
    var steps := Walk(plan, words, i);
    if k > 0 {
      var next := i + |plan[i].words|;
      WalkAt(plan, words, next, k - 1);
      assert steps[..k] == [plan[i]] + Walk(plan, words, next)[..k - 1];
      assert ([plan[i]] + Walk(plan, words, next)[..k - 1])[1..] == Walk(plan, words, next)[..k - 1];
    }
  }

  lemma {:induction false} StepsAreRight(l: Ear, entries: seq<Entry>, text: string)
    ensures AllRight(l, entries, Words(text), Steps(l, entries, text))
  {
    var words := Words(text);
    var plan := Plan(l, entries, BiasOf(entries), words);
    var steps := Walk(plan, words, 0);
    WalkPartitions(plan, words, 0);
    assert words[0..] == words;
    forall k | 0 <= k < |steps|
      ensures var i := |Sources(steps[..k])|; i < |words| && Right(l, entries, words, i, steps[k])
    {
      WalkAt(plan, words, 0, k);
      var i := |Sources(steps[..k])|;
      PlanAt(l, entries, BiasOf(entries), words, i);
      StepIsRight(l, entries, words, i);
    }
  }

  /// How many of the steps log something.
  function Logging(steps: seq<Step>): nat
  {
    if steps == [] then 0 else (if steps[0].line.Some? then 1 else 0) + Logging(steps[1..])
  }

  /// The log has an entry for each of these, in order: the words taken, the token, the entry's line.
  ghost predicate LogOf(steps: seq<Step>, log: seq<Correction>)
  {
    && |log| == Logging(steps)
    && forall k :: 0 <= k < |steps| && steps[k].line.Some? ==>
         var n := Logging(steps[..k]);
         n < |log| && log[n] == Correction(Join(steps[k].words), steps[k].token, steps[k].line.value)
  }

  lemma {:induction false} LogIs(steps: seq<Step>)
    ensures LogOf(steps, Log(steps))
    decreases |steps|
  {
    if steps != [] {
      var rest := steps[1..];
      LogIs(rest);
      forall k | 0 <= k < |steps| && steps[k].line.Some?
        ensures var n := Logging(steps[..k]);
                n < |Log(steps)| && Log(steps)[n] == Correction(Join(steps[k].words), steps[k].token, steps[k].line.value)
      {
        if k > 0 {
          assert steps[..k][1..] == rest[..k - 1];
          assert rest[k - 1] == steps[k];
        }
      }
    }
  }

  /// The text is that of the tokens of such steps, and the log is theirs.
  ghost predicate Corrects(l: Ear, entries: seq<Entry>, text: string, r: string, log: seq<Correction>)
  {
    exists steps :: && AllRight(l, entries, Words(text), steps) && LogOf(steps, log)
                    && r == Join(Tokens(steps))
  }

  lemma {:induction false} OutputCorrects(l: Ear, entries: seq<Entry>, text: string, steps: seq<Step>)
    requires steps == Steps(l, entries, text)
    ensures Corrects(l, entries, text, Join(Tokens(steps)), Log(steps))
  {
    StepsAreRight(l, entries, text);
    LogIs(steps);
  }

  lemma {:induction false} BiasIff(entries: seq<Entry>)
    ensures BiasOf(entries) == [] <==> forall e :: e in entries ==> |e.spoken| < MIN_FUZZY_LEN
  {
    forall e ensures e in BiasOf(entries) <==> e in entries && |e.spoken| >= MIN_FUZZY_LEN { BiasMembers(entries, e); }
    assert BiasOf(entries) != [] ==> BiasOf(entries)[0] in BiasOf(entries);
  }
}
