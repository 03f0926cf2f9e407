// Per-application profiles: the selection at run time (crates/config/src/profile.rs) and the overlap
// warnings computed from the patterns alone (crates/config/src/validate.rs).
//
// Lower-casing is a per-character fold; lengths are counted in bytes.

module Profiles {
  import opened Common
  import opened Text

  datatype Kind = BundleId | ProcessName | WindowClass

  datatype App = App(bundle: Option<string>, process: Option<string>, class_: Option<string>)

  datatype Profile = Profile(name: string, kind: Kind, pattern: string)

  datatype Reason =
    | OnlyMatch
    | MoreSpecificKind(beat: string)
    | ExactOverPrefix(beat: string)
    | LongerPrefix(beat: string)
    | FileOrder(beat: string)

  /// Lower-casing makes stars of stars and of nothing else.
  ghost predicate KeepsStars(fold: Fold)
  {
    fold('*') == ['*'] && forall c :: c != '*' ==> '*' !in fold(c)
  }

  predicate Starred(s: string) { s != [] && s[|s| - 1] == '*' }

  /// `strip_suffix('*')`, which takes one star, on a starred string.
  function Stem(s: string): string
    requires Starred(s)
  {
    s[..|s| - 1]
  }

  /// `trim_end_matches('*')`, which takes them all.
  function TrimStars(s: string): (r: string)
    ensures |r| <= |s|
  {
    if Starred(s) then TrimStars(Stem(s)) else s
  }

  /// The strings that a lower-cased pattern accepts.
  predicate Accepts(pattern: string, actual: string)
  {
    if Starred(pattern) then Stem(pattern) <= actual else actual == pattern
  }

  function Field(kind: Kind, app: App): Option<string>
  {
    match kind
    case BundleId => app.bundle
    case ProcessName => app.process
    case WindowClass => app.class_
  }

  /// `Matcher::matches`.
  predicate Matches(fold: Fold, p: Profile, app: App)
  {
    var actual := Field(p.kind, app);
    actual.Some? && Accepts(FoldAll(fold, p.pattern), FoldAll(fold, actual.value))
  }

  /// The name by which an application goes for a kind of pattern.
  predicate GoesBy(app: App, kind: Kind, name: string)
  {
    || (kind.BundleId? && app.bundle == Some(name)) || (kind.ProcessName? && app.process == Some(name))
    || (kind.WindowClass? && app.class_ == Some(name))
  }

  /// A pattern with a star stands for its stem and anything after it, and any other for itself.
  ghost predicate StandsFor(pattern: string, name: string)
  {
    || (pattern == name && !Starred(pattern))
    || exists stem, rest :: pattern == stem + "*" && name == stem + rest
  }

  lemma {:induction false} AcceptsIff(pattern: string, name: string)
    ensures Accepts(pattern, name) <==> StandsFor(pattern, name)
  {
    if Starred(pattern) {
      assert pattern == Stem(pattern) + "*";
      if Stem(pattern) <= name { assert name == Stem(pattern) + name[|Stem(pattern)|..]; }
    }
    if stem, rest :| pattern == stem + "*" && name == stem + rest {
      assert Stem(pattern) == stem;
    }
  }

  /// A profile matches an application whose name of that kind its pattern stands for, in lower case.
  lemma {:induction false} MatchesIff(fold: Fold, p: Profile, app: App)
    ensures Matches(fold, p, app)
            <==> exists name :: GoesBy(app, p.kind, name) && StandsFor(FoldAll(fold, p.pattern), FoldAll(fold, name))
  {
    var field := Field(p.kind, app);
    forall name ensures GoesBy(app, p.kind, name) <==> field == Some(name) {}
    if field.Some? { AcceptsIff(FoldAll(fold, p.pattern), FoldAll(fold, field.value)); }
  }

  /// What is left of a text when the stars at its end are taken away.
  lemma {:induction false} TrimmedOfStars(s: string)
    ensures !Starred(TrimStars(s)) && TrimStars(s) <= s && forall i :: |TrimStars(s)| <= i < |s| ==> s[i] == '*'
    decreases |s|
  {
    if Starred(s) { TrimmedOfStars(Stem(s)); }
  }

  // ---- Selection -----------------------------------------------------------------------------------

  datatype Rank = Rank(kind: nat, exact: nat, length: nat)

  /// `rank`, on the pattern as it is written.
  function RankOf(p: Profile): Rank
  {
    Rank(match p.kind case BundleId => 3 case ProcessName => 2 case WindowClass => 1,
         if Starred(p.pattern) then 0 else 1,
         Size(TrimStars(p.pattern)))
  }

  predicate Below(a: Rank, b: Rank)
  {
    a.kind < b.kind || (a.kind == b.kind && (a.exact < b.exact || (a.exact == b.exact && a.length < b.length)))
  }

  function Explain(winner: Profile, loser: Profile): Reason
  {
    var (w, l) := (RankOf(winner), RankOf(loser));
    if w.kind != l.kind then MoreSpecificKind(loser.name)
    else if w.exact != l.exact then ExactOverPrefix(loser.name)
    else if w.length != l.length then LongerPrefix(loser.name)
    else FileOrder(loser.name)
  }

  /// The ranks of the profiles that match, in file order.
  function Hits(fold: Fold, ps: seq<Profile>, app: App): (h: seq<Option<Rank>>)
    ensures |h| == |ps|
    ensures forall k :: 0 <= k < |ps| ==> h[k] == if Matches(fold, ps[k], app) then Some(RankOf(ps[k])) else None
  {
    seq(|ps|, k requires 0 <= k < |ps| => if Matches(fold, ps[k], app) then Some(RankOf(ps[k])) else None)
  }

  /// The winner among the first n, and the one it is explained against, if any.
  datatype Choice = Choice(winner: nat, beaten: Option<nat>)

  function Chosen(h: seq<Option<Rank>>, n: nat): (r: Option<Choice>)
    requires n <= |h|
    ensures r.Some? ==> r.value.winner < n && h[r.value.winner].Some?
    ensures r.Some? && r.value.beaten.Some? ==> r.value.beaten.value < n
  {
    if n == 0 then None
    else
      var before := Chosen(h, n - 1);
      if h[n - 1].None? then before
      else if before.None? then Some(Choice(n - 1, None))
      else if Below(h[before.value.winner].value, h[n - 1].value) then Some(Choice(n - 1, Some(before.value.winner)))
      else if before.value.beaten.None? then Some(Choice(before.value.winner, Some(n - 1)))
      else before
  }

  function ReasonFor(ps: seq<Profile>, c: Choice): Reason
    requires c.winner < |ps| && (c.beaten.Some? ==> c.beaten.value < |ps|)
  {
    if c.beaten.None? then OnlyMatch else Explain(ps[c.winner], ps[c.beaten.value])
  }

  /// `select`.
  function Selected(fold: Fold, ps: seq<Profile>, app: App): Option<(Profile, Reason)>
  {
    var c := Chosen(Hits(fold, ps, app), |ps|);
    if c.None? then None else Some((ps[c.value.winner], ReasonFor(ps, c.value)))
  }

  lemma {:induction false} ChosenMore(h: seq<Option<Rank>>, n: nat)
    requires n < |h|
    ensures var (before, after) := (Chosen(h, n), Chosen(h, n + 1));
            && (h[n].None? ==> after == before)
            && (h[n].Some? && before.None? ==> after == Some(Choice(n, None)))
            && (h[n].Some? && before.Some? ==>
                  after == Some(if Below(h[before.value.winner].value, h[n].value) then Choice(n, Some(before.value.winner))
                                else if before.value.beaten.None? then Choice(before.value.winner, Some(n)) else before.value))
  {
  }

  method Select(fold: Fold, ps: seq<Profile>, app: App) returns (r: Option<(Profile, Reason)>)
    ensures r == Selected(fold, ps, app)
    ensures Right(fold, ps, app, r)
  {
    ghost var h := Hits(fold, ps, app);
    var winner: Option<Profile> := None;
    var reason := OnlyMatch;
    for i := 0 to |ps|
      invariant var c := Chosen(h, i);
                if c.None? then winner == None && reason == OnlyMatch
                else winner == Some(ps[c.value.winner]) && reason == ReasonFor(ps, c.value)
    {
      var contender := ps[i];
      ChosenMore(h, i);
      if Matches(fold, contender, app) {
        if winner.None? {
          winner := Some(contender);
        } else if Below(RankOf(winner.value), RankOf(contender)) {
          reason := Explain(contender, winner.value);
          winner := Some(contender);
        } else if Below(RankOf(contender), RankOf(winner.value)) {
          if reason == OnlyMatch { reason := Explain(winner.value, contender); }
        } else if reason == OnlyMatch {
          reason := FileOrder(contender.name);
        }
      }
    }
    r := if winner.None? then None else Some((winner.value, reason));
    SelectedIsRight(fold, ps, app, r);
  }

  /// The winner is a match, no match outranks it, and every match before it ranks strictly lower; the
  /// reason is "only match" exactly when it is, and otherwise explains it against another match.
  lemma {:induction false} ChosenIsBest(h: seq<Option<Rank>>, n: nat)
    requires n <= |h|
    ensures var c := Chosen(h, n);
            if c.None? then forall k :: 0 <= k < n ==> h[k].None?
            else
              var (w, b) := (c.value.winner, c.value.beaten);
              && (forall k :: 0 <= k < n && h[k].Some? ==> !Below(h[w].value, h[k].value))
              && (forall k :: 0 <= k < w && h[k].Some? ==> Below(h[k].value, h[w].value))
              && (b.None? <==> forall k :: 0 <= k < n && h[k].Some? ==> k == w)
              && (b.Some? ==> b.value != w && h[b.value].Some?)
  {
    if n > 0 {
      ChosenIsBest(h, n - 1);
    }
  }

  /// Bundle ids before process names before window classes; of one kind, an exact pattern before one
  /// with a star; and of these the one that is longer without its stars.
  predicate Prefers(a: Profile, b: Profile)
  {
    || (a.kind.BundleId? && !b.kind.BundleId?) || (a.kind.ProcessName? && b.kind.WindowClass?)
    || (a.kind == b.kind && !Starred(a.pattern) && Starred(b.pattern))
    || (a.kind == b.kind && Starred(a.pattern) == Starred(b.pattern) && Size(TrimStars(a.pattern)) > Size(TrimStars(b.pattern)))
  }

  lemma {:induction false} PreferenceIs(a: Profile, b: Profile)
    ensures Below(RankOf(b), RankOf(a)) <==> Prefers(a, b)
  {
  }

  /// Why a profile that no other is preferred to wins against another.
  predicate Explains(winner: Profile, loser: Profile, why: Reason)
  {
    if winner.kind != loser.kind then why == MoreSpecificKind(loser.name)
    else if Starred(winner.pattern) != Starred(loser.pattern) then why == ExactOverPrefix(loser.name)
    else if Size(TrimStars(winner.pattern)) != Size(TrimStars(loser.pattern)) then why == LongerPrefix(loser.name)
    else why == FileOrder(loser.name)
  }

  lemma {:induction false} ExplanationIs(winner: Profile, loser: Profile)
    ensures Explains(winner, loser, Explain(winner, loser))
  {
  }

  /// Profile w matches; no match is preferred to it, and it is preferred to every match before it.
  ghost predicate Wins(fold: Fold, ps: seq<Profile>, app: App, n: nat, w: int)
    requires n <= |ps|
  {
    && 0 <= w < n && Matches(fold, ps[w], app)
    && forall k :: 0 <= k < n && k != w && Matches(fold, ps[k], app) ==>
         if k < w then Prefers(ps[w], ps[k]) else !Prefers(ps[k], ps[w])
  }

  /// The one it is explained against: of the matches before it the one that would have won, or if there
  /// is none the first match after it.
  ghost predicate RunnerUp(fold: Fold, ps: seq<Profile>, app: App, n: nat, w: nat, b: int)
    requires w < n <= |ps|
  {
    || Wins(fold, ps, app, w, b)
    || (w < b < n && Matches(fold, ps[b], app) && forall k :: 0 <= k < b && k != w ==> !Matches(fold, ps[k], app))
  }

  /// What is known of the choice among the first n.
  ghost predicate Settles(fold: Fold, ps: seq<Profile>, app: App, n: nat, c: Option<Choice>)
    requires n <= |ps|
  {
    if c.None? then forall k :: 0 <= k < n ==> !Matches(fold, ps[k], app)
    else
      && Wins(fold, ps, app, n, c.value.winner)
      && if c.value.beaten.None? then forall k :: 0 <= k < n && Matches(fold, ps[k], app) ==> k == c.value.winner
         else RunnerUp(fold, ps, app, n, c.value.winner, c.value.beaten.value)
  }

  lemma {:induction false} NewWinner(fold: Fold, ps: seq<Profile>, app: App, n: nat, w: nat)
    requires n < |ps| && Matches(fold, ps[n], app) && Wins(fold, ps, app, n, w) && Prefers(ps[n], ps[w])
    ensures Wins(fold, ps, app, n + 1, n) && RunnerUp(fold, ps, app, n + 1, n, w)
  {
    forall k | 0 <= k < n && Matches(fold, ps[k], app) ensures Prefers(ps[n], ps[k]) {
      if k != w {
        if k < w { Asymmetric(ps[w], ps[k]); }
        Follows(ps[n], ps[w], ps[k]);
      }
    }
  }

  lemma {:induction false} Asymmetric(a: Profile, b: Profile)
    requires Prefers(a, b)
    ensures !Prefers(b, a)
  {
  }

  lemma {:induction false} OldWinner(fold: Fold, ps: seq<Profile>, app: App, n: nat, c: Choice)
    requires n < |ps| && Settles(fold, ps, app, n, Some(c))
    requires Matches(fold, ps[n], app) ==> !Prefers(ps[n], ps[c.winner])
    ensures Wins(fold, ps, app, n + 1, c.winner)
    ensures c.beaten.Some? ==> RunnerUp(fold, ps, app, n + 1, c.winner, c.beaten.value)
    ensures c.beaten.None? && Matches(fold, ps[n], app) ==> RunnerUp(fold, ps, app, n + 1, c.winner, n)
  {
  }

  lemma {:induction false} ChosenWins(fold: Fold, ps: seq<Profile>, app: App, n: nat)
    requires n <= |ps|
    ensures Settles(fold, ps, app, n, Chosen(Hits(fold, ps, app), n))
  {
    if n > 0 {
      ChosenWins(fold, ps, app, n - 1);
      var (last, before) := (n - 1, Chosen(Hits(fold, ps, app), n - 1));
      if before.Some? {
        PreferenceIs(ps[last], ps[before.value.winner]);
        if Matches(fold, ps[last], app) && Prefers(ps[last], ps[before.value.winner]) {
          NewWinner(fold, ps, app, last, before.value.winner);
        } else {
          OldWinner(fold, ps, app, last, before.value);
        }
      }
    }
  }

  /// What is preferred to the winner is preferred to all that the winner is not less preferred than.
  lemma {:induction false} Follows(a: Profile, b: Profile, c: Profile)
    requires Prefers(a, b) && !Prefers(c, b)
    ensures Prefers(a, c)
  {
  }

  /// The profile selected is the most preferred of those that match, the first of these in the file, and
  /// the reason names another match and says why it lost, or that there is none.
  ghost predicate Right(fold: Fold, ps: seq<Profile>, app: App, r: Option<(Profile, Reason)>)
  {
    if r.None? then forall k :: 0 <= k < |ps| ==> !Matches(fold, ps[k], app)
    else exists w :: && Wins(fold, ps, app, |ps|, w) && r.value.0 == ps[w]
                     && if r.value.1 == OnlyMatch then forall k :: 0 <= k < |ps| && Matches(fold, ps[k], app) ==> k == w
                        else exists b :: RunnerUp(fold, ps, app, |ps|, w, b) && Explains(ps[w], ps[b], r.value.1)
  }

  lemma {:induction false} SelectedIsRight(fold: Fold, ps: seq<Profile>, app: App, r: Option<(Profile, Reason)>)
    requires r == Selected(fold, ps, app)
    ensures Right(fold, ps, app, r)
  {
    ChosenWins(fold, ps, app, |ps|);
    var c := Chosen(Hits(fold, ps, app), |ps|);
    if c.Some? && c.value.beaten.Some? { ExplanationIs(ps[c.value.winner], ps[c.value.beaten.value]); }
  }

  // ---- Static overlaps -----------------------------------------------------------------------------

  datatype Why = ExactBeats | LongerBeats | FirstInFile

  datatype Overlap = Overlap(winner: string, loser: string, why: Why)

  /// `patterns_overlap`, on lower-cased patterns.
  predicate PatternsOverlap(a: string, b: string)
  {
    if Starred(a) then
      if Starred(b) then Stem(b) <= Stem(a) || Stem(a) <= Stem(b) else Stem(a) <= b
    else if Starred(b) then Stem(b) <= a
    else a == b
  }

  /// Who wins, of two patterns in file order with or without a star and of the given lengths.
  function Verdict(a: string, starA: bool, lengthA: nat, b: string, starB: bool, lengthB: nat): Overlap
  {
    if starA != starB then if starB then Overlap(a, b, ExactBeats) else Overlap(b, a, ExactBeats)
    else if lengthA != lengthB then if lengthA > lengthB then Overlap(a, b, LongerBeats) else Overlap(b, a, LongerBeats)
    else Overlap(a, b, FirstInFile)
  }

  /// The warning for two profiles in file order.
  function Report(fold: Fold, a: Profile, b: Profile): Option<Overlap>
  {
    var (pa, pb) := (FoldAll(fold, a.pattern), FoldAll(fold, b.pattern));
    if a.kind != b.kind || !PatternsOverlap(pa, pb) then None
    else Some(Verdict(a.name, Starred(pa), Size(TrimStars(pa)), b.name, Starred(pb), Size(TrimStars(pb))))
  }

  function Listed(o: Option<Overlap>): seq<Overlap> { if o.Some? then [o.value] else [] }

  /// The warnings of ps[i] against ps[j..], in order.
  function Row(fold: Fold, ps: seq<Profile>, i: nat, j: nat): seq<Overlap>
    requires i < |ps| && j <= |ps|
    decreases |ps| - j
  {
    if j == |ps| then [] else Listed(Report(fold, ps[i], ps[j])) + Row(fold, ps, i, j + 1)
  }

  function Rows(fold: Fold, ps: seq<Profile>, i: nat): seq<Overlap>
    requires i <= |ps|
    decreases |ps| - i
  {
    if i == |ps| then [] else Row(fold, ps, i, i + 1) + Rows(fold, ps, i + 1)
  }

  datatype Pair = Pair(i: nat, k: nat)

  predicate Earlier(p: Pair, q: Pair) { p.i < q.i || (p.i == q.i && p.k < q.k) }

  /// The warnings are those of the pairs, which come in file order, and every pair with a warning is
  /// among them.
  ghost predicate ListsPairs(fold: Fold, ps: seq<Profile>, from: nat, pairs: seq<Pair>, errors: seq<Overlap>)
  {
    && |pairs| == |errors|
    && (forall n :: 0 <= n < |pairs| ==> from <= pairs[n].i && Warns(fold, ps, pairs[n], errors[n]))
    && (forall m, n :: 0 <= m < n < |pairs| ==> Earlier(pairs[m], pairs[n]))
    && (forall p: Pair, o :: from <= p.i && Warns(fold, ps, p, o) ==> p in pairs)
  }

  ghost predicate Warns(fold: Fold, ps: seq<Profile>, p: Pair, o: Overlap)
  {
    p.i < p.k < |ps| && Report(fold, ps[p.i], ps[p.k]) == Some(o)
  }

  ghost predicate ListsRow(fold: Fold, ps: seq<Profile>, i: nat, j: nat, pairs: seq<Pair>, errors: seq<Overlap>)
  {
    && |pairs| == |errors|
    && (forall n :: 0 <= n < |pairs| ==> pairs[n].i == i && j <= pairs[n].k && Warns(fold, ps, pairs[n], errors[n]))
    && (forall m, n :: 0 <= m < n < |pairs| ==> Earlier(pairs[m], pairs[n]))
    && (forall p: Pair, o :: p.i == i && j <= p.k && Warns(fold, ps, p, o) ==> p in pairs)
  }

  lemma {:induction false} RowListed(fold: Fold, ps: seq<Profile>, i: nat, j: nat) returns (pairs: seq<Pair>)
    requires i < j <= |ps|
    ensures ListsRow(fold, ps, i, j, pairs, Row(fold, ps, i, j))
    decreases |ps| - j
  {
    pairs := [];
    if j < |ps| {
      var rest := RowListed(fold, ps, i, j + 1);
      var said := Report(fold, ps[i], ps[j]);
      if said.Some? {
        pairs := [Pair(i, j)] + rest;
        RowStarts(fold, ps, i, j, said.value, rest, Row(fold, ps, i, j + 1));
      } else {
        pairs := rest;
        RowGoesOn(fold, ps, i, j, rest, Row(fold, ps, i, j + 1));
        assert [] + Row(fold, ps, i, j + 1) == Row(fold, ps, i, j + 1);
      }
    }
  }

  lemma {:induction false} RowGoesOn(fold: Fold, ps: seq<Profile>, i: nat, j: nat, rest: seq<Pair>, more: seq<Overlap>)
    requires i < j < |ps| && ListsRow(fold, ps, i, j + 1, rest, more) && forall o :: !Warns(fold, ps, Pair(i, j), o)
    ensures ListsRow(fold, ps, i, j, rest, more)
  {
    forall p: Pair, o | p.i == i && j <= p.k && Warns(fold, ps, p, o) ensures p in rest {
      assert p.k == j ==> p == Pair(i, j);
    }
  }

  lemma {:induction false} RowStarts(fold: Fold, ps: seq<Profile>, i: nat, j: nat, said: Overlap,
                                     rest: seq<Pair>, more: seq<Overlap>)
    requires i < j < |ps| && ListsRow(fold, ps, i, j + 1, rest, more) && Warns(fold, ps, Pair(i, j), said)
    ensures ListsRow(fold, ps, i, j, [Pair(i, j)] + rest, [said] + more)
  {
    var (pairs, errors) := ([Pair(i, j)] + rest, [said] + more);
    forall n | 0 <= n < |pairs| ensures pairs[n].i == i && j <= pairs[n].k && Warns(fold, ps, pairs[n], errors[n]) {
      if n > 0 { assert Warns(fold, ps, rest[n - 1], more[n - 1]); }
    }
    forall m, n | 0 <= m < n < |pairs| ensures Earlier(pairs[m], pairs[n]) {
      if m > 0 { assert Earlier(rest[m - 1], rest[n - 1]); }
    }
    forall p: Pair, o | p.i == i && j <= p.k && Warns(fold, ps, p, o) ensures p in [Pair(i, j)] + rest {
      if p.k == j { assert p == Pair(i, j); }
    }
  }

  lemma {:induction false} RowsFrom(fold: Fold, ps: seq<Profile>, from: nat)
    requires from < |ps|
    ensures Rows(fold, ps, from) == Row(fold, ps, from, from + 1) + Rows(fold, ps, from + 1)
  {
  }

  lemma {:induction false} RowsListed(fold: Fold, ps: seq<Profile>, from: nat) returns (pairs: seq<Pair>)
    requires from <= |ps|
    ensures ListsPairs(fold, ps, from, pairs, Rows(fold, ps, from))
    decreases |ps| - from
  {
    if from == |ps| {
      return [];
    }
    var row := RowListed(fold, ps, from, from + 1);
    var rest := RowsListed(fold, ps, from + 1);
    pairs := row + rest;
    var (first, more) := (Row(fold, ps, from, from + 1), Rows(fold, ps, from + 1));
    RowsFrom(fold, ps, from);
    RowThenRest(fold, ps, from, row, rest, first, more);
  }

  lemma {:induction false} RowThenRest(fold: Fold, ps: seq<Profile>, from: nat, row: seq<Pair>, rest: seq<Pair>,
                                       first: seq<Overlap>, more: seq<Overlap>)
    requires ListsRow(fold, ps, from, from + 1, row, first) && ListsPairs(fold, ps, from + 1, rest, more)
    ensures ListsPairs(fold, ps, from, row + rest, first + more)
  {
  }

  ghost predicate Complete(fold: Fold, ps: seq<Profile>, errors: seq<Overlap>)
  {
    exists pairs :: ListsPairs(fold, ps, 0, pairs, errors)
  }

  lemma {:induction false} RowsComplete(fold: Fold, ps: seq<Profile>, errors: seq<Overlap>)
    requires errors == Rows(fold, ps, 0)
    ensures Complete(fold, ps, errors)
  {
    var pairs := RowsListed(fold, ps, 0);
  }

  /// `report_overlaps`.
  method ReportOverlaps(fold: Fold, ps: seq<Profile>) returns (errors: seq<Overlap>)
    ensures errors == Rows(fold, ps, 0)
    ensures Complete(fold, ps, errors)
  {
    errors := [];
    for i := 0 to |ps|
      invariant Rows(fold, ps, 0) == errors + Rows(fold, ps, i)
    {
      ghost var (before, after) := (errors, Rows(fold, ps, i + 1));
      Assoc(before, Row(fold, ps, i, i + 1), after);
      for j := i + 1 to |ps|
        invariant before + Row(fold, ps, i, i + 1) == errors + Row(fold, ps, i, j)
      {
        var o := Report(fold, ps[i], ps[j]);
        Assoc(errors, Listed(o), Row(fold, ps, i, j + 1));
        errors := errors + Listed(o);
      }
      assert errors + [] == errors;
    }
    assert errors + [] == errors;
    RowsComplete(fold, ps, errors);
  }

  lemma {:induction false} Assoc<T>(a: seq<T>, b: seq<T>, c: seq<T>)
    ensures a + (b + c) == (a + b) + c
  {
  }

  // ---- The two agree -------------------------------------------------------------------------------

  lemma {:induction false} FoldKeepsStar(fold: Fold, s: string)
    requires KeepsStars(fold)
    ensures Starred(FoldAll(fold, s)) <==> Starred(s)
    ensures Starred(s) ==> FoldAll(fold, s) == FoldAll(fold, Stem(s)) + "*"
  {
    if s != [] {
      var (init, last) := (s[..|s| - 1], s[|s| - 1]);
      assert s == init + [last];
      FoldAllConcat(fold, init, [last]);
      assert FoldAll(fold, [last]) == fold(last) + FoldAll(fold, []);
      assert fold(last) + [] == fold(last);
      assert fold(last)[|fold(last)| - 1] in fold(last);
    }
  }

  /// A string that the pattern accepts, once folded: the pattern itself, without a final star.
  function Example(p: string): string { if Starred(p) then Stem(p) else p }

  lemma {:induction false} ExampleFolded(fold: Fold, p: string)
    requires KeepsStars(fold)
    ensures FoldAll(fold, Example(p)) == Example(FoldAll(fold, p))
  {
    FoldKeepsStar(fold, p);
  }

  /// Two overlapping patterns both accept the longer one's example.
  lemma {:induction false} LongerIsShared(a: string, b: string)
    ensures PatternsOverlap(a, b) ==> (Accepts(a, Example(a)) && Accepts(b, Example(a)))
                                      || (Accepts(a, Example(b)) && Accepts(b, Example(b)))
  {
  }

  lemma {:induction false} SharedMeansOverlap(a: string, b: string, actual: string)
    requires Accepts(a, actual) && Accepts(b, actual)
    ensures PatternsOverlap(a, b)
  {
    if Starred(a) && Starred(b) {
      var (x, y) := (Stem(a), Stem(b));
      assert x == actual[..|x|] && y == actual[..|y|];
      if |x| <= |y| {
        assert x == y[..|x|];
      } else {
        assert y == x[..|y|];
      }
    }
  }

  function AppWith(kind: Kind, actual: string): (app: App)
    ensures Field(kind, app) == Some(actual)
  {
    match kind
    case BundleId => App(Some(actual), None, None)
    case ProcessName => App(None, Some(actual), None)
    case WindowClass => App(None, None, Some(actual))
  }

  /// A warning is given for two profiles exactly when they are of one kind and some application
  /// matches both.
  lemma {:induction false} ReportedIffShared(fold: Fold, a: Profile, b: Profile)
    requires KeepsStars(fold)
    ensures Report(fold, a, b).Some?
            <==> a.kind == b.kind && exists app :: Matches(fold, a, app) && Matches(fold, b, app)
  {
    var (pa, pb) := (FoldAll(fold, a.pattern), FoldAll(fold, b.pattern));
    if Report(fold, a, b).Some? {
      ExampleFolded(fold, a.pattern);
      ExampleFolded(fold, b.pattern);
      LongerIsShared(pa, pb);
      var (ofA, ofB) := (AppWith(a.kind, Example(a.pattern)), AppWith(a.kind, Example(b.pattern)));
      assert (Matches(fold, a, ofA) && Matches(fold, b, ofA)) || (Matches(fold, a, ofB) && Matches(fold, b, ofB));
    }
    if a.kind == b.kind {
      forall app | Matches(fold, a, app) && Matches(fold, b, app) ensures PatternsOverlap(pa, pb) {
        SharedMeansOverlap(pa, pb, FoldAll(fold, Field(a.kind, app).value));
      }
    }
  }

  /// Lower-casing does not change which of the two patterns is longer.
  predicate LengthsAgree(fold: Fold, a: Profile, b: Profile)
  {
    var (wa, wb) := (Size(TrimStars(a.pattern)), Size(TrimStars(b.pattern)));
    var (la, lb) := (Size(TrimStars(FoldAll(fold, a.pattern))), Size(TrimStars(FoldAll(fold, b.pattern))));
    (wa < wb <==> la < lb) && (wa > wb <==> la > lb)
  }

  function AsReason(why: Why, beat: string): Reason
  {
    match why
    case ExactBeats => ExactOverPrefix(beat)
    case LongerBeats => LongerPrefix(beat)
    case FirstInFile => FileOrder(beat)
  }

  /// What `select` makes of two profiles that both match.
  lemma {:induction false} SelectedOfTwo(fold: Fold, a: Profile, b: Profile, app: App)
    requires Matches(fold, a, app) && Matches(fold, b, app)
    ensures Selected(fold, [a, b], app)
            == if Below(RankOf(a), RankOf(b)) then Some((b, Explain(b, a))) else Some((a, Explain(a, b)))
  {
    var h := Hits(fold, [a, b], app);
    assert h[0] == Some(RankOf(a)) && h[1] == Some(RankOf(b));
    assert Chosen(h, 0).None?;
    assert Chosen(h, 1) == Some(Choice(0, None));
    assert Chosen(h, 2) == Some(if Below(RankOf(a), RankOf(b)) then Choice(1, Some(0)) else Choice(0, Some(1)));
  }

  /// The verdict over the written lengths is what the ranks say.
  lemma {:induction false} RanksSay(a: Profile, b: Profile)
    requires a.kind == b.kind
    ensures var said := Verdict(a.name, Starred(a.pattern), Size(TrimStars(a.pattern)),
                                b.name, Starred(b.pattern), Size(TrimStars(b.pattern)));
            said == if Below(RankOf(a), RankOf(b)) then Overlap(b.name, a.name, said.why)
                    else Overlap(a.name, b.name, said.why)
    ensures var said := Verdict(a.name, Starred(a.pattern), Size(TrimStars(a.pattern)),
                                b.name, Starred(b.pattern), Size(TrimStars(b.pattern)));
            (if Below(RankOf(a), RankOf(b)) then Explain(b, a) else Explain(a, b)) == AsReason(said.why, said.loser)
  {
  }

  lemma {:induction false} SameVerdictIff(a: string, starA: bool, la: nat, wa: nat, b: string, starB: bool, lb: nat, wb: nat)
    requires a != b
    ensures Verdict(a, starA, la, b, starB, lb) == Verdict(a, starA, wa, b, starB, wb)
            <==> starA != starB || ((wa < wb <==> la < lb) && (wa > wb <==> la > lb))
  {
  }

  /// For every application that matches both, the warning names the profile that `select` picks of
  /// the two, and the reason it picks it for: exactly when lower-casing leaves the comparison of
  /// their lengths alone, or they differ in having a star.
  lemma {:induction false} WarningIsTrueIff(fold: Fold, a: Profile, b: Profile, app: App)
    requires KeepsStars(fold) && a.kind == b.kind && a.name != b.name
    requires Matches(fold, a, app) && Matches(fold, b, app)
    ensures Report(fold, a, b).Some?
    ensures var said := Report(fold, a, b).value;
            var (winner, reason) := Selected(fold, [a, b], app).value;
            (winner.name == said.winner && reason == AsReason(said.why, said.loser))
            <==> Starred(a.pattern) != Starred(b.pattern) || LengthsAgree(fold, a, b)
  {
    ReportedIffShared(fold, a, b);
    SelectedOfTwo(fold, a, b, app);
    FoldKeepsStar(fold, a.pattern);
    FoldKeepsStar(fold, b.pattern);
    AgreeIff(a, Size(TrimStars(FoldAll(fold, a.pattern))), b, Size(TrimStars(FoldAll(fold, b.pattern))));
  }

  /// The verdict over any lengths, against the ranks.
  lemma {:induction false} AgreeIff(a: Profile, la: nat, b: Profile, lb: nat)
    requires a.kind == b.kind && a.name != b.name
    ensures var said := Verdict(a.name, Starred(a.pattern), la, b.name, Starred(b.pattern), lb);
            var (winner, reason) := if Below(RankOf(a), RankOf(b)) then (b, Explain(b, a)) else (a, Explain(a, b));
            var (wa, wb) := (Size(TrimStars(a.pattern)), Size(TrimStars(b.pattern)));
            (winner.name == said.winner && reason == AsReason(said.why, said.loser))
            <==> Starred(a.pattern) != Starred(b.pattern) || ((wa < wb <==> la < lb) && (wa > wb <==> la > lb))
  {
    var (wa, wb) := (Size(TrimStars(a.pattern)), Size(TrimStars(b.pattern)));
    RanksSay(a, b);
    SameVerdictIff(a.name, Starred(a.pattern), la, wa, b.name, Starred(b.pattern), lb, wb);
    SameWords(Verdict(a.name, Starred(a.pattern), la, b.name, Starred(b.pattern), lb),
              Verdict(a.name, Starred(a.pattern), wa, b.name, Starred(b.pattern), wb));
  }

  lemma {:induction false} SameWords(said: Overlap, written: Overlap)
    requires {said.winner, said.loser} == {written.winner, written.loser}
    ensures said == written <==> written.winner == said.winner
                                 && AsReason(written.why, written.loser) == AsReason(said.why, said.loser)
  {
  }

  /// Of two profiles in file order, the one that select prefers is the winner of their warning.
  lemma {:induction false} PreferredWins(fold: Fold, a: Profile, b: Profile, app: App)
    requires KeepsStars(fold) && a.kind == b.kind && a.name != b.name
    requires Matches(fold, a, app) && Matches(fold, b, app)
    requires Starred(a.pattern) != Starred(b.pattern) || LengthsAgree(fold, a, b)
    ensures var r := Report(fold, a, b);
            && r.Some? && r.value == (if Below(RankOf(a), RankOf(b)) then Overlap(b.name, a.name, r.value.why)
                                      else Overlap(a.name, b.name, r.value.why))
            && AsReason(r.value.why, r.value.loser) == if Below(RankOf(a), RankOf(b)) then Explain(b, a) else Explain(a, b)
  {
    ReportedIffShared(fold, a, b);
    FoldKeepsStar(fold, a.pattern);
    FoldKeepsStar(fold, b.pattern);
    RanksSay(a, b);
    SameVerdictIff(a.name, Starred(a.pattern), Size(TrimStars(FoldAll(fold, a.pattern))), Size(TrimStars(a.pattern)),
                   b.name, Starred(b.pattern), Size(TrimStars(FoldAll(fold, b.pattern))), Size(TrimStars(b.pattern)));
  }

  /// In a whole file: the profile selected for an application is the winner of every warning that
  /// involves it and another profile matching that application, for the reason the warning gives.
  lemma {:induction false} SelectedNeverLoses(fold: Fold, ps: seq<Profile>, app: App, w: nat, k: nat)
    requires KeepsStars(fold) && w < |ps| && k < |ps| && k != w && ps[k].name != ps[w].name
    requires var c := Chosen(Hits(fold, ps, app), |ps|); c.Some? && c.value.winner == w
    requires Matches(fold, ps[k], app) && ps[k].kind == ps[w].kind
    requires Starred(ps[w].pattern) != Starred(ps[k].pattern) || LengthsAgree(fold, ps[w], ps[k])
    ensures var said := if w < k then Report(fold, ps[w], ps[k]) else Report(fold, ps[k], ps[w]);
            && said.Some? && said.value.winner == ps[w].name && said.value.loser == ps[k].name
            && AsReason(said.value.why, said.value.loser) == Explain(ps[w], ps[k])
  {
    var h := Hits(fold, ps, app);
    ChosenIsBest(h, |ps|);
    assert h[w] == Some(RankOf(ps[w])) && h[k] == Some(RankOf(ps[k]));
    if w < k {
      PreferredWins(fold, ps[w], ps[k], app);
    } else {
      PreferredWins(fold, ps[k], ps[w], app);
    }
  }

  lemma {:induction false} SameSize(fold: Fold, s: string)
    requires forall c :: c in s ==> Size(fold(c)) == Width(c)
    ensures Size(FoldAll(fold, s)) == Size(s)
  {
    if s != [] {
      SameSize(fold, s[1..]);
      SizeOfConcat(fold(s[0]), FoldAll(fold, s[1..]));
      assert s == [s[0]] + s[1..];
      SizeOfConcat([s[0]], s[1..]);
      SizeOfOne(s[0]);
    }
  }

  lemma {:induction false} SameTrimmedSize(fold: Fold, s: string)
    requires KeepsStars(fold) && forall c :: c in s ==> Size(fold(c)) == Width(c)
    ensures Size(TrimStars(FoldAll(fold, s))) == Size(TrimStars(s))
    decreases |s|
  {
    FoldKeepsStar(fold, s);
    SameSize(fold, s);
    if Starred(s) {
      SameTrimmedSize(fold, Stem(s));
      assert Stem(FoldAll(fold, s)) == FoldAll(fold, Stem(s));
    }
  }

  /// Patterns whose characters each keep their number of bytes, as all of ASCII does.
  lemma {:induction false} PlainLengthsAgree(fold: Fold, a: Profile, b: Profile)
    requires KeepsStars(fold) && forall c :: c in a.pattern + b.pattern ==> Size(fold(c)) == Width(c)
    ensures LengthsAgree(fold, a, b)
  {
    assert forall c :: c in a.pattern || c in b.pattern ==> c in a.pattern + b.pattern;
    SameTrimmedSize(fold, a.pattern);
    SameTrimmedSize(fold, b.pattern);
  }

  /// The condition can fail: a dotted capital I lower-cases to two characters. Of the pattern that
  /// is that letter and the pattern that is those two, the warning says the first in the file wins;
  /// `select` picks the second, which is written longer.
  lemma {:induction false} WarningCanBeWrong(fold: Fold)
    requires fold('\U{0130}') == "i\U{0307}" && fold('i') == "i" && fold('\U{0307}') == "\U{0307}"
    ensures var (a, b) := (Profile("a", BundleId, "\U{0130}"), Profile("b", BundleId, "i\U{0307}"));
            && Report(fold, a, b) == Some(Overlap("a", "b", FirstInFile))
            && Selected(fold, [a, b], AppWith(BundleId, "i\U{0307}")) == Some((b, LongerPrefix("a")))
  {
    var (short, long) := ("\U{0130}", "i\U{0307}");
    var (a, b) := (Profile("a", BundleId, short), Profile("b", BundleId, long));
    assert long[1..] == "\U{0307}";
    assert FoldAll(fold, short) == fold('\U{0130}') + FoldAll(fold, []);
    assert FoldAll(fold, "\U{0307}") == fold('\U{0307}') + FoldAll(fold, []);
    assert FoldAll(fold, long) == fold('i') + FoldAll(fold, "\U{0307}");
    assert FoldAll(fold, short) == long == FoldAll(fold, long);
    SelectedOfTwo(fold, a, b, AppWith(BundleId, long));
  }

  /// Or with as many characters but fewer bytes: a Kelvin sign lower-cases to k. Of "k*" and the
  /// prefix that is a Kelvin sign, the warning says the first in the file wins; `select` picks the
  /// second for its longer prefix.
  lemma {:induction false} WarningCanBeWrongByBytes(fold: Fold)
    requires fold('\U{212A}') == "k" && fold('k') == "k" && fold('*') == "*"
    ensures var (a, b) := (Profile("a", BundleId, "k*"), Profile("b", BundleId, "\U{212A}*"));
            && Report(fold, a, b) == Some(Overlap("a", "b", FirstInFile))
            && Selected(fold, [a, b], AppWith(BundleId, "k")) == Some((b, LongerPrefix("a")))
  {
    var (a, b) := (Profile("a", BundleId, "k*"), Profile("b", BundleId, "\U{212A}*"));
    Star(fold, 'k');
    Star(fold, '\U{212A}');
    assert FoldAll(fold, "k") == fold('k') + FoldAll(fold, []);
    SizeOfOne('k');
    SizeOfOne('\U{212A}');
    SelectedOfTwo(fold, a, b, AppWith(BundleId, "k"));
  }

  lemma {:induction false} Star(fold: Fold, c: char)
    requires fold('*') == "*" && c != '*'
    ensures FoldAll(fold, [c, '*']) == fold(c) + "*" && TrimStars([c, '*']) == [c]
  {
    assert [c, '*'][1..] == "*" && "*"[1..] == [];
    assert FoldAll(fold, "*") == fold('*') + FoldAll(fold, []);
    assert Stem([c, '*']) == [c];
  }

  // ---- The list of warnings --------------------------------------------------------------------------

  lemma {:induction false} RowHas(fold: Fold, ps: seq<Profile>, i: nat, j: nat, k: nat)
    requires i < |ps| && j <= k < |ps| && Report(fold, ps[i], ps[k]).Some?
    ensures Report(fold, ps[i], ps[k]).value in Row(fold, ps, i, j)
    decreases k - j
  {
    if j < k {
      RowHas(fold, ps, i, j + 1, k);
    }
  }

  /// Every pair with a warning has it in the list.
  lemma {:induction false} EveryPairReported(fold: Fold, ps: seq<Profile>, from: nat, i: nat, k: nat)
    requires from <= i < k < |ps| && Report(fold, ps[i], ps[k]).Some?
    ensures Report(fold, ps[i], ps[k]).value in Rows(fold, ps, from)
    decreases i - from
  {
    if from < i {
      EveryPairReported(fold, ps, from + 1, i, k);
    } else {
      RowHas(fold, ps, i, i + 1, k);
    }
  }

  lemma {:induction false} RowFrom(fold: Fold, ps: seq<Profile>, i: nat, j: nat, o: Overlap)
    requires i < |ps| && j <= |ps| && o in Row(fold, ps, i, j)
    ensures exists k :: j <= k < |ps| && Report(fold, ps[i], ps[k]) == Some(o)
    decreases |ps| - j
  {
    if o !in Listed(Report(fold, ps[i], ps[j])) {
      RowFrom(fold, ps, i, j + 1, o);
    } else {
      assert Report(fold, ps[i], ps[j]) == Some(o);
    }
  }

  /// And nothing else is in it.
  lemma {:induction false} OnlyPairsReported(fold: Fold, ps: seq<Profile>, from: nat, o: Overlap)
    requires from <= |ps| && o in Rows(fold, ps, from)
    ensures exists i, k :: from <= i < k < |ps| && Report(fold, ps[i], ps[k]) == Some(o)
    decreases |ps| - from
  {
    if o in Row(fold, ps, from, from + 1) {
      RowFrom(fold, ps, from, from + 1, o);
    } else {
      OnlyPairsReported(fold, ps, from + 1, o);
    }
  }
}
