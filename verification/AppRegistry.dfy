// Resolving a spoken application name (crates/app-command/src/registry.rs).
//
// Scores are exact reals; lower-casing and the test for a letter or digit are parameters.

module AppRegistry {
  import opened Common
  import opened Text
  import Fuzzy

  datatype App = App(name: string, launchId: string)

  datatype Resolution = NoMatch | One(app: App) | Ambiguous(apps: seq<App>)

  datatype Letters = Letters(fold: Fold, alnum: char -> bool)

  const MIN_SIMILARITY := 0.72
  const MARGIN := 0.08

  function Lower(l: Letters, app: App): string { FoldAll(l.fold, app.name) }

  /// A maximal run of letters and digits of n begins at i and starts with part.
  predicate WordStarts(l: Letters, n: string, i: nat, part: string)
    requires i < |n|
  {
    && l.alnum(n[i]) && (i > 0 ==> !l.alnum(n[i - 1]))
    && HasAt(n, part, i) && forall c :: c in part ==> l.alnum(c)
  }

  predicate Exact(l: Letters, lower: string, app: App) { Lower(l, app) == lower }

  predicate Prefix(l: Letters, lower: string, app: App)
  {
    var n := Lower(l, app);
    lower <= n || exists i :: 0 <= i < |n| && WordStarts(l, n, i, lower)
  }

  function Score(l: Letters, lower: string, app: App): real
  {
    Fuzzy.Similarity(l.fold, lower, Lower(l, app))
  }

  /// Similar, and not merely containing what was said.
  predicate SoundsLike(l: Letters, lower: string, app: App)
  {
    !Contains(Lower(l, app), lower) && Score(l, lower, app) >= MIN_SIMILARITY
  }

  function Filter<T>(s: seq<T>, keep: T -> bool): (r: seq<T>)
    ensures forall x :: x in r ==> x in s && keep(x)
  {
    if s == [] then [] else (if keep(s[0]) then [s[0]] else []) + Filter(s[1..], keep)
  }

  /// x placed before the first entry that scores less: a stable sort keeps what came first first.
  function Placed<T>(x: T, s: seq<T>, score: T -> real): (r: seq<T>)
    ensures multiset(r) == multiset{x} + multiset(s)
  {
    if s == [] || score(x) >= score(s[0]) then
      assert [x] + s == [x] + s[..];
      [x] + s
    else
      assert s == [s[0]] + s[1..];
      [s[0]] + Placed(x, s[1..], score)
  }

  /// Stable, highest score first.
  function Sorted<T>(s: seq<T>, score: T -> real): (r: seq<T>)
    ensures multiset(r) == multiset(s) && |r| == |s|
  {
    if s == [] then []
    else
      assert s == [s[0]] + s[1..];
      var r := Placed(s[0], Sorted(s[1..], score), score);
      assert |multiset(r)| == |r|;
      r
  }

  ghost predicate Descending<T>(s: seq<T>, score: T -> real)
  {
    forall i, j :: 0 <= i < j < |s| ==> score(s[i]) >= score(s[j])
  }

  /// What the scores decide: the best if it is the only one or clearly ahead.
  function Judged<T>(best: seq<T>, score: T -> real): (r: Option<T>)
    requires best != []
    ensures r.Some? ==> r.value in best
  {
    if |best| == 1 || score(best[0]) - score(best[1]) > MARGIN then Some(best[0]) else None
  }

  /// The three tests and the score, for what was said in lower case.
  function IsExact(l: Letters, lower: string): App -> bool { a => Exact(l, lower, a) }

  function IsPrefix(l: Letters, lower: string): App -> bool { a => Prefix(l, lower, a) }

  function IsAlike(l: Letters, lower: string): App -> bool { a => SoundsLike(l, lower, a) }

  function Scored(l: Letters, lower: string): App -> real { a => Score(l, lower, a) }

  /// The three passes, over any tests and any score.
  function Narrow(apps: seq<App>, exact: App -> bool, prefix: App -> bool, alike: App -> bool, score: App -> real): Resolution
  {
    if |Filter(apps, exact)| == 1 then One(Filter(apps, exact)[0])
    else if |Filter(apps, prefix)| == 1 then One(Filter(apps, prefix)[0])
    else if |Filter(apps, prefix)| > 1 then Ambiguous(Filter(apps, prefix))
    else if |Filter(apps, alike)| == 0 then NoMatch
    else
      var best := Sorted(Filter(apps, alike), score);
      if Judged(best, score).Some? then One(Judged(best, score).value) else Ambiguous(best)
  }

  /// `resolve`.
  function Resolve(l: Letters, apps: seq<App>, said: string): Resolution
  {
    var lower := FoldAll(l.fold, Trim(said));
    if |Trim(said)| == 0 then NoMatch
    else Narrow(apps, IsExact(l, lower), IsPrefix(l, lower), IsAlike(l, lower), Scored(l, lower))
  }

  // ---- Words of a name -----------------------------------------------------------------------------

  function RunEnd(l: Letters, n: string, i: nat): (e: nat)
    requires i <= |n|
    ensures i <= e <= |n| && (forall k :: i <= k < e ==> l.alnum(n[k])) && (e < |n| ==> !l.alnum(n[e]))
    decreases |n| - i
  {
    if i < |n| && l.alnum(n[i]) then RunEnd(l, n, i + 1) else i
  }

  /// The pieces of n, from i on, between characters that are no letters or digits; empty ones left out.
  function NameWords(l: Letters, n: string, i: nat): seq<string>
    requires i <= |n|
    decreases |n| - i
  {
    if i == |n| then []
    else if !l.alnum(n[i]) then NameWords(l, n, i + 1)
    else [n[i..RunEnd(l, n, i)]] + NameWords(l, n, RunEnd(l, n, i))
  }

  predicate SomeWordStarts(l: Letters, n: string, from: nat, part: string)
  {
    exists i :: from <= i < |n| && WordStarts(l, n, i, part)
  }

  lemma {:induction false} RunCovers(l: Letters, n: string, i: nat, m: nat)
    requires i + m <= |n| && forall k :: i <= k < i + m ==> l.alnum(n[k])
    ensures i + m <= RunEnd(l, n, i)
    decreases m
  {
    if m > 0 { RunCovers(l, n, i + 1, m - 1); }
  }

  lemma {:induction false} StartsHere(l: Letters, n: string, i: nat, part: string)
    requires i < |n| && l.alnum(n[i]) && (i > 0 ==> !l.alnum(n[i - 1]))
    ensures WordStarts(l, n, i, part) <==> part <= n[i..RunEnd(l, n, i)]
  {
    var w := n[i..RunEnd(l, n, i)];
    if WordStarts(l, n, i, part) {
      forall k | i <= k < i + |part| ensures l.alnum(n[k]) {
        assert n[i..i + |part|][k - i] == n[k] && part[k - i] in part;
      }
      RunCovers(l, n, i, |part|);
      assert w[..|part|] == n[i..i + |part|];
    }
    if part <= w {
      assert n[i..i + |part|] == w[..|part|] == part;
      forall c | c in part ensures l.alnum(c) {
        var k :| 0 <= k < |part| && part[k] == c;
        assert c == n[i + k];
      }
    }
  }

  ghost predicate SomeBegins(words: seq<string>, part: string) { exists w :: w in words && part <= w }

  lemma {:induction false} BeginsCons(w: string, rest: seq<string>, part: string)
    ensures SomeBegins([w] + rest, part) <==> part <= w || SomeBegins(rest, part)
  {
    assert w in [w] + rest && forall v :: v in rest ==> v in [w] + rest;
  }

  lemma {:induction false} WordsFrom(l: Letters, n: string, i: nat, part: string)
    requires i <= |n| && (0 < i < |n| && l.alnum(n[i]) ==> !l.alnum(n[i - 1]))
    ensures SomeWordStarts(l, n, i, part) <==> SomeBegins(NameWords(l, n, i), part)
    decreases |n| - i
  {
    if i < |n| {
      var next := if l.alnum(n[i]) then RunEnd(l, n, i) else i + 1;
      WordsFrom(l, n, next, part);
      if l.alnum(n[i]) {
        StartsHere(l, n, i, part);
        BeginsCons(n[i..next], NameWords(l, n, next), part);
      }
      forall j | i < j < next ensures !WordStarts(l, n, j, part) { assert l.alnum(n[j - 1]); }
      assert SomeWordStarts(l, n, i, part) <==> SomeWordStarts(l, n, next, part) || WordStarts(l, n, i, part);
    }
  }

  /// The second pass tests the name and its words.
  lemma {:induction false} PrefixIffWord(l: Letters, lower: string, app: App)
    ensures var name := FoldAll(l.fold, app.name);
            Prefix(l, lower, app) <==> lower <= name || SomeBegins(NameWords(l, name, 0), lower)
  {
    WordsFrom(l, Lower(l, app), 0, lower);
  }

  // ---- The order of discovery ----------------------------------------------------------------------

  lemma {:induction false} FilterCounts<T>(s: seq<T>, keep: T -> bool, x: T)
    ensures multiset(Filter(s, keep))[x] == if keep(x) then multiset(s)[x] else 0
  {
    if s != [] {
      FilterCounts(s[1..], keep, x);
      assert s == [s[0]] + s[1..];
    }
  }

  lemma {:induction false} FilterPermuted<T(!new)>(s: seq<T>, t: seq<T>, keep: T -> bool)
    requires multiset(s) == multiset(t)
    ensures multiset(Filter(s, keep)) == multiset(Filter(t, keep))
    ensures |Filter(s, keep)| == |Filter(t, keep)|
  {
    forall x ensures multiset(Filter(s, keep))[x] == multiset(Filter(t, keep))[x] {
      FilterCounts(s, keep, x);
      FilterCounts(t, keep, x);
    }
    assert multiset(Filter(s, keep)) == multiset(Filter(t, keep));
    assert |multiset(Filter(s, keep))| == |Filter(s, keep)|;
  }

  lemma {:induction false} SingleSame<T>(s: seq<T>, t: seq<T>)
    requires multiset(s) == multiset(t) && |s| == 1
    ensures s == t
  {
    assert s[0] in multiset(t);
    assert |multiset(s)| == |s| && |multiset(t)| == |t|;
  }

  lemma {:induction false} PlacedDescends<T>(x: T, s: seq<T>, score: T -> real)
    requires Descending(s, score)
    ensures Descending(Placed(x, s, score), score)
  {
    if s != [] && score(x) < score(s[0]) {
      var rest := Placed(x, s[1..], score);
      PlacedDescends(x, s[1..], score);
      forall y | y in rest ensures score(s[0]) >= score(y) {
        assert y in multiset(rest);
        assert y == x || y in s[1..];
      }
    }
  }

  lemma {:induction false} SortedDescends<T>(s: seq<T>, score: T -> real)
    ensures Descending(Sorted(s, score), score)
  {
    if s != [] {
      SortedDescends(s[1..], score);
      PlacedDescends(s[0], Sorted(s[1..], score), score);
    }
  }

  /// Two descending orders of the same things agree on the best score.
  lemma {:induction false} SameTopScore<T>(s: seq<T>, t: seq<T>, score: T -> real)
    requires multiset(s) == multiset(t) && s != [] && t != [] && Descending(s, score) && Descending(t, score)
    ensures score(s[0]) == score(t[0])
  {
    assert s[0] in multiset(t) && t[0] in multiset(s);
  }

  lemma {:induction false} WithoutFirst<T>(s: seq<T>, t: seq<T>)
    requires multiset(s) == multiset(t) && s != [] && t != [] && s[0] == t[0]
    ensures multiset(s[1..]) == multiset(t[1..])
  {
    assert s == [s[0]] + s[1..] && t == [t[0]] + t[1..];
    assert multiset(s[1..]) == multiset(s) - multiset{s[0]};
  }

  /// A clear winner of one order is the clear winner of every other.
  lemma {:induction false} SameWinner<T>(s: seq<T>, t: seq<T>, score: T -> real)
    requires multiset(s) == multiset(t) && s != [] && t != [] && |s| == |t|
    requires Descending(s, score) && Descending(t, score) && Judged(s, score).Some?
    ensures Judged(t, score) == Judged(s, score)
  {
    if |s| == 1 {
      SingleSame(s, t);
    } else {
      SameTopScore(s, t, score);
      assert t[0] in multiset(s);
      assert t[0] == s[0];
      WithoutFirst(s, t);
      assert Descending(s[1..], score) && Descending(t[1..], score);
      SameTopScore(s[1..], t[1..], score);
    }
  }

  lemma {:induction false} SameJudgement<T>(s: seq<T>, t: seq<T>, score: T -> real)
    requires multiset(s) == multiset(t) && s != [] && t != [] && |s| == |t|
    requires Descending(s, score) && Descending(t, score)
    ensures Judged(t, score) == Judged(s, score)
  {
    if Judged(s, score).Some? {
      SameWinner(s, t, score);
    } else if Judged(t, score).Some? {
      SameWinner(t, s, score);
    }
  }

  predicate SameAnswer(r: Resolution, q: Resolution)
  {
    match (r, q)
    case (NoMatch, NoMatch) => true
    case (One(a), One(b)) => a == b
    case (Ambiguous(s), Ambiguous(t)) => multiset(s) == multiset(t)
    case _ => false
  }

  lemma {:induction false} NarrowPermuted(apps: seq<App>, others: seq<App>, exact: App -> bool, prefix: App -> bool,
                                          alike: App -> bool, score: App -> real)
    requires multiset(apps) == multiset(others)
    ensures SameAnswer(Narrow(apps, exact, prefix, alike, score), Narrow(others, exact, prefix, alike, score))
  {
    FilterPermuted(apps, others, exact);
    FilterPermuted(apps, others, prefix);
    FilterPermuted(apps, others, alike);
    if |Filter(apps, exact)| == 1 {
      SingleSame(Filter(apps, exact), Filter(others, exact));
    } else if |Filter(apps, prefix)| == 1 {
      SingleSame(Filter(apps, prefix), Filter(others, prefix));
    } else if |Filter(apps, alike)| > 0 {
      SortedDescends(Filter(apps, alike), score);
      SortedDescends(Filter(others, alike), score);
      SameJudgement(Sorted(Filter(apps, alike), score), Sorted(Filter(others, alike), score), score);
    }
  }

  /// The answer does not depend on the order in which the applications were discovered.
  lemma {:induction false} OrderDoesNotMatter(l: Letters, apps: seq<App>, others: seq<App>, said: string)
    requires multiset(apps) == multiset(others)
    ensures SameAnswer(Resolve(l, apps, said), Resolve(l, others, said))
  {
    var lower := FoldAll(l.fold, Trim(said));
    NarrowPermuted(apps, others, IsExact(l, lower), IsPrefix(l, lower), IsAlike(l, lower), Scored(l, lower));
  }

  // ---- What an answer means ------------------------------------------------------------------------

  lemma {:induction false} FilterHas<T>(s: seq<T>, keep: T -> bool, x: T)
    ensures x in Filter(s, keep) <==> x in s && keep(x)
  {
    if s != [] {
      FilterHas(s[1..], keep, x);
      assert s == [s[0]] + s[1..];
    }
  }

  lemma {:induction false} NarrowNames(apps: seq<App>, exact: App -> bool, prefix: App -> bool, alike: App -> bool, score: App -> real)
    ensures var r := Narrow(apps, exact, prefix, alike, score);
            && (r.One? ==> r.app in apps)
            && (r.Ambiguous? ==> |r.apps| > 1 && forall a :: a in r.apps ==> a in apps)
  {
    var found := Filter(apps, alike);
    if found != [] {
      SortedMembers(found, score);
      JudgedNames(apps, Sorted(found, score), score);
    }
  }

  lemma {:induction false} JudgedNames(apps: seq<App>, best: seq<App>, score: App -> real)
    requires best != [] && forall a :: a in best ==> a in apps
    ensures Judged(best, score).Some? ==> Judged(best, score).value in apps
    ensures Judged(best, score).None? ==> |best| > 1
  {
  }

  lemma {:induction false} SortedMembers<T>(s: seq<T>, score: T -> real)
    ensures forall x :: x in Sorted(s, score) ==> x in s
  {
    forall x | x in Sorted(s, score) ensures x in s {
      assert x in multiset(Sorted(s, score));
    }
  }

  /// Every application named is a registry entry, and an ambiguous answer names two or more.
  lemma {:induction false} NamesEntries(l: Letters, apps: seq<App>, said: string)
    ensures var r := Resolve(l, apps, said);
            && (r.One? ==> r.app in apps)
            && (r.Ambiguous? ==> |r.apps| > 1 && forall a :: a in r.apps ==> a in apps)
  {
    var lower := FoldAll(l.fold, Trim(said));
    NarrowNames(apps, IsExact(l, lower), IsPrefix(l, lower), IsAlike(l, lower), Scored(l, lower));
  }

  /// How one of several is the only one of its kind.
  ghost predicate OnlyOne<T>(s: seq<T>, keep: T -> bool, x: T)
  {
    x in s && keep(x) && (forall y :: y in s && keep(y) ==> y == x) && multiset(s)[x] == 1
  }

  lemma {:induction false} SingleIsOnly<T>(s: seq<T>, keep: T -> bool)
    requires |Filter(s, keep)| == 1
    ensures OnlyOne(s, keep, Filter(s, keep)[0])
  {
    var found := Filter(s, keep);
    forall y | y in s && keep(y) ensures y == found[0] { FilterHas(s, keep, y); }
    FilterCounts(s, keep, found[0]);
    assert found == [found[0]];
  }

  /// x is kept, and everything else that is kept scores clearly less.
  ghost predicate ClearlyBest<T>(s: seq<T>, keep: T -> bool, score: T -> real, x: T)
  {
    x in s && keep(x) && forall y :: y in s && keep(y) && y != x ==> score(x) - score(y) > MARGIN
  }

  lemma {:induction false} JudgedIsBest<T>(s: seq<T>, keep: T -> bool, score: T -> real)
    requires Filter(s, keep) != [] && Judged(Sorted(Filter(s, keep), score), score).Some?
    ensures ClearlyBest(s, keep, score, Judged(Sorted(Filter(s, keep), score), score).value)
  {
    var alike := Filter(s, keep);
    var best := Sorted(alike, score);
    SortedDescends(alike, score);
    assert best[0] in multiset(best) && best[0] in alike;
    forall y | y in s && keep(y) && y != best[0] ensures score(best[0]) - score(y) > MARGIN {
      FilterHas(s, keep, y);
      assert y in multiset(alike) && y in multiset(best);
      var i :| 0 <= i < |best| && best[i] == y;
      assert i >= 1 && score(best[1]) >= score(best[i]);
    }
  }

  lemma {:induction false} NarrowedToOne(apps: seq<App>, exact: App -> bool, prefix: App -> bool, alike: App -> bool, score: App -> real)
    ensures var r := Narrow(apps, exact, prefix, alike, score);
            r.One? ==>
              || OnlyOne(apps, exact, r.app) || OnlyOne(apps, prefix, r.app)
              || ((forall x :: x in apps ==> !prefix(x)) && ClearlyBest(apps, alike, score, r.app))
  {
    if |Filter(apps, exact)| == 1 {
      SingleIsOnly(apps, exact);
    } else if |Filter(apps, prefix)| == 1 {
      SingleIsOnly(apps, prefix);
    } else if Narrow(apps, exact, prefix, alike, score).One? {
      forall x | x in apps ensures !prefix(x) { FilterHas(apps, prefix, x); }
      JudgedIsBest(apps, alike, score);
    }
  }

  /// One application is answered only when it is the one whose name was said; or the only one with a
  /// word beginning so; or, when none has, one that sounds like it by a clear margin over every
  /// other that does.
  lemma {:induction false} OneMeansClear(l: Letters, apps: seq<App>, said: string)
    ensures var (lower, r) := (FoldAll(l.fold, Trim(said)), Resolve(l, apps, said));
            r.One? ==>
              || OnlyOne(apps, IsExact(l, lower), r.app) || OnlyOne(apps, IsPrefix(l, lower), r.app)
              || ((forall x :: x in apps ==> !Prefix(l, lower, x))
                  && ClearlyBest(apps, IsAlike(l, lower), Scored(l, lower), r.app))
  {
    var lower := FoldAll(l.fold, Trim(said));
    NarrowedToOne(apps, IsExact(l, lower), IsPrefix(l, lower), IsAlike(l, lower), Scored(l, lower));
  }

  lemma {:induction false} NarrowedToNone(apps: seq<App>, exact: App -> bool, prefix: App -> bool, alike: App -> bool, score: App -> real)
    requires forall a :: exact(a) ==> prefix(a)
    ensures Narrow(apps, exact, prefix, alike, score) == NoMatch <==> forall a :: a in apps ==> !prefix(a) && !alike(a)
  {
    forall a | a in apps ensures (a in Filter(apps, prefix) <==> prefix(a)) && (a in Filter(apps, alike) <==> alike(a)) {
      FilterHas(apps, prefix, a);
      FilterHas(apps, alike, a);
    }
    if |Filter(apps, exact)| > 0 {
      var a := Filter(apps, exact)[0];
      assert a in apps && prefix(a);
    }
    if |Filter(apps, prefix)| > 0 {
      assert Filter(apps, prefix)[0] in apps;
    }
    if |Filter(apps, alike)| > 0 {
      assert Filter(apps, alike)[0] in apps;
    }
  }

  /// No application is answered exactly when nothing was said, or no name begins a word so or
  /// sounds like it.
  lemma {:induction false} NoMatchIff(l: Letters, apps: seq<App>, said: string)
    ensures var lower := FoldAll(l.fold, Trim(said));
            Resolve(l, apps, said) == NoMatch
            <==> |Trim(said)| == 0 || forall a :: a in apps ==> !Prefix(l, lower, a) && !SoundsLike(l, lower, a)
  {
    var lower := FoldAll(l.fold, Trim(said));
    NarrowedToNone(apps, IsExact(l, lower), IsPrefix(l, lower), IsAlike(l, lower), Scored(l, lower));
  }

  // ---- Which answer is given -----------------------------------------------------------------------

  lemma {:induction false} AllAlike<T>(s: seq<T>, x: T)
    requires forall y :: y in s ==> y == x
    ensures multiset(s)[x] == |s|
  {
    if s != [] {
      assert forall y :: y in s[1..] ==> y in s;
      AllAlike(s[1..], x);
      assert s[0] in s;
      assert s == [x] + s[1..];
    }
  }

  lemma {:induction false} OnlyIsSingle<T>(s: seq<T>, keep: T -> bool, x: T)
    requires OnlyOne(s, keep, x)
    ensures Filter(s, keep) == [x]
  {
    FilterCounts(s, keep, x);
    forall y | y in Filter(s, keep) ensures y == x { FilterHas(s, keep, y); }
    AllAlike(Filter(s, keep), x);
    assert Filter(s, keep)[0] in Filter(s, keep);
    assert Filter(s, keep) == [x];
  }

  /// At least two entries are of the kind.
  ghost predicate Several<T(!new)>(s: seq<T>, keep: T -> bool)
  {
    (exists x :: x in s && keep(x)) && forall x :: !OnlyOne(s, keep, x)
  }

  lemma {:induction false} SeveralIsMany<T(!new)>(s: seq<T>, keep: T -> bool)
    requires Several(s, keep)
    ensures |Filter(s, keep)| > 1
  {
    var x :| x in s && keep(x);
    FilterHas(s, keep, x);
    if |Filter(s, keep)| == 1 { SingleIsOnly(s, keep); }
  }

  /// found holds exactly the entries of the kind, as often as they stand there.
  ghost predicate Holds<T(!new)>(s: seq<T>, keep: T -> bool, found: seq<T>)
  {
    forall x :: multiset(found)[x] == if keep(x) then multiset(s)[x] else 0
  }

  lemma {:induction false} FilterHolds<T(!new)>(s: seq<T>, keep: T -> bool)
    ensures Holds(s, keep, Filter(s, keep))
  {
    forall x ensures multiset(Filter(s, keep))[x] == if keep(x) then multiset(s)[x] else 0 { FilterCounts(s, keep, x); }
  }

  /// x stands there once, is kept, and everything else that is kept scores less by more than the margin.
  ghost predicate ClearWinner<T>(s: seq<T>, keep: T -> bool, score: T -> real, x: T)
  {
    multiset(s)[x] == 1 && ClearlyBest(s, keep, score, x)
  }

  lemma {:induction false} FirstInTwo<T>(s: seq<T>, x: T)
    requires |s| > 1 && s[0] == x && s[1] == x
    ensures multiset(s)[x] > 1
  {
    assert s == [x, x] + s[2..];
  }

  lemma {:induction false} WinnerIsFirst<T(!new)>(s: seq<T>, keep: T -> bool, score: T -> real, best: seq<T>, x: T)
    requires best != [] && multiset(best) == multiset(Filter(s, keep)) && Descending(best, score)
    requires ClearWinner(s, keep, score, x)
    ensures Judged(best, score) == Some(x)
  {
    FilterCounts(s, keep, x);
    assert x in multiset(best);
    var i :| 0 <= i < |best| && best[i] == x;
    FilterCounts(s, keep, best[0]);
    assert best[0] in multiset(best) && best[0] in s && keep(best[0]);
    assert best[0] == x;
    if |best| > 1 {
      FilterCounts(s, keep, best[1]);
      assert best[1] in multiset(best) && best[1] in s && keep(best[1]);
      if best[1] == x { FirstInTwo(best, x); }
    }
  }

  lemma {:induction false} FirstIsWinner<T(!new)>(s: seq<T>, keep: T -> bool, score: T -> real, best: seq<T>)
    requires best != [] && multiset(best) == multiset(Filter(s, keep)) && Descending(best, score)
    requires Judged(best, score).Some?
    ensures ClearWinner(s, keep, score, Judged(best, score).value)
  {
    var x := best[0];
    FilterCounts(s, keep, x);
    assert x in multiset(best);
    assert multiset(best)[x] == multiset(s)[x];
    assert best == [x] + best[1..];
    forall y | y in best[1..] ensures score(x) - score(y) > MARGIN {
      var i :| 0 <= i < |best[1..]| && best[1..][i] == y;
      assert best[i + 1] == y;
    }
    assert x !in best[1..];
    forall y | y in s && keep(y) && y != x ensures score(x) - score(y) > MARGIN {
      FilterCounts(s, keep, y);
      assert y in multiset(best);
      assert y in best[1..];
    }
  }

  lemma {:induction false} NarrowExact(apps: seq<App>, exact: App -> bool, prefix: App -> bool, alike: App -> bool,
                                       score: App -> real, a: App)
    requires OnlyOne(apps, exact, a)
    ensures Narrow(apps, exact, prefix, alike, score) == One(a)
  {
    OnlyIsSingle(apps, exact, a);
  }

  lemma {:induction false} NotSingle<T(!new)>(s: seq<T>, keep: T -> bool)
    requires forall x :: !OnlyOne(s, keep, x)
    ensures |Filter(s, keep)| != 1
  {
    if |Filter(s, keep)| == 1 { SingleIsOnly(s, keep); }
  }

  /// Without a single exact name, what the words that begin so decide.
  lemma {:induction false} NarrowPrefix(apps: seq<App>, exact: App -> bool, prefix: App -> bool, alike: App -> bool,
                                        score: App -> real)
    requires forall a :: !OnlyOne(apps, exact, a)
    ensures forall a :: OnlyOne(apps, prefix, a) ==> Narrow(apps, exact, prefix, alike, score) == One(a)
    ensures Several(apps, prefix) ==>
              var r := Narrow(apps, exact, prefix, alike, score); r.Ambiguous? && Holds(apps, prefix, r.apps)
  {
    NotSingle(apps, exact);
    forall a | OnlyOne(apps, prefix, a) ensures Narrow(apps, exact, prefix, alike, score) == One(a) {
      OnlyIsSingle(apps, prefix, a);
    }
    if Several(apps, prefix) {
      SeveralIsMany(apps, prefix);
      FilterHolds(apps, prefix);
    }
  }

  lemma {:induction false} NoneIsEmpty<T(!new)>(s: seq<T>, keep: T -> bool)
    requires forall x :: x in s ==> !keep(x)
    ensures Filter(s, keep) == []
  {
    if s != [] {
      assert forall x :: x in s[1..] ==> x in s;
      NoneIsEmpty(s[1..], keep);
    }
  }

  /// Without any, what the scores decide.
  lemma {:induction false} NarrowAlike(apps: seq<App>, exact: App -> bool, prefix: App -> bool, alike: App -> bool,
                                       score: App -> real)
    requires forall a :: a in apps ==> !prefix(a) && !exact(a)
    ensures forall a :: ClearWinner(apps, alike, score, a) ==> Narrow(apps, exact, prefix, alike, score) == One(a)
    ensures (exists a :: a in apps && alike(a)) && (forall a :: !ClearWinner(apps, alike, score, a)) ==>
              var r := Narrow(apps, exact, prefix, alike, score);
              r.Ambiguous? && Holds(apps, alike, r.apps) && Descending(r.apps, score)
  {
    NoneIsEmpty(apps, exact);
    NoneIsEmpty(apps, prefix);
    FilterHolds(apps, alike);
    var best := Sorted(Filter(apps, alike), score);
    SortedDescends(Filter(apps, alike), score);
    forall a | ClearWinner(apps, alike, score, a) ensures Narrow(apps, exact, prefix, alike, score) == One(a) {
      FilterHas(apps, alike, a);
      WinnerIsFirst(apps, alike, score, best, a);
    }
    if (exists a :: a in apps && alike(a)) && (forall a :: !ClearWinner(apps, alike, score, a)) {
      var a :| a in apps && alike(a);
      FilterHas(apps, alike, a);
      if Judged(best, score).Some? { FirstIsWinner(apps, alike, score, best); }
    }
  }

  lemma {:induction false} ExactIsPrefix(l: Letters, lower: string, a: App)
    ensures Exact(l, lower, a) ==> Prefix(l, lower, a)
  {
  }

  /// If exactly one application has the name that was said, it is that one, whatever others begin so.
  lemma {:induction false} ExactNameWins(l: Letters, apps: seq<App>, said: string, a: App)
    requires Trim(said) != [] && multiset(apps)[a] == 1
    requires forall b :: b in apps ==> (b == a <==> FoldAll(l.fold, b.name) == FoldAll(l.fold, Trim(said)))
    ensures Resolve(l, apps, said) == One(a)
  {
    var lower := FoldAll(l.fold, Trim(said));
    assert OnlyOne(apps, IsExact(l, lower), a);
    NarrowExact(apps, IsExact(l, lower), IsPrefix(l, lower), IsAlike(l, lower), Scored(l, lower), a);
  }

  /// If not, and exactly one has a word beginning so, it is that one; and if several have, they are
  /// listed, each of them and no other.
  lemma {:induction false} WordsDecide(l: Letters, apps: seq<App>, said: string)
    requires Trim(said) != [] && forall a :: !OnlyOne(apps, IsExact(l, FoldAll(l.fold, Trim(said))), a)
    ensures var (prefix, r) := (IsPrefix(l, FoldAll(l.fold, Trim(said))), Resolve(l, apps, said));
            && (forall a :: OnlyOne(apps, prefix, a) ==> r == One(a))
            && (Several(apps, prefix) ==> r.Ambiguous? && Holds(apps, prefix, r.apps))
  {
    var lower := FoldAll(l.fold, Trim(said));
    NarrowPrefix(apps, IsExact(l, lower), IsPrefix(l, lower), IsAlike(l, lower), Scored(l, lower));
  }

  /// What sounds like it: a name in which it does not stand, and whose score is high enough.
  lemma {:induction false} AlikeIff(l: Letters, lower: string, a: App)
    ensures var (name, score) := (FoldAll(l.fold, a.name), Scored(l, lower)(a));
            IsAlike(l, lower)(a) <==> (forall i :: !HasAt(name, lower, i)) && score >= 0.72
    ensures Scored(l, lower)(a) == Fuzzy.Similarity(l.fold, lower, FoldAll(l.fold, a.name))
  {
    var name := FoldAll(l.fold, a.name);
    assert Contains(name, lower) <==> exists i :: HasAt(name, lower, i);
  }

  /// If none has, it is the one that sounds like it and is ahead of every other by the margin; and if
  /// some sound like it and none is, they are listed, each of them and no other, by falling score.
  lemma {:induction false} ScoresDecide(l: Letters, apps: seq<App>, said: string)
    requires Trim(said) != [] && forall a :: a in apps ==> !Prefix(l, FoldAll(l.fold, Trim(said)), a)
    ensures var lower := FoldAll(l.fold, Trim(said));
            var (alike, score, r) := (IsAlike(l, lower), Scored(l, lower), Resolve(l, apps, said));
            && (forall a :: ClearWinner(apps, alike, score, a) ==> r == One(a))
            && ((exists a :: a in apps && alike(a)) && (forall a :: !ClearWinner(apps, alike, score, a)) ==>
                  r.Ambiguous? && Holds(apps, alike, r.apps) && Descending(r.apps, score))
  {
    var lower := FoldAll(l.fold, Trim(said));
    forall a | a in apps ensures !IsExact(l, lower)(a) { ExactIsPrefix(l, lower, a); }
    NarrowAlike(apps, IsExact(l, lower), IsPrefix(l, lower), IsAlike(l, lower), Scored(l, lower));
  }
}
