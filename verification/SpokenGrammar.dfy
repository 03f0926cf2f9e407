// The spoken grammar: an utterance in, an edit intent out (crates/edit-intent/src/parse.rs and the
// `parse` of crates/edit-intent/src/lib.rs).
//
// Lower-casing is the per-character `Fold`. The literal verbs slice by bytes, as the program does.

module SpokenGrammar {
  import opened Common
  import opened Text

  datatype Which = Nth(n: nat) | Last
  datatype TextUnit = Sentence | Word | Line | Paragraph | Character
  datatype Scope = Whole | Unit(which: Which, kind: TextUnit)
  datatype Case = Upper | Lower | Title | SentenceCase
  datatype Anchor = AtEnd | After(text: string)
  datatype IdentCase = Snake | ScreamingSnake | Kebab | Camel | Pascal
  datatype ListKind = JoinLines | SplitSentences | Bullet | Number
  datatype UndoDepth = One | All

  datatype Intent =
    | Replace(from: string, into: string)
    | Delete(text: string)
    | Append(text: string)
    | Recase(style: Case)
    | DeleteScope(scope: Scope)
    | Scoped(scope: Scope, intent: Intent)
    | Punctuate(mark: char, anchor: Anchor)
    | DeleteMark(mark: char, which: Which)
    | Wrap(open: string, close: string)
    | Identifier(ident: IdentCase)
    | ListOp(kind: ListKind)
    | Undo(depth: UndoDepth)
    | Freeform(instruction: string)

  /// A rule's answer; `Pass` hands the utterance to the literal verbs.
  datatype Decision = Accept(intent: Intent) | Refuse | Pass

  // ---- Tokens ---------------------------------------------------------------------------------------

  predicate IsMarkChar(c: char) { c in {',', '.', '!', '?', ';', ':'} }

  /// `trim_matches` of the marks a recogniser adds.
  function TrimMarks(s: string): (r: string)
    ensures IsWord(s) ==> forall c :: c in r ==> !IsSpace(c)
    decreases |s|
  {
    if s == [] then s
    else if IsMarkChar(s[0]) then TrimMarks(s[1..])
    else if IsMarkChar(s[|s| - 1]) then TrimMarks(s[..|s| - 1])
    else s
  }

  /// `tokens`, after splitting.
  function Clean(ws: seq<string>): seq<string>
  {
    if ws == [] then []
    else
      var t := TrimMarks(ws[0]);
      (if t == [] then [] else [t]) + Clean(ws[1..])
  }

  function Tokens(phrase: string): seq<string> { Clean(Words(phrase)) }

  // ---- Scope phrases -------------------------------------------------------------------------------

  function Ordinal(w: string): Option<Which>
  {
    if w in ["first"] then Some(Nth(0))
    else if w in ["second"] then Some(Nth(1))
    else if w in ["third"] then Some(Nth(2))
    else if w in ["fourth"] then Some(Nth(3))
    else if w in ["fifth"] then Some(Nth(4))
    else if w in ["last", "final", "this", "that"] then Some(Last)
    else None
  }

  function UnitOf(w: string): Option<TextUnit>
  {
    if w in ["sentences", "sentence"] then Some(Sentence)
    else if w in ["paragraphs", "paragraph"] then Some(Paragraph)
    else if w in ["lines", "line"] then Some(Line)
    else if w in ["words", "word"] then Some(Word)
    else if w in ["letter", "character", "char"] then Some(Character)
    else None
  }

  lemma {:induction false} OrdinalIsNoUnit(w: string)
    ensures Ordinal(w).Some? ==> UnitOf(w).None? && w != "the"
  {
  }

  /// An ordinal directly followed by a unit.
  function PairAt(toks: seq<string>, i: nat): Option<Scope>
  {
    if i + 1 < |toks| && Ordinal(toks[i]).Some? && UnitOf(toks[i + 1]).Some?
    then Some(Unit(Ordinal(toks[i]).value, UnitOf(toks[i + 1]).value)) else None
  }

  /// `leading_scope` of toks[i..]: the scope, and how many tokens it takes.
  function LeadingScope(toks: seq<string>, i: nat): (r: Option<(Scope, nat)>)
    requires i <= |toks|
    ensures r.Some? ==> 2 <= r.value.1 <= 3 && i + r.value.1 <= |toks|
  {
    var j := if i < |toks| && toks[i] == "the" then i + 1 else i;
    if PairAt(toks, j).Some? then Some((PairAt(toks, j).value, j + 2 - i)) else None
  }

  /// Every scope the tokens name from i on, one for each ordinal directly before a unit.
  function ScopesFrom(toks: seq<string>, i: nat): seq<Scope>
    decreases |toks| - i
  {
    if i >= |toks| then []
    else (if PairAt(toks, i).Some? then [PairAt(toks, i).value] else []) + ScopesFrom(toks, i + 1)
  }

  lemma {:induction false} NoPair(toks: seq<string>, i: nat)
    requires i < |toks| && (toks[i] == "the" || UnitOf(toks[i]).Some?)
    ensures PairAt(toks, i).None?
  {
    OrdinalIsNoUnit(toks[i]);
  }

  lemma {:induction false} Passed(toks: seq<string>, i: nat)
    requires i < |toks| && PairAt(toks, i).None?
    ensures ScopesFrom(toks, i) == ScopesFrom(toks, i + 1)
  {
  }

  lemma {:induction false} ScopeTaken(toks: seq<string>, i: nat)
    requires i < |toks|
    ensures var l := LeadingScope(toks, i);
            if l.Some? then ScopesFrom(toks, i) == [l.value.0] + ScopesFrom(toks, i + l.value.1)
            else ScopesFrom(toks, i) == ScopesFrom(toks, i + 1)
  {
    var l := LeadingScope(toks, i);
    if toks[i] == "the" {
      NoPair(toks, i);
      Passed(toks, i);
    }
    if l.Some? {
      var j := i + l.value.1 - 2;
      NoPair(toks, j + 1);
      Passed(toks, j + 1);
    }
  }

  function Only<T>(s: seq<T>): Option<T> { if |s| == 1 then Some(s[0]) else None }

  /// `only_scope`: the scope if the tokens name exactly one. The loop skips past each match, and
  /// still misses none and counts none twice.
  method OnlyScope(toks: seq<string>) returns (r: Option<Scope>)
    ensures r == Only(ScopesFrom(toks, 0))
  {
    var found: Option<Scope> := None;
    var i := 0;
    while i < |toks|
      invariant i <= |toks|
      invariant ScopesFrom(toks, 0) == (if found.Some? then [found.value] else []) + ScopesFrom(toks, i)
    {
      ScopeTaken(toks, i);
      var l := LeadingScope(toks, i);
      if l.Some? {
        if found.Some? {
          return None;
        }
        found := Some(l.value.0);
        i := i + l.value.1;
      } else {
        i := i + 1;
      }
    }
    r := found;
  }

  predicate IsPosition(w: string) { Ordinal(w).Some? && w != "this" && w != "that" }

  predicate NamesUnit(toks: seq<string>) { exists t :: t in toks && UnitOf(t).Some? }

  predicate NamesPosition(toks: seq<string>) { exists t :: t in toks && IsPosition(t) }

  /// `mentions_unconsumed_scope`.
  predicate Mentions(toks: seq<string>) { NamesUnit(toks) && NamesPosition(toks) }

  // ---- Punctuation marks ---------------------------------------------------------------------------

  const MARKS: seq<(string, char)> :=
    [("exclamation mark", '!'), ("exclamation point", '!'), ("question mark", '?'), ("full stop", '.'),
     ("semicolon", ';'), ("semi colon", ';'), ("period", '.'), ("comma", ','), ("colon", ':')]

  lemma {:induction false} FoundIffThere(s: string, part: string)
    ensures Find(s, part, 0).Some? ==> HasAt(s, part, Find(s, part, 0).value)
    ensures Find(s, part, 0).None? ==> forall j: nat :: !HasAt(s, part, j)
  {
    if Find(s, part, 0).Some? {
      FindIsFirst(s, part, 0, Find(s, part, 0).value);
    }
    forall j: nat ensures Find(s, part, 0).None? ==> !HasAt(s, part, j) { FindIsFirst(s, part, 0, j); }
  }

  function Blanked(s: string, at: nat, n: nat): string
    requires at + n <= |s|
  {
    s[..at] + " " + s[at + n..]
  }

  type Table = t: seq<(string, char)> | forall e :: e in t ==> |e.0| > 1 witness []

  /// The marks found in s by the names from k on, each match blanked before the search goes on.
  function MarksFrom(table: Table, s: string, k: nat): seq<char>
    requires k <= |table|
    decreases |table| - k, |s|
  {
    if k == |table| then []
    else
      var name := table[k].0;
      var at := Find(s, name, 0);
      if at.None? then MarksFrom(table, s, k + 1)
      else [table[k].1] + MarksFrom(table, Blanked(s, at.value, |name|), k)
  }

  predicate NamesMark(s: string) { exists k :: 0 <= k < |MARKS| && Contains(s, MARKS[k].0) }

  /// The one mark of the list, however often it occurs in it.
  function Same(found: seq<char>): Option<char>
  {
    if found != [] && forall c :: c in found ==> c == found[0] then Some(found[0]) else None
  }

  /// Every mark found so far is the one remembered.
  ghost predicate Tally(found: seq<char>, r: Option<char>)
  {
    && (found == [] <==> r.None?)
    && (r.Some? ==> forall b :: b in found ==> b == r.value)
  }

  lemma {:induction false} OneMore(before: seq<char>, r: Option<char>, c: char, rest: seq<char>)
    requires Tally(before, r)
    ensures before + ([c] + rest) == (before + [c]) + rest
    ensures if r.Some? && r.value != c then Same(before + ([c] + rest)).None? else Tally(before + [c], Some(c))
  {
    var all := before + ([c] + rest);
    assert all[|before|] == c && c in all;
    if r.Some? && r.value != c {
      assert before[0] in before && all[0] == before[0];
    }
  }

  lemma {:induction false} TallyIsSame(found: seq<char>, r: Option<char>)
    requires Tally(found, r)
    ensures Same(found + []) == r
  {
    assert found + [] == found;
    assert found != [] ==> found[0] in found;
  }

  /// `only_mark`, over any table: the mark that the text names, if it names one and no other.
  method OnlyMarkOf(table: Table, lower: string) returns (r: Option<char>)
    ensures r == Same(MarksFrom(table, lower, 0))
  {
    var remaining := lower;
    ghost var before: seq<char> := [];
    r := None;
    var k := 0;
    while k < |table|
      invariant k <= |table|
      invariant MarksFrom(table, lower, 0) == before + MarksFrom(table, remaining, k)
      invariant Tally(before, r)
    {
      var (name, mark) := table[k];
      assert table[k] in table;
      var at := Find(remaining, name, 0);
      while at.Some?
        invariant MarksFrom(table, lower, 0) == before + MarksFrom(table, remaining, k)
        invariant Tally(before, r)
        invariant at == Find(remaining, name, 0)
        decreases |remaining|
      {
        var rest := Blanked(remaining, at.value, |name|);
        ghost var found := MarksFrom(table, rest, k);
        assert MarksFrom(table, remaining, k) == [mark] + found;
        OneMore(before, r, mark, found);
        if r.Some? && r.value != mark {
          return None;
        }
        r := Some(mark);
        before := before + [mark];
        remaining := rest;
        at := Find(remaining, name, 0);
      }
      k := k + 1;
    }
    TallyIsSame(before, r);
  }

  lemma {:induction false} MarkNames()
    ensures forall e :: e in MARKS ==> |e.0| > 1
  {
  }

  /// `only_mark` as the rules use it.
  function OnlyMark(text: string): Option<char>
  {
    MarkNames();
    Same(MarksFrom(MARKS, text, 0))
  }

  /// A text that names a mark has one found in it; so no single mark means two different ones.
  lemma {:induction false} NamedIsFound(table: Table, s: string, k: nat, m: nat)
    requires k <= m < |table| && Contains(s, table[m].0)
    ensures MarksFrom(table, s, k) != []
    decreases m - k
  {
    FoundIffThere(s, table[k].0);
    if Find(s, table[k].0, 0).None? && k < m {
      NamedIsFound(table, s, k + 1, m);
    }
  }

  // ---- The rules -----------------------------------------------------------------------------------
  //
  // Each answers None for an utterance that is not its shape.

  function StripHead(toks: seq<string>, head: seq<string>): Option<seq<string>>
  {
    if head <= toks then Some(toks[|head|..]) else None
  }

  function StripAny(toks: seq<string>, heads: seq<seq<string>>): Option<seq<string>>
  {
    if heads == [] then None
    else if StripHead(toks, heads[0]).Some? then StripHead(toks, heads[0])
    else StripAny(toks, heads[1..])
  }

  predicate ContainsAny(s: string, parts: seq<string>) { exists p :: p in parts && Contains(s, p) }

  function UndoRule(toks: seq<string>): Option<UndoDepth>
  {
    var said := Join(toks);
    if said in ["undo", "undo that", "undo the last edit", "never mind", "nevermind", "scratch that", "scratch this"]
    then Some(One)
    else if said in ["undo everything", "go back to the original", "revert everything", "start over"] then Some(All)
    else None
  }

  function DeleteUnitRule(toks: seq<string>): Option<Decision>
  {
    var rest := StripAny(toks, [["delete"], ["remove"], ["get", "rid", "of"], ["cut"], ["erase"]]);
    if rest.None? || rest.value == [] then None
    else
      var lead := LeadingScope(rest.value, 0);
      if lead.Some? then
        Some(if lead.value.1 != |rest.value| then Refuse else Accept(DeleteScope(lead.value.0)))
      else if Join(rest.value) in ["everything", "all of this", "all of it", "the whole thing"]
      then Some(Accept(DeleteScope(Whole)))
      else None
  }

  function PositionOf(toks: seq<string>, w: string): (i: nat)
    ensures i <= |toks|
  {
    if toks == [] || toks[0] == w then 0 else 1 + PositionOf(toks[1..], w)
  }

  function StripArticle(anchor: seq<string>): seq<string>
  {
    if ["the", "word"] <= anchor then anchor[2..] else if ["the"] <= anchor then anchor[1..] else anchor
  }

  /// A placement that the rule cannot compute.
  predicate NamesPlacement(toks: seq<string>)
  {
    exists t :: t in toks && t in ["before", "between", "around", "each", "every"]
  }

  function PunctuationRule(lower: string, toks: seq<string>): Option<Decision>
    requires toks != []
  {
    if toks[0] !in ["add", "at", "put", "insert", "stick", "append"] then None
    else
      var mark := OnlyMark(lower);
      if mark.None? then None
      else if NamesPlacement(toks) then Some(Refuse)
      else
        var i := PositionOf(toks, "after");
        if i < |toks| then
          var anchor := StripArticle(toks[i + 1..]);
          if anchor == [] || Mentions(anchor) then Some(Refuse)
          else Some(Accept(Punctuate(mark.value, After(Join(anchor)))))
        else if Mentions(toks) then Some(Refuse)
        else Some(Accept(Punctuate(mark.value, AtEnd)))
  }

  function DeleteMarkRule(toks: seq<string>): Option<Decision>
  {
    var rest := StripAny(toks, [["delete"], ["remove"], ["get", "rid", "of"]]);
    if rest.None? then None
    else
      var named := if ["the"] <= rest.value then rest.value[1..] else rest.value;
      if named == [] || Ordinal(named[0]).None? then None
      else
        var mark := OnlyMark(Join(named[1..]));
        if mark.None? then None else Some(Accept(DeleteMark(mark.value, Ordinal(named[0]).value)))
  }

  function Wrapper(lower: string): Option<(string, string)>
  {
    if Contains(lower, "single quote") then Some(("'", "'"))
    else if Contains(lower, "quote") then Some(("\"", "\""))
    else if ContainsAny(lower, ["backtick", "back tick", "code"]) then Some(("`", "`"))
    else if Contains(lower, "square bracket") then Some(("[", "]"))
    else if ContainsAny(lower, ["curly", "brace"]) then Some(("{", "}"))
    else if ContainsAny(lower, ["paren", "bracket"]) then Some(("(", ")"))
    else if ContainsAny(lower, ["bold", "double asterisk"]) then Some(("**", "**"))
    else if ContainsAny(lower, ["asterisk", "star"]) then Some(("*", "*"))
    else None
  }

  function WrapRule(lower: string, toks: seq<string>): Option<Decision>
    requires toks != []
  {
    if toks[0] !in ["wrap", "surround", "put", "enclose"] then None
    else if !exists t :: t in toks && t in ["in", "with", "inside"] then None
    else if Mentions(toks) then Some(Refuse)
    else
      var w := Wrapper(lower);
      if w.None? then None else Some(Accept(Wrap(w.value.0, w.value.1)))
  }

  function StyleNamed(lower: string): Option<IdentCase>
  {
    if ContainsAny(lower, ["screaming snake", "constant case"]) then Some(ScreamingSnake)
    else if Contains(lower, "snake case") then Some(Snake)
    else if Contains(lower, "camel case") then Some(Camel)
    else if ContainsAny(lower, ["pascal case", "upper camel case"]) then Some(Pascal)
    else if ContainsAny(lower, ["kebab case", "dash case", "slug"]) then Some(Kebab)
    else None
  }

  function IdentifierRule(lower: string, toks: seq<string>): Option<Decision>
  {
    var style := StyleNamed(lower);
    if style.None? then None
    else if Mentions(toks) then Some(Refuse)
    else Some(Accept(Identifier(style.value)))
  }

  predicate IsCount(t: string)
  {
    t in ["two", "three", "four", "five", "six", "seven", "eight", "nine", "ten"]
    || (|t| <= 2 && forall c :: c in t ==> '0' <= c <= '9')
  }

  predicate NamesCount(toks: seq<string>) { exists t :: t in toks && IsCount(t) }

  predicate HasAny(toks: seq<string>, ws: seq<string>) { exists w :: w in ws && w in toks }

  /// Joining is asked for; a count does not matter to it.
  predicate Joins(lower: string, toks: seq<string>)
  {
    (HasAny(toks, ["join"]) || ContainsAny(lower, ["one line", "single line"])) && HasAny(toks, ["line", "lines", "them", "these"])
  }

  /// The other operations on lists, which a count shuts out.
  function ListNamed(lower: string, toks: seq<string>): Option<ListKind>
  {
    if Contains(lower, "bullet") then Some(Bullet)
    else if Contains(lower, "number") && HasAny(toks, ["lines", "list", "sentences"]) then Some(Number)
    else if Contains(lower, "numbered list") then Some(Number)
    else if HasAny(toks, ["split"]) && HasAny(toks, ["line", "lines", "sentence", "sentences"]) then Some(SplitSentences)
    else if Contains(lower, "own line") then Some(SplitSentences)
    else None
  }

  function ListRule(lower: string, toks: seq<string>): Option<Decision>
  {
    if Joins(lower, toks) then Some(Accept(ListOp(JoinLines)))
    else if NamesCount(toks) || ListNamed(lower, toks).None? then None
    else Some(Accept(ListOp(ListNamed(lower, toks).value)))
  }

  function CaseNamed(lower: string, scope: Scope): Option<Case>
  {
    if ContainsAny(lower, ["title case", "titlecase"]) then Some(Title)
    else if Contains(lower, "sentence case") then Some(SentenceCase)
    else if ContainsAny(lower, ["uppercase", "upper case", "all caps", "shout"]) then Some(Upper)
    else if ContainsAny(lower, ["lowercase", "lower case"]) then Some(Lower)
    else if ContainsAny(lower, ["capitalize", "capitalise"]) && scope.Unit? && (scope.kind.Word? || scope.kind.Character?)
    then Some(Title)
    else None
  }

  function RecaseRule(lower: string, toks: seq<string>): Option<Decision>
  {
    var scope := Only(ScopesFrom(toks, 0));
    if scope.None? then if Mentions(toks) then Some(Refuse) else None
    else
      var style := CaseNamed(lower, scope.value);
      Some(if style.None? then Refuse else Accept(Scoped(scope.value, Recase(style.value))))
  }

  function UnresolvedMarkRule(lower: string, toks: seq<string>): Option<Decision>
    requires toks != []
  {
    if toks[0] in ["add", "put", "insert", "delete", "remove", "change", "replace", "swap", "move", "make", "get"]
       && NamesMark(lower)
    then Some(Refuse) else None
  }

  function OrdinalRule(toks: seq<string>): Option<Decision>
    requires toks != []
  {
    if toks[0] in ["change", "replace", "delete", "remove", "swap", "capitalize"]
       && |toks| > 2 && toks[1] == "the" && IsPosition(toks[2])
    then Some(Refuse) else None
  }

  /// The rules after the scoped prefix, in order.
  function Flat(lower: string, toks: seq<string>): Decision
    requires toks != []
  {
    if DeleteUnitRule(toks).Some? then DeleteUnitRule(toks).value
    else if PunctuationRule(lower, toks).Some? then PunctuationRule(lower, toks).value
    else if DeleteMarkRule(toks).Some? then DeleteMarkRule(toks).value
    else if WrapRule(lower, toks).Some? then WrapRule(lower, toks).value
    else if IdentifierRule(lower, toks).Some? then IdentifierRule(lower, toks).value
    else if ListRule(lower, toks).Some? then ListRule(lower, toks).value
    else if RecaseRule(lower, toks).Some? then RecaseRule(lower, toks).value
    else if UnresolvedMarkRule(lower, toks).Some? then UnresolvedMarkRule(lower, toks).value
    else if OrdinalRule(toks).Some? then OrdinalRule(toks).value
    else Pass
  }

  // ---- The literal verbs ---------------------------------------------------------------------------

  /// `str::get` of a range of bytes.
  function GetBytes(s: string, from: nat, end: nat): Option<string>
  {
    var (a, b) := (AtByte(s, from, 0), AtByte(s, end, 0));
    if a.Some? && b.Some? && a.value <= b.value then Some(s[a.value..b.value]) else None
  }

  /// `slice_original`. When the sizes agree the range must be in order, or the indexing would panic.
  function SliceOriginal(trimmed: string, lower: string, from: nat, end: nat): string
    requires Size(lower) == Size(trimmed) ==> from <= end
  {
    if Size(lower) == Size(trimmed) && GetBytes(trimmed, from, end).Some? then GetBytes(trimmed, from, end).value
    else if GetBytes(lower, from, end).Some? then GetBytes(lower, from, end).value
    else lower
  }

  /// `rfind`, over the part of s from i on.
  function LastFind(s: string, part: string, i: nat): (r: Option<nat>)
    ensures r.Some? ==> i <= r.value && r.value + |part| <= |s|
    decreases |s| - i
  {
    if i > |s| then None
    else if LastFind(s, part, i + 1).Some? then LastFind(s, part, i + 1)
    else if HasAt(s, part, i) then Some(i) else None
  }

  /// Neither operand may be blank.
  function Substitution(from: string, into: string): Option<Intent>
  {
    if |from| == 0 || |into| == 0 then None else Some(Replace(from, into))
  }

  datatype Span = Span(start: nat, end: nat)

  /// Where the last joiner stands in what follows the verb.
  function JoinerIn(lower: string, head: string, joiner: string): (r: Option<Span>)
    ensures r.Some? ==> |head| <= r.value.start <= r.value.end <= |lower|
  {
    var at := if head <= lower then LastFind(lower[|head|..], joiner, 0) else None;
    if at.None? then None else Some(Span(|head| + at.value, |head| + at.value + |joiner|))
  }

  lemma {:induction false} SizesInOrder(s: string, a: nat, b: nat)
    requires a <= b <= |s|
    ensures SizeTo(s, a) <= SizeTo(s, b) <= Size(s)
  {
    if a < b { SizesRise(s, a, b); }
    if b < |s| { SizesRise(s, b, |s|); }
  }

  /// The operand found at lower[a..b].
  function Between(trimmed: string, lower: string, a: nat, b: nat): string
    requires a <= b <= |lower|
  {
    SizesInOrder(lower, a, b);
    Trim(SliceOriginal(trimmed, lower, SizeTo(lower, a), SizeTo(lower, b)))
  }

  /// The operand from lower[a] on; it ends where the original does.
  function Onward(trimmed: string, lower: string, a: nat): string
    requires a <= |lower|
  {
    SizesInOrder(lower, a, a);
    Trim(SliceOriginal(trimmed, lower, SizeTo(lower, a), Size(trimmed)))
  }

  /// The operands at lower[start..cut] and from lower[resume] on.
  function Operands(trimmed: string, lower: string, start: nat, cut: nat, resume: nat): Option<Intent>
    requires start <= cut <= resume <= |lower|
  {
    Substitution(Between(trimmed, lower, start, cut), Onward(trimmed, lower, resume))
  }

  function ReplaceVerb(trimmed: string, lower: string, head: string, joiner: string): Option<Intent>
  {
    var at := JoinerIn(lower, head, joiner);
    if at.None? then None else Operands(trimmed, lower, |head|, at.value.start, at.value.end)
  }

  function Operand(trimmed: string, lower: string, heads: seq<string>): Option<string>
  {
    if heads == [] then None
    else if heads[0] <= lower && Trim(lower[|heads[0]|..]) != [] then Some(Onward(trimmed, lower, |heads[0]|))
    else Operand(trimmed, lower, heads[1..])
  }

  function WholeCase(lower: string): Option<Case>
  {
    if ContainsAny(lower, ["uppercase", "all caps", "capitalize everything"]) then Some(Upper)
    else if ContainsAny(lower, ["lowercase", "all lowercase"]) then Some(Lower)
    else if ContainsAny(lower, ["title case", "titlecase"]) then Some(Title)
    else if ContainsAny(lower, ["sentence case", "sentencecase"]) then Some(SentenceCase)
    else None
  }

  function Literal(trimmed: string, lower: string): Intent
  {
    var r1 := ReplaceVerb(trimmed, lower, "change ", " to ");
    var r2 := ReplaceVerb(trimmed, lower, "replace ", " with ");
    var r3 := ReplaceVerb(trimmed, lower, "make ", " into ");
    var r4 := ReplaceVerb(trimmed, lower, "swap ", " for ");
    var gone := Operand(trimmed, lower, ["delete ", "remove ", "get rid of ", "scratch "]);
    var more := Operand(trimmed, lower, ["append ", "add ", "also add "]);
    if r1.Some? then r1.value
    else if r2.Some? then r2.value
    else if r3.Some? then r3.value
    else if r4.Some? then r4.value
    else if gone.Some? then Delete(gone.value)
    else if more.Some? then Append(more.value)
    else if WholeCase(lower).Some? then Recase(WholeCase(lower).value)
    else Freeform(trimmed)
  }

  // ---- The whole grammar ---------------------------------------------------------------------------

  /// `tail_of_original`: the last words as they were said, when words and tokens count the same.
  function TailOfOriginal(original: string, total: nat, tail: nat): (r: Option<string>)
    ensures r.Some? ==> tail <= total == |Words(original)|
    ensures r.Some? ==> Words(Trim(r.value)) == Words(original)[total - tail..]
  {
    var words := Words(original);
    if |words| != total || tail > |words| then None
    else
      JoinedWords(words[|words| - tail..]);
      Some(Join(words[|words| - tail..]))
  }

  function ScopedPrefix(fold: Fold, trimmed: string, toks: seq<string>): (r: Option<Decision>)
    requires toks != []
    ensures r.Some? && !r.value.Refuse? ==> r.value.Accept? && r.value.intent.Scoped?
    decreases |Words(trimmed)|, 0
  {
    if toks[0] !in ["in", "within", "inside"] || LeadingScope(toks, 1).None? then None
    else
      var (scope, used) := LeadingScope(toks, 1).value;
      var tail := |toks| - 1 - used;
      if tail == 0 then Some(Refuse)
      else
        var inner := TailOfOriginal(trimmed, |toks|, tail);
        if inner.None? then None
        else
          var intent := Parse(fold, inner.value);
          Some(if intent.Freeform? || intent.Scoped? then Refuse else Accept(Scoped(scope, intent)))
  }

  /// `parse::parse`.
  function Extended(fold: Fold, trimmed: string, lower: string): Decision
    decreases |Words(trimmed)|, 1
  {
    var toks := Tokens(lower);
    if toks == [] then Pass
    else if UndoRule(toks).Some? then Accept(Undo(UndoRule(toks).value))
    else
      var prefixed := ScopedPrefix(fold, trimmed, toks);
      if prefixed.Some? then prefixed.value else Flat(lower, toks)
  }

  /// `parse`. The number of words is what shrinks when a scoped prefix is peeled off.
  function Parse(fold: Fold, utterance: string): Intent
    decreases |Words(Trim(utterance))|, 2
  {
    var trimmed := Trim(utterance);
    var lower := FoldAll(fold, trimmed);
    match Extended(fold, trimmed, lower)
    case Accept(intent) => intent
    case Refuse => Freeform(trimmed)
    case Pass => Literal(trimmed, lower)
  }

  // ---- What the grammar never does -----------------------------------------------------------------

  /// Intents that act on the whole target.
  predicate ActsOnAll(i: Intent)
  {
    i.Replace? || i.Delete? || i.Append? || i.Recase? || i.Wrap? || i.Identifier?
    || (i.Punctuate? && i.anchor.AtEnd?) || i == DeleteScope(Whole)
  }

  /// The tokens of an utterance, as the rules see them.
  function Said(fold: Fold, utterance: string): seq<string> { Tokens(FoldAll(fold, Trim(utterance))) }

  predicate Narrow(d: Option<Decision>) { d.None? || d.value.Refuse? || (d.value.Accept? && !ActsOnAll(d.value.intent)) }

  predicate AllWords(toks: seq<string>) { forall t :: t in toks ==> IsWord(t) }

  lemma {:induction false} CleanIsWords(ws: seq<string>)
    requires AllWords(ws)
    ensures AllWords(Clean(ws))
  {
    if ws != [] {
      assert ws[0] in ws && AllWords(ws[1..]);
      CleanIsWords(ws[1..]);
    }
  }

  lemma {:induction false} TokensAreWords(phrase: string)
    ensures AllWords(Tokens(phrase))
  {
    CleanIsWords(Words(phrase));
  }

  /// Words that are joined alike are the same.
  lemma {:induction false} SameJoin(a: seq<string>, b: seq<string>)
    requires AllWords(a) && AllWords(b)
    ensures Join(a) == Join(b) <==> a == b
  {
    WordsOfJoin(a);
    WordsOfJoin(b);
  }

  /// What a deleting head is followed by when everything is to go.
  const WHOLE_PHRASES: seq<seq<string>> := [["everything"], ["all", "of", "this"], ["all", "of", "it"], ["the", "whole", "thing"]]

  lemma {:induction false} PhrasesJoined()
    ensures Join(["everything"]) == "everything" && Join(["all", "of", "this"]) == "all of this"
    ensures Join(["all", "of", "it"]) == "all of it" && Join(["the", "whole", "thing"]) == "the whole thing"
    ensures forall w :: w in WHOLE_PHRASES ==> AllWords(w)
  {
    Unjoin(["all", "of", "this"]);
    Unjoin(["of", "this"]);
    Unjoin(["all", "of", "it"]);
    Unjoin(["of", "it"]);
    Unjoin(["the", "whole", "thing"]);
    Unjoin(["whole", "thing"]);
  }

  lemma {:induction false} WholeIffPhrase(rest: seq<string>)
    requires AllWords(rest)
    ensures Join(rest) in ["everything", "all of this", "all of it", "the whole thing"] <==> rest in WHOLE_PHRASES
  {
    PhrasesJoined();
    SameJoin(rest, WHOLE_PHRASES[0]);
    SameJoin(rest, WHOLE_PHRASES[1]);
    SameJoin(rest, WHOLE_PHRASES[2]);
    SameJoin(rest, WHOLE_PHRASES[3]);
  }

  const DELETE_HEADS: seq<seq<string>> := [["delete"], ["remove"], ["get", "rid", "of"], ["cut"], ["erase"]]

  lemma {:induction false} Stripped(toks: seq<string>, heads: seq<seq<string>>)
    ensures StripAny(toks, heads).Some? ==> exists h :: h in heads && toks == h + StripAny(toks, heads).value
  {
    if heads != [] {
      Stripped(toks, heads[1..]);
      assert forall h :: h in heads[1..] ==> h in heads;
      if StripHead(toks, heads[0]).Some? {
        assert heads[0] in heads && toks == heads[0] + StripHead(toks, heads[0]).value;
      }
    }
  }

  lemma {:induction false} HeadsNameNothing()
    ensures forall h, t :: h in DELETE_HEADS && t in h ==> UnitOf(t).None?
  {
  }

  lemma {:induction false} PhrasesNameNothing()
    ensures forall h, t :: h in WHOLE_PHRASES && t in h ==> UnitOf(t).None?
  {
  }

  /// Deleting everything names no unit.
  lemma {:induction false} WholeNamesNoUnit(toks: seq<string>)
    requires AllWords(toks) && DeleteUnitRule(toks) == Some(Accept(DeleteScope(Whole)))
    ensures !NamesUnit(toks)
  {
    var rest := StripAny(toks, DELETE_HEADS).value;
    Stripped(toks, DELETE_HEADS);
    var h :| h in DELETE_HEADS && toks == h + rest;
    assert AllWords(rest);
    WholeIffPhrase(rest);
    HeadsNameNothing();
    PhrasesNameNothing();
    forall t | t in toks ensures UnitOf(t).None? { assert t in h || t in rest; }
  }

  lemma {:induction false} PlacedNeverWidens(lower: string, toks: seq<string>)
    requires toks != [] && Mentions(toks) && AllWords(toks)
    ensures Narrow(DeleteUnitRule(toks)) && Narrow(PunctuationRule(lower, toks)) && Narrow(DeleteMarkRule(toks))
  {
    if DeleteUnitRule(toks) == Some(Accept(DeleteScope(Whole))) { WholeNamesNoUnit(toks); }
  }

  lemma {:induction false} StyledNeverWidens(lower: string, toks: seq<string>)
    requires toks != [] && Mentions(toks)
    ensures Narrow(WrapRule(lower, toks)) && Narrow(IdentifierRule(lower, toks)) && Narrow(ListRule(lower, toks))
    ensures RecaseRule(lower, toks).Some? && Narrow(RecaseRule(lower, toks))
  {
  }

  lemma {:induction false} FlatNeverWidens(lower: string, toks: seq<string>)
    requires toks != [] && Mentions(toks) && AllWords(toks)
    ensures Narrow(Some(Flat(lower, toks)))
  {
    PlacedNeverWidens(lower, toks);
    StyledNeverWidens(lower, toks);
  }

  lemma {:induction false} ExtendedNeverWidens(fold: Fold, trimmed: string, lower: string)
    requires Mentions(Tokens(lower))
    ensures var d := Extended(fold, trimmed, lower);
            !d.Pass? && (d.Accept? ==> !ActsOnAll(d.intent))
  {
    TokensAreWords(lower);
    FlatNeverWidens(lower, Tokens(lower));
  }

  /// An utterance that names a unit and a position is never answered by an edit of the whole
  /// target: whatever it says besides, it is scoped, placed, or refused.
  lemma {:induction false} NeverSilentlyWidened(fold: Fold, utterance: string)
    requires Mentions(Said(fold, utterance))
    ensures !ActsOnAll(Parse(fold, utterance))
  {
    var trimmed := Trim(utterance);
    ExtendedNeverWidens(fold, trimmed, FoldAll(fold, trimmed));
  }

  lemma {:induction false} ScopeNamesUnit(toks: seq<string>, i: nat)
    requires ScopesFrom(toks, i) != []
    ensures NamesUnit(toks)
    decreases |toks| - i
  {
    if PairAt(toks, i).Some? {
      assert toks[i + 1] in toks;
    } else {
      ScopeNamesUnit(toks, i + 1);
    }
  }

  /// A single named scope never reaches the literal verbs, and neither does a position beside a
  /// unit, a mark named after a command word, or an ordinal occurrence.
  lemma {:induction false} LiteralOnlyIf(fold: Fold, utterance: string)
    ensures var toks := Said(fold, utterance);
            IsLiteral(Parse(fold, utterance)) ==>
              && |ScopesFrom(toks, 0)| != 1 && !Mentions(toks)
              && (toks != [] ==> UnresolvedMarkRule(FoldAll(fold, Trim(utterance)), toks).None? && OrdinalRule(toks).None?)
  {
    var trimmed := Trim(utterance);
    LiteralOnlyOnPass(fold, trimmed, FoldAll(fold, trimmed));
  }

  predicate IsLiteral(i: Intent) { i.Replace? || i.Delete? || i.Append? || i.Recase? }

  lemma {:induction false} FlatIsNeverLiteral(lower: string, toks: seq<string>)
    requires toks != []
    ensures Flat(lower, toks).Accept? ==> !IsLiteral(Flat(lower, toks).intent)
    ensures Flat(lower, toks).Pass? ==>
              RecaseRule(lower, toks).None? && UnresolvedMarkRule(lower, toks).None? && OrdinalRule(toks).None?
  {
    if DeleteUnitRule(toks).Some? {
    } else if PunctuationRule(lower, toks).Some? {
    } else if DeleteMarkRule(toks).Some? {
    } else if WrapRule(lower, toks).Some? {
    } else if IdentifierRule(lower, toks).Some? {
    } else if ListRule(lower, toks).Some? {
    }
  }

  lemma {:induction false} LiteralOnlyOnPass(fold: Fold, trimmed: string, lower: string)
    ensures var d := Extended(fold, trimmed, lower);
            && (d.Accept? ==> !IsLiteral(d.intent))
            && (d.Pass? && Tokens(lower) != [] ==>
                  RecaseRule(lower, Tokens(lower)).None? && UnresolvedMarkRule(lower, Tokens(lower)).None?
                  && OrdinalRule(Tokens(lower)).None?)
  {
    if Tokens(lower) != [] {
      FlatIsNeverLiteral(lower, Tokens(lower));
    }
  }

  /// The scope leads, and the intent is what the rest of the words say.
  predicate PrefixSays(fold: Fold, words: seq<string>, toks: seq<string>, scope: Scope, inner: Intent)
    requires toks != []
  {
    var lead := LeadingScope(toks, 1);
    && toks[0] in ["in", "within", "inside"]
    && lead.Some? && scope == lead.value.0
    && 1 + lead.value.1 < |words| == |toks|
    && inner == Parse(fold, Join(words[1 + lead.value.1..]))
  }

  predicate Runnable(i: Intent) { !i.Scoped? && !i.Freeform? }

  lemma {:induction false} TailIs(trimmed: string, total: nat, from: nat)
    requires from <= total
    ensures var words := Words(trimmed);
            TailOfOriginal(trimmed, total, total - from) == if |words| != total then None else Some(Join(words[from..]))
  {
    assert |Words(trimmed)| == total ==> |Words(trimmed)| - (total - from) == from;
  }

  /// What stands after the scope, as it was said.
  function Inner(trimmed: string, toks: seq<string>): Option<string>
  {
    var lead := if toks != [] then LeadingScope(toks, 1) else None;
    var words := Words(trimmed);
    if lead.Some? && 1 + lead.value.1 < |words| == |toks| then Some(Join(words[1 + lead.value.1..])) else None
  }

  lemma {:induction false} PrefixTakesInner(fold: Fold, trimmed: string, toks: seq<string>)
    requires toks != []
    ensures var r := ScopedPrefix(fold, trimmed, toks);
            r.Some? && r.value.Accept? ==>
              && toks[0] in ["in", "within", "inside"] && Inner(trimmed, toks).Some?
              && r.value.intent == Scoped(LeadingScope(toks, 1).value.0, Parse(fold, Inner(trimmed, toks).value))
              && Runnable(r.value.intent.intent)
  {
    var lead := LeadingScope(toks, 1);
    if lead.Some? {
      TailIs(trimmed, |toks|, 1 + lead.value.1);
    }
  }

  lemma {:induction false} PrefixScopes(fold: Fold, trimmed: string, toks: seq<string>)
    requires toks != []
    ensures var r := ScopedPrefix(fold, trimmed, toks);
            r.Some? && r.value.Accept? ==>
              && Runnable(r.value.intent.intent)
              && PrefixSays(fold, Words(trimmed), toks, r.value.intent.scope, r.value.intent.intent)
  {
    PrefixTakesInner(fold, trimmed, toks);
  }

  predicate CaseSays(toks: seq<string>, scope: Scope, inner: Intent)
  {
    ScopesFrom(toks, 0) == [scope] && inner.Recase?
  }

  lemma {:induction false} FlatScopes(lower: string, toks: seq<string>)
    requires toks != [] && Flat(lower, toks).Accept? && Flat(lower, toks).intent.Scoped?
    ensures CaseSays(toks, Flat(lower, toks).intent.scope, Flat(lower, toks).intent.intent)
  {
    if DeleteUnitRule(toks).Some? {
    } else if PunctuationRule(lower, toks).Some? {
    } else if DeleteMarkRule(toks).Some? {
    } else if WrapRule(lower, toks).Some? {
    } else if IdentifierRule(lower, toks).Some? {
    } else if ListRule(lower, toks).Some? {
    }
  }

  /// A scoped intent holds neither a scoped nor a freeform one, and its scope is one the utterance
  /// names: the one right after a leading "in", around what the rest of the words say as they were
  /// said; or the only one, around a change of case.
  lemma {:induction false} ScopedIsWhatWasSaid(fold: Fold, utterance: string)
    requires Parse(fold, utterance).Scoped?
    ensures Runnable(Parse(fold, utterance).intent)
    ensures var (scope, inner) := (Parse(fold, utterance).scope, Parse(fold, utterance).intent);
            var toks := Said(fold, utterance);
            && toks != []
            && (PrefixSays(fold, Words(Trim(utterance)), toks, scope, inner) || CaseSays(toks, scope, inner))
  {
    var trimmed := Trim(utterance);
    var lower := FoldAll(fold, trimmed);
    LiteralIsUnscoped(trimmed, lower);
    assert Extended(fold, trimmed, lower).Accept?;
    ExtendedScopes(fold, trimmed, lower);
  }

  lemma {:induction false} LiteralIsUnscoped(trimmed: string, lower: string)
    ensures !Literal(trimmed, lower).Scoped?
  {
  }

  lemma {:induction false} ExtendedScopes(fold: Fold, trimmed: string, lower: string)
    ensures var (d, toks) := (Extended(fold, trimmed, lower), Tokens(lower));
            d.Accept? && d.intent.Scoped? ==>
              && toks != [] && Runnable(d.intent.intent)
              && (PrefixSays(fold, Words(trimmed), toks, d.intent.scope, d.intent.intent)
                  || CaseSays(toks, d.intent.scope, d.intent.intent))
  {
    var toks := Tokens(lower);
    if toks != [] {
      PrefixScopes(fold, trimmed, toks);
      if Flat(lower, toks).Accept? && Flat(lower, toks).intent.Scoped? {
        FlatScopes(lower, toks);
      }
    }
  }

  // ---- What the grammar does not keep --------------------------------------------------------------

  lemma {:induction false} CleanWords(ws: seq<string>)
    requires forall w :: w in ws ==> IsWord(w) && TrimMarks(w) == w
    ensures Clean(ws) == ws && Tokens(Join(ws)) == ws
  {
    WordsOfJoin(ws);
    CleanIsSame(ws);
  }

  lemma {:induction false} CleanIsSame(ws: seq<string>)
    requires forall w :: w in ws ==> IsWord(w) && TrimMarks(w) == w
    ensures Clean(ws) == ws
  {
    if ws != [] {
      assert ws[0] in ws;
      CleanIsSame(ws[1..]);
    }
  }

  lemma {:induction false} Unjoin(ws: seq<string>)
    requires |ws| > 1
    ensures Join(ws) == ws[0] + (" " + Join(ws[1..]))
  {
    assert ws[0] + " " + Join(ws[1..]) == ws[0] + (" " + Join(ws[1..]));
  }

  lemma {:induction false} NoOperand(t: string, u: string, heads: seq<string>)
    requires forall h :: h in heads ==> !(h <= u)
    ensures Operand(t, u, heads).None?
  {
    if heads != [] {
      assert heads[0] in heads && forall h :: h in heads[1..] ==> h in heads;
      NoOperand(t, u, heads[1..]);
    }
  }

  lemma {:induction false} NothingDeleted(toks: seq<string>)
    requires toks != [] && toks[0] !in ["delete", "remove", "get", "cut", "erase"]
    ensures DeleteUnitRule(toks).None? && DeleteMarkRule(toks).None?
  {
    NoHead(toks, [["delete"], ["remove"], ["get", "rid", "of"], ["cut"], ["erase"]]);
    NoHead(toks, [["delete"], ["remove"], ["get", "rid", "of"]]);
  }

  lemma {:induction false} NoHead(toks: seq<string>, heads: seq<seq<string>>)
    requires toks != [] && forall h :: h in heads ==> h != [] && h[0] != toks[0]
    ensures StripAny(toks, heads).None?
  {
    if heads != [] {
      assert heads[0] in heads && forall h :: h in heads[1..] ==> h in heads;
      NoHead(toks, heads[1..]);
    }
  }

  lemma {:induction false} JoinStarts(toks: seq<string>)
    requires toks != [] && toks[0] != []
    ensures Join(toks) != [] && Join(toks)[0] == toks[0][0]
  {
    if |toks| > 1 { Unjoin(toks); }
  }

  lemma {:induction false} NotUndo(toks: seq<string>)
    requires toks != [] && toks[0] != [] && toks[0][0] !in ['u', 'n', 's', 'g', 'r']
    ensures UndoRule(toks).None?
  {
    JoinStarts(toks);
  }

  /// Not the first word of a scoped prefix, and not of an undo.
  predicate PlainStart(toks: seq<string>)
  {
    && toks != [] && toks[0] != [] && toks[0][0] !in ['u', 'n', 's', 'g', 'r']
    && toks[0] !in ["in", "within", "inside"]
  }

  lemma {:induction false} StartsPlainly(fold: Fold, t: string, lower: string)
    requires PlainStart(Tokens(lower))
    ensures Extended(fold, t, lower) == Flat(lower, Tokens(lower))
  {
    NotUndo(Tokens(lower));
    assert ScopedPrefix(fold, t, Tokens(lower)).None?;
  }

  /// The entry for "camel case" stands before the one for "upper camel case", which therefore never
  /// selects Pascal case: a snake style named beside it wins, and otherwise it is camel case.
  lemma {:induction false} UpperCamelIsCamel(lower: string)
    requires Contains(lower, "upper camel case")
    ensures StyleNamed(lower)
            == Some(if ContainsAny(lower, ["screaming snake", "constant case"]) then ScreamingSnake
                    else if Contains(lower, "snake case") then Snake else Camel)
  {
    var i :| 0 <= i <= |lower| - |"upper camel case"| && HasAt(lower, "upper camel case", i);
    var here := lower[i..i + 16];
    assert here[6..16] == "camel case";
    assert here[6..16] == lower[i + 6..i + 16];
    assert HasAt(lower, "camel case", i + 6);
  }

  /// The joiner split at is the last one.
  lemma {:induction false} LastFindAt(s: string, part: string, i: nat, at: nat)
    requires i <= at && HasAt(s, part, at) && forall j :: j > at ==> !HasAt(s, part, j)
    ensures LastFind(s, part, i) == Some(at)
    decreases at - i
  {
    if i < at {
      LastFindAt(s, part, i + 1, at);
    } else {
      NoneLater(s, part, i + 1);
    }
  }

  lemma {:induction false} NoneLater(s: string, part: string, i: nat)
    requires forall j :: j >= i ==> !HasAt(s, part, j)
    ensures LastFind(s, part, i).None?
    decreases |s| - i
  {
    if i <= |s| {
      NoneLater(s, part, i + 1);
    }
  }
}
