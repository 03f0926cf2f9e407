// White space, trimming, words and substrings, as the standard library defines them.

module Text {
  import opened Common

  /// Unicode White_Space, which is what trimming removes.
  predicate IsSpace(c: char)
  {
    var n := c as int;
    9 <= n <= 13 || n == 32 || n == 0x85 || n == 0xA0 || n == 0x1680 || 0x2000 <= n <= 0x200A
    || n == 0x2028 || n == 0x2029 || n == 0x202F || n == 0x205F || n == 0x3000
  }

  /// The first index from i on that is not white space.
  function Skip(s: string, i: nat): (a: nat)
    requires i <= |s|
    ensures i <= a <= |s|
    decreases |s| - i
  {
    if i < |s| && IsSpace(s[i]) then Skip(s, i + 1) else i
  }

  /// The end of s[from..i] without the white space at its end.
  function Back(s: string, from: nat, i: nat): (b: nat)
    requires from <= i <= |s|
    ensures from <= b <= i
  {
    if from < i && IsSpace(s[i - 1]) then Back(s, from, i - 1) else i
  }

  /// `str::trim`.
  function Trim(s: string): (r: string)
    ensures |r| <= |s|
  {
    var a := Skip(s, 0);
    s[a..Back(s, a, |s|)]
  }

  /// The length of the run without white space that s starts with.
  function WordLength(s: string): (n: nat)
    ensures n <= |s| && (n < |s| ==> IsSpace(s[n]))
    ensures forall i :: 0 <= i < n ==> !IsSpace(s[i])
    ensures s != [] && !IsSpace(s[0]) ==> n > 0
  {
    if s == [] || IsSpace(s[0]) then 0 else 1 + WordLength(s[1..])
  }

  /// `str::split_whitespace`.
  function Words(s: string): (ws: seq<string>)
    ensures forall w :: w in ws ==> IsWord(w)
    decreases |s|
  {
    if s == [] then []
    else if IsSpace(s[0]) then Words(s[1..])
    else
      var n := WordLength(s);
      [s[..n]] + Words(s[n..])
  }

  predicate IsWord(w: string) { w != [] && forall c :: c in w ==> !IsSpace(c) }

  /// Words joined by single spaces.
  function Join(ws: seq<string>): string
  {
    if ws == [] then [] else if |ws| == 1 then ws[0] else ws[0] + " " + Join(ws[1..])
  }

  lemma {:induction false} FirstWord(w: string, rest: string)
    requires IsWord(w) && (rest == [] || IsSpace(rest[0]))
    ensures Words(w + rest) == [w] + Words(rest)
  {
    var s := w + rest;
    assert s[0] == w[0] && w[0] in w;
    forall i | 0 <= i < |w| ensures !IsSpace(s[i]) { assert s[i] == w[i] && w[i] in w; }
    assert rest != [] ==> s[|w|] == rest[0];
    assert WordLength(s) == |w|;
    assert s[..|w|] == w && s[|w|..] == rest;
  }

  lemma {:induction false} WordsOfJoin(ws: seq<string>)
    requires forall w :: w in ws ==> IsWord(w)
    ensures Words(Join(ws)) == ws
    decreases |ws|
  {
    if |ws| == 1 {
      assert ws[0] + [] == ws[0];
      FirstWord(ws[0], []);
      assert ws == [ws[0]] + [];
    } else if |ws| > 1 {
      var rest := ws[1..];
      var tail := " " + Join(rest);
      WordsOfJoin(rest);
      assert IsSpace(' ') && tail[0] == ' ' && tail[1..] == Join(rest);
      FirstWord(ws[0], tail);
      assert ws[0] + tail == Join(ws);
      assert ws == [ws[0]] + rest;
    }
  }

  lemma {:induction false} JoinEnds(ws: seq<string>)
    requires ws != [] && forall w :: w in ws ==> IsWord(w)
    ensures var j := Join(ws); j != [] && !IsSpace(j[0]) && !IsSpace(j[|j| - 1])
    decreases |ws|
  {
    assert ws[0] in ws && ws[0][0] in ws[0] && ws[0][|ws[0]| - 1] in ws[0];
    if |ws| > 1 {
      JoinEnds(ws[1..]);
    }
  }

  /// What makes the recursion end: the joined words are trimmed already and split back into themselves.
  lemma {:induction false} JoinedWords(ws: seq<string>)
    requires forall w :: w in ws ==> IsWord(w)
    ensures Trim(Join(ws)) == Join(ws) && Words(Trim(Join(ws))) == ws
  {
    WordsOfJoin(ws);
    if ws != [] {
      JoinEnds(ws);
    }
  }

  predicate HasAt(s: string, part: string, i: int)
  {
    0 <= i <= |s| - |part| && s[i..i + |part|] == part
  }

  predicate Contains(s: string, part: string)
  {
    exists i :: 0 <= i <= |s| - |part| && HasAt(s, part, i)
  }

  /// The first index from i on where part stands in s (`str::find` on a suffix).
  function Find(s: string, part: string, i: nat): (r: Option<nat>)
    ensures r.Some? ==> i <= r.value && r.value + |part| <= |s|
    decreases |s| - i
  {
    if i + |part| > |s| then None
    else if HasAt(s, part, i) then Some(i)
    else Find(s, part, i + 1)
  }

  lemma {:induction false} FindIsFirst(s: string, part: string, i: nat, p: nat)
    requires i <= p
    ensures var r := Find(s, part, i);
            && (r == Some(p) ==> HasAt(s, part, p))
            && (r.None? || p < r.value ==> !HasAt(s, part, p))
    decreases |s| - i
  {
    if i + |part| <= |s| && !HasAt(s, part, i) && i < p {
      FindIsFirst(s, part, i + 1, p);
    }
  }

  /// No text contains a part that has a character it has not.
  lemma {:induction false} Lacks(s: string, part: string, c: char)
    requires c in part && c !in s
    ensures !Contains(s, part)
  {
    var k :| 0 <= k < |part| && part[k] == c;
    forall i | 0 <= i <= |s| - |part| ensures !HasAt(s, part, i) {
      assert s[i..i + |part|][k] == s[i + k] && s[i + k] in s;
    }
  }

  // ---- Bytes ---------------------------------------------------------------------------------------

  /// The bytes of a character in UTF-8.
  function Width(c: char): (w: nat)
    ensures 1 <= w <= 4
  {
    var n := c as int;
    if n < 0x80 then 1 else if n < 0x800 then 2 else if n < 0x1_0000 then 3 else 4
  }

  /// The bytes of the first n characters.
  function SizeTo(s: string, n: nat): (b: nat)
    requires n <= |s|
    ensures n <= b
  {
    if n == 0 then 0 else SizeTo(s, n - 1) + Width(s[n - 1])
  }

  /// `str::len`.
  function Size(s: string): nat { SizeTo(s, |s|) }

  lemma {:induction false} SizesRise(s: string, m: nat, n: nat)
    requires m < n <= |s|
    ensures SizeTo(s, m) < SizeTo(s, n)
    decreases n
  {
    if m < n - 1 { SizesRise(s, m, n - 1); }
  }

  lemma {:induction false} SizeToOfConcat(a: string, b: string, n: nat)
    requires n <= |a + b|
    ensures SizeTo(a + b, n) == if n <= |a| then SizeTo(a, n) else Size(a) + SizeTo(b, n - |a|)
    decreases n
  {
    if n > 0 { SizeToOfConcat(a, b, n - 1); }
  }

  lemma {:induction false} SizeOfConcat(a: string, b: string)
    ensures Size(a + b) == Size(a) + Size(b)
  {
    SizeToOfConcat(a, b, |a + b|);
    if b == [] {
      assert a + b == a;
    }
  }

  lemma {:induction false} SizeOfOne(c: char)
    ensures Size([c]) == Width(c)
  {
    assert SizeTo([c], 1) == SizeTo([c], 0) + Width([c][0]);
  }

  /// The character that begins at byte b, from character n on; None inside a character or past the end.
  function AtByte(s: string, b: nat, n: nat): (r: Option<nat>)
    requires n <= |s|
    ensures r.Some? ==> n <= r.value <= |s|
    decreases |s| - n
  {
    if SizeTo(s, n) == b then Some(n) else if n < |s| then AtByte(s, b, n + 1) else None
  }

  lemma {:induction false} AtByteIs(s: string, b: nat, n: nat)
    requires n <= |s|
    ensures AtByte(s, b, n).Some? ==> SizeTo(s, AtByte(s, b, n).value) == b
    decreases |s| - n
  {
    if SizeTo(s, n) != b && n < |s| { AtByteIs(s, b, n + 1); }
  }

  lemma {:induction false} ByteOf(s: string, n: nat, k: nat)
    requires n <= k <= |s|
    ensures AtByte(s, SizeTo(s, k), n) == Some(k)
    decreases k - n
  {
    if n < k {
      SizesRise(s, n, k);
      ByteOf(s, n + 1, k);
    }
  }
}
