/** The string helpers the store relies on. */
module Text {
  /** Unicode white space, as `strings.TrimSpace` understands it. */
  predicate IsSpace(c: char) {
    || '\U{0009}' <= c <= '\U{000D}' || c == ' ' || c == '\U{0085}' || c == '\U{00A0}' || c == '\U{1680}'
    || '\U{2000}' <= c <= '\U{200A}' || c == '\U{2028}' || c == '\U{2029}' || c == '\U{202F}'
    || c == '\U{205F}' || c == '\U{3000}'
  }

  const ASCII_BLANKS := "\t\n\U{000B}\U{000C}\r "
  const OTHER_BLANKS :=
    "\U{0085}\U{00A0}\U{1680}\U{2000}\U{2001}\U{2002}\U{2003}\U{2004}\U{2005}\U{2006}\U{2007}\U{2008}\U{2009}\U{200A}"
    + "\U{2028}\U{2029}\U{202F}\U{205F}\U{3000}"
  const LOWER := "abcdefghijklmnopqrstuvwxyz"
  const UPPER := "ABCDEFGHIJKLMNOPQRSTUVWXYZ"
  const DIGITS := "0123456789"

  /** The blanks are the 25 characters with the White_Space property; no printable ASCII character but the space is. */
  lemma BlankCharacters(c: char)
    ensures IsSpace(c) <==> c in ASCII_BLANKS || c in OTHER_BLANKS
    ensures '!' <= c <= '~' ==> !IsSpace(c)
  {
  }

  function TrimSpace(s: string): (t: string)
    ensures t != [] ==> !IsSpace(t[0]) && !IsSpace(t[|t| - 1])
    ensures |t| <= |s|
    decreases |s|
  {
    if s == [] then []
    else if IsSpace(s[0]) then TrimSpace(s[1..])
    else if IsSpace(s[|s| - 1]) then TrimSpace(s[..|s| - 1])
    else s
  }

  /** `t` is what is left of `s` when it is cut at `i` and `j`, with nothing but blanks outside. */
  ghost predicate Cut(s: string, t: string, i: nat, j: nat) {
    i <= j <= |s| && t == s[i..j] && forall k :: 0 <= k < i || j <= k < |s| ==> IsSpace(s[k])
  }

  /** Trimming cuts blanks off both ends, and nothing else. */
  lemma {:induction false} TrimCuts(s: string) returns (i: nat, j: nat)
    ensures Cut(s, TrimSpace(s), i, j)
    decreases |s|
  {
    i, j := 0, |s|;
    if s != [] && IsSpace(s[0]) {
      i, j := TrimCuts(s[1..]);
      assert forall k :: 1 <= k < |s| ==> s[k] == s[1..][k - 1];
      i, j := i + 1, j + 1;
    } else if s != [] && IsSpace(s[|s| - 1]) {
      i, j := TrimCuts(s[..|s| - 1]);
      assert forall k :: 0 <= k < |s| - 1 ==> s[k] == s[..|s| - 1][k];
    }
  }

  /** A name no trimming touches. */
  ghost predicate Neat(name: string) {
    name != [] && !IsSpace(name[0]) && !IsSpace(name[|name| - 1])
  }

  lemma NeatStays(name: string)
    requires Neat(name)
    ensures TrimSpace(name) == name
  {
  }

  /** Upper case of the ASCII letters, which is all that SQL's NOCASE folds. */
  function UpperAscii(c: char): char {
    if 'a' <= c <= 'z' then c - ('a' - 'A') else c
  }

  /** Upper case as far as it yields ASCII letters: the dotless i and the long s are the only others that do. */
  function Upper(c: char): char {
    if c == '\U{0131}' then 'I' else if c == '\U{017F}' then 'S' else UpperAscii(c)
  }

  lemma Alphabet()
    ensures |LOWER| == |UPPER| == 26
    ensures forall k :: 0 <= k < 26 ==> LOWER[k] as int == 97 + k && UPPER[k] as int == 65 + k
  {
  }

  /** Letter by letter along the alphabet; everything else stays, but for the two that become I and S. */
  lemma UpperLetters(c: char)
    ensures forall k :: 0 <= k < 26 ==> UpperAscii(LOWER[k]) == UPPER[k] == Upper(LOWER[k])
    ensures c !in LOWER ==> UpperAscii(c) == c
    ensures Upper(c) == if c == '\U{0131}' then 'I' else if c == '\U{017F}' then 'S' else UpperAscii(c)
  {
    Alphabet();
    if 'a' <= c <= 'z' { assert LOWER[c as int - 'a' as int] == c; }
  }

  function ToUpperAscii(s: string): (t: string)
    ensures |t| == |s| && forall i :: 0 <= i < |s| ==> t[i] == UpperAscii(s[i])
  {
    if s == [] then [] else [UpperAscii(s[0])] + ToUpperAscii(s[1..])
  }

  function ToUpper(s: string): (t: string)
    ensures |t| == |s| && forall i :: 0 <= i < |s| ==> t[i] == Upper(s[i])
  {
    if s == [] then [] else [Upper(s[0])] + ToUpper(s[1..])
  }

  /** The same character, or the two cases of one ASCII letter. */
  ghost predicate SameLetter(c: char, d: char) {
    c == d || exists k :: 0 <= k < 26 && ((c == LOWER[k] && d == UPPER[k]) || (c == UPPER[k] && d == LOWER[k]))
  }

  lemma FoldedLetters(c: char, d: char)
    ensures UpperAscii(c) == UpperAscii(d) <==> SameLetter(c, d)
  {
    Alphabet();
    if UpperAscii(c) == UpperAscii(d) && c != d {
      var k := UpperAscii(c) as int - 65;
      assert (c == LOWER[k] && d == UPPER[k]) || (c == UPPER[k] && d == LOWER[k]);
    }
  }

  /** The strings agree letter by letter but for ASCII case. */
  ghost predicate SameLetters(a: string, b: string) {
    |a| == |b| && forall i :: 0 <= i < |a| ==> SameLetter(a[i], b[i])
  }

  lemma FoldedFirst(a: string, b: string)
    requires a != [] && b != []
    ensures SameLetters(a, b) <==> SameLetter(a[0], b[0]) && SameLetters(a[1..], b[1..])
  {
    if SameLetter(a[0], b[0]) && SameLetters(a[1..], b[1..]) {
      forall i | 0 <= i < |a| ensures SameLetter(a[i], b[i]) {
        if i > 0 { assert a[i] == a[1..][i - 1] && b[i] == b[1..][i - 1]; }
      }
    }
    if SameLetters(a, b) {
      forall i | 0 <= i < |a| - 1 ensures SameLetter(a[1..][i], b[1..][i]) {
        assert SameLetter(a[i + 1], b[i + 1]);
      }
    }
  }

  lemma {:induction false} Folded(a: string, b: string)
    ensures ToUpperAscii(a) == ToUpperAscii(b) <==> SameLetters(a, b)
  {
    if a == [] || b == [] {
    } else {
      FoldedLetters(a[0], b[0]);
      Folded(a[1..], b[1..]);
      FoldedFirst(a, b);
      assert ToUpperAscii(a)[1..] == ToUpperAscii(a[1..]) && ToUpperAscii(b)[1..] == ToUpperAscii(b[1..]);
    }
  }

  /** `strings.Join` with a slash. */
  function Join(names: seq<string>): string {
    if names == [] then ""
    else if |names| == 1 then names[0]
    else names[0] + "/" + Join(names[1..])
  }

  lemma {:induction false} JoinAppend(names: seq<string>, name: string)
    ensures Join(names + [name]) == if names == [] then name else Join(names) + "/" + name
  {
    if |names| == 0 {
      assert names + [name] == [name];
    } else if |names| == 1 {
      assert (names + [name])[1..] == [name];
    } else {
      var first, rest := names[0] + "/", names[1..];
      JoinAppend(rest, name);
      assert (names + [name])[1..] == rest + [name];
      assert Join(names + [name]) == first + (Join(rest) + "/" + name) == (first + Join(rest)) + "/" + name;
    }
  }
}
