/** Recovery codes: how they are displayed, and how what the user types is read back. */
module Recovery {
  import opened Text

  /** The base32 alphabet. */
  predicate IsLetter(c: char) {
    'A' <= c <= 'Z' || '2' <= c <= '7'
  }

  lemma CodeAlphabet(c: char)
    ensures IsLetter(c) <==> c in UPPER || c in "234567"
  {
  }

  /** `strings.ReplaceAll` of one character by nothing. */
  function Without(s: string, c: char): string {
    if s == [] then [] else (if s[0] == c then [] else [s[0]]) + Without(s[1..], c)
  }

  /** What the user typed, in the form keys are derived from. */
  function Normalize(s: string): string {
    Without(Without(ToUpper(TrimSpace(s)), '-'), ' ')
  }

  /** A code typed in either case, with dashes and blanks anywhere. */
  ghost predicate Typeable(s: string) {
    forall i :: 0 <= i < |s| ==> IsLetter(Upper(s[i])) || s[i] == '-' || s[i] == ' '
  }

  /** The letters of a code, in order and in upper case, without what separates them. */
  ghost function Letters(s: string): string {
    if s == [] then [] else (if s[0] == '-' || s[0] == ' ' then [] else [Upper(s[0])]) + Letters(s[1..])
  }

  lemma {:induction false} LettersAppend(s: string, c: char)
    ensures Letters(s + [c]) == Letters(s) + Letters([c])
  {
    if s != [] {
      LettersAppend(s[1..], c);
      assert (s + [c])[1..] == s[1..] + [c];
    }
  }

  lemma WithoutFirst(first: char, rest: string, c: char)
    ensures Without([first] + rest, c) == (if first == c then [] else [first]) + Without(rest, c)
  {
    assert ([first] + rest)[1..] == rest;
  }

  lemma {:induction false} StrippedLetters(s: string)
    ensures Without(Without(ToUpper(s), '-'), ' ') == Letters(s)
  {
    if s != [] {
      StrippedLetters(s[1..]);
      var c, rest := Upper(s[0]), ToUpper(s[1..]);
      WithoutFirst(c, rest, '-');
      assert c == '-' ==> s[0] == '-';
      assert c == ' ' ==> s[0] == ' ';
      if c == '-' {
        assert [] + Without(rest, '-') == Without(rest, '-');
      } else {
        WithoutFirst(c, Without(rest, '-'), ' ');
      }
    }
  }

  /** The only blank in a code is the space. */
  lemma BlankTyped(s: string, i: nat)
    requires Typeable(s) && i < |s| && IsSpace(s[i])
    ensures s[i] == ' ' && Letters([s[i]]) == []
  {
  }

  lemma {:induction false} TrimmingKeepsLetters(s: string)
    requires Typeable(s)
    ensures Typeable(TrimSpace(s)) && Letters(TrimSpace(s)) == Letters(s)
    decreases |s|
  {
    if s == [] {
    } else if IsSpace(s[0]) {
      BlankTyped(s, 0);
      TrimmingKeepsLetters(s[1..]);
    } else if IsSpace(s[|s| - 1]) {
      BlankTyped(s, |s| - 1);
      TrimmingKeepsLetters(s[..|s| - 1]);
      LettersAppend(s[..|s| - 1], ' ');
      assert s == s[..|s| - 1] + [' '];
    }
  }

  /** Whatever was typed: blanks at the ends, dashes and spaces go, letters become capitals, and all else is kept. */
  lemma NormalizedLetters(s: string)
    ensures Normalize(s) == Letters(TrimSpace(s))
  {
    StrippedLetters(TrimSpace(s));
  }

  /** Case, dashes and blanks make no difference: two ways of typing the same letters are the same code. */
  lemma TypedLoosely(s: string)
    requires Typeable(s)
    ensures Normalize(s) == Letters(s)
  {
    TrimmingKeepsLetters(s);
    StrippedLetters(TrimSpace(s));
  }

  lemma LetterAlone(c: char)
    requires IsLetter(c)
    ensures Letters([c]) == [c]
  {
    assert [c][1..] == [];
  }

  /** `display` shows the first `i` letters of the code, with a dash in every fifth place. */
  ghost predicate Shows(display: string, canonical: string, i: nat) {
    && Typeable(display) && i <= |canonical| && Letters(display) == canonical[..i]
    && forall k :: 0 <= k < |display| ==> (display[k] == '-' <==> k % 5 == 4)
  }

  lemma DashShown(display: string, canonical: string, i: nat)
    requires Shows(display, canonical, i) && |display| % 5 == 4
    ensures Shows(display + ['-'], canonical, i)
  {
    LettersAppend(display, '-');
    assert Letters(['-']) == [];
  }

  lemma LetterShown(display: string, canonical: string, i: nat)
    requires Shows(display, canonical, i) && |display| % 5 != 4
    requires i < |canonical| && IsLetter(canonical[i])
    ensures Shows(display + [canonical[i]], canonical, i + 1)
  {
    LettersAppend(display, canonical[i]);
    LetterAlone(canonical[i]);
    assert canonical[..i + 1] == canonical[..i] + [canonical[i]];
  }

  /** A fresh code of 32 letters, and the form shown to the user: in groups of four, joined by dashes. */
  method GenerateRecoveryCode() returns (display: string, canonical: string)
    ensures |canonical| == 32 && forall c :: c in canonical ==> IsLetter(c)
    ensures Typeable(display) && Normalize(display) == canonical
    ensures |display| == 39 && forall i :: 0 <= i < 39 ==> (display[i] == '-' <==> i % 5 == 4)
  {
    assert |seq(32, _ => 'A')| == 32;
    canonical :| |canonical| == 32 && forall c :: c in canonical ==> IsLetter(c);
    display := "";
    var i := 0;
    while i < |canonical|
      invariant 0 <= i <= 32 && |display| == i + (if i == 0 then 0 else (i - 1) / 4)
      invariant Shows(display, canonical, i)
    {
      assert canonical[i] in canonical;
      if i > 0 && i % 4 == 0 {
        DashShown(display, canonical, i);
        display := display + ['-'];
      }
      LetterShown(display, canonical, i);
      display := display + [canonical[i]];
      i := i + 1;
    }
    TypedLoosely(display);
    assert canonical[..32] == canonical;
  }
}
