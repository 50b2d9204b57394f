/** C strings and the character classes of util_strencodings.h. */
module CStrings {
  /** What `str.c_str()` shows to code that stops at the terminator. */
  function CStr(s: string): (c: string)
    ensures c <= s && '\0' !in c
  {
    if s == [] || s[0] == '\0' then [] else [s[0]] + CStr(s[1..])
  }

  lemma {:induction false} CStrIs(s: string)
    ensures |CStr(s)| < |s| ==> s[|CStr(s)|] == '\0'
    ensures CStr(s) == s <==> '\0' !in s
  {
    if s != [] && s[0] != '\0' {
      CStrIs(s[1..]);
      assert CStr(s)[1..] == CStr(s[1..]);
      assert s == [s[0]] + s[1..];
    }
  }

  predicate IsDigit(c: char) {
    '0' <= c <= '9'
  }

  predicate IsSpace(c: char) {
    c == ' ' || c == '\U{0c}' || c == '\n' || c == '\r' || c == '\t' || c == '\U{0b}'
  }

  function ToLower(c: char): char {
    if 'A' <= c <= 'Z' then c - 'A' + 'a' else c
  }

  function ToUpper(c: char): char {
    if 'a' <= c <= 'z' then c - 'a' + 'A' else c
  }

  function Lower(s: string): string {
    seq(|s|, i requires 0 <= i < |s| => ToLower(s[i]))
  }

  function Upper(s: string): string {
    seq(|s|, i requires 0 <= i < |s| => ToUpper(s[i]))
  }

  /** The length of the longest prefix whose characters satisfy f. */
  function Run(f: char -> bool, s: string): (n: nat)
    ensures n <= |s|
  {
    if s == [] || !f(s[0]) then 0 else 1 + Run(f, s[1..])
  }

  ghost predicate All(f: char -> bool, s: string) {
    forall i :: 0 <= i < |s| ==> f(s[i])
  }

  lemma {:induction false} RunSpec(f: char -> bool, s: string)
    ensures var n := Run(f, s); (forall i :: 0 <= i < n ==> f(s[i])) && (n < |s| ==> !f(s[n]))
  {
    if s != [] && f(s[0]) {
      RunSpec(f, s[1..]);
      assert forall i :: 1 <= i < Run(f, s) ==> s[i] == s[1..][i - 1];
    }
  }

  lemma RunAtLeast(f: char -> bool, s: string, n: nat)
    requires n <= |s| && forall i :: 0 <= i < n ==> f(s[i])
    ensures Run(f, s) >= n
  {
    RunSpec(f, s);
  }

  lemma RunIs(f: char -> bool, s: string, n: nat)
    requires n <= |s| && (forall i :: 0 <= i < n ==> f(s[i])) && (n < |s| ==> !f(s[n]))
    ensures Run(f, s) == n
  {
    RunSpec(f, s);
  }

  lemma AllRun(f: char -> bool, s: string)
    ensures All(f, s) <==> Run(f, s) == |s|
  {
    RunSpec(f, s);
  }

  method Skip(f: char -> bool, c: string, p: nat) returns (q: nat)
    requires p <= |c|
    ensures q == p + Run(f, c[p..])
  {
    q := p;
    while q < |c| && f(c[q])
      invariant p <= q <= |c| && q + Run(f, c[q..]) == p + Run(f, c[p..])
    {
      assert c[q..][1..] == c[q + 1..];
      q := q + 1;
    }
  }

  // ---- The classes by their characters ----

  const TEN: string := "0123456789"
  const CAPITALS: string := "ABCDEFGHIJKLMNOPQRSTUVWXYZ"
  const SMALL: string := "abcdefghijklmnopqrstuvwxyz"

  lemma DigitsAre(c: char)
    ensures IsDigit(c) <==> c in TEN
  {
    if IsDigit(c) {
      assert TEN[c as int - '0' as int] == c;
    }
  }

  lemma SpacesAre(c: char)
    ensures IsSpace(c) <==> c in " \t\n\r\U{0b}\U{0c}"
  {
    var spaces := " \t\n\r\U{0b}\U{0c}";
    if IsSpace(c) {
      assert spaces[0] == ' ' && spaces[1] == '\t' && spaces[2] == '\n' && spaces[3] == '\r';
      assert spaces[4] == '\U{0b}' && spaces[5] == '\U{0c}';
    }
  }

  lemma LettersAt(i: nat)
    requires i < 26
    ensures |CAPITALS| == 26 && CAPITALS[i] == 'A' + i as char && |SMALL| == 26 && SMALL[i] == 'a' + i as char
  {
  }

  /** The cases change the 26 letters only. */
  lemma CasesAre(i: nat, c: char)
    requires i < 26
    ensures |CAPITALS| == 26 == |SMALL|
    ensures ToLower(CAPITALS[i]) == SMALL[i] && ToUpper(SMALL[i]) == CAPITALS[i]
    ensures c !in CAPITALS ==> ToLower(c) == c
    ensures c !in SMALL ==> ToUpper(c) == c
  {
    LettersAt(i);
    if 'A' <= c <= 'Z' {
      LettersAt(c as int - 'A' as int);
    }
    if 'a' <= c <= 'z' {
      LettersAt(c as int - 'a' as int);
    }
  }
}
