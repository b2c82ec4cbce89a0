/** The credential format rules of the authentication routes
    (server/routes/auth.js): `isValidUsername`, `isValidPassword`, and
    `String.prototype.trim`, which the routes apply to usernames. */
module Credentials {

  import opened Common
  import opened Regex

  predicate IsAsciiLetter(c: char) { 'a' <= c <= 'z' || 'A' <= c <= 'Z' }

  predicate IsAsciiDigit(c: char) { '0' <= c <= '9' }

  /** A character a username may contain: a letter, a digit, '@', '.', '_' or '-'. */
  predicate UsernameChar(c: char) {
    IsAsciiLetter(c) || IsAsciiDigit(c) || c == '@' || c == '.' || c == '_' || c == '-'
  }

  /** A character a password may contain: a letter, a digit, or one of `@$!%*?&`. */
  predicate PasswordChar(c: char) {
    IsAsciiLetter(c) || IsAsciiDigit(c) || c == '@' || c == '$' || c == '!' || c == '%'
    || c == '*' || c == '?' || c == '&'
  }

  // ---------------------------------------------------------------------
  // The two patterns, as written in the source

  /** `[a-zA-Z0-9@._-]` */
  const UsernameClass := Ranges([('a', 'z'), ('A', 'Z'), ('0', '9'), ('@', '@'), ('.', '.'), ('_', '_'), ('-', '-')])

  /** `/^[a-zA-Z0-9@._-]{3,20}$/` */
  const UsernamePattern := Pattern([], [Item(UsernameClass, 3, Some(20))])

  const LetterClass := Ranges([('A', 'Z'), ('a', 'z')])

  /** `\d` (without the `u` flag: the ASCII digits only) */
  const DigitClass := Ranges([('0', '9')])

  /** `[A-Za-z\d@$!%*?&]` */
  const PasswordClass := Ranges([('A', 'Z'), ('a', 'z'), ('0', '9'), ('@', '@'), ('$', '$'), ('!', '!'),
                                 ('%', '%'), ('*', '*'), ('?', '?'), ('&', '&')])

  /** `/^(?=.*[A-Za-z])(?=.*\d)[A-Za-z\d@$!%*?&]{6,}$/` */
  const PasswordPattern := Pattern([Somewhere(LetterClass), Somewhere(DigitClass)], [Item(PasswordClass, 6, None)])

  predicate IsValidUsername(s: string) { Test(UsernamePattern, s) }

  predicate IsValidPassword(p: string) { Test(PasswordPattern, p) }

  lemma UsernameClassIs(c: char)
    ensures InClass(c, UsernameClass) <==> UsernameChar(c)
  {
    var rs := UsernameClass.ranges;
    if UsernameChar(c) {
      if 'a' <= c <= 'z' { assert rs[0].0 <= c <= rs[0].1; }
      else if 'A' <= c <= 'Z' { assert rs[1].0 <= c <= rs[1].1; }
      else if '0' <= c <= '9' { assert rs[2].0 <= c <= rs[2].1; }
      else if c == '@' { assert rs[3].0 <= c <= rs[3].1; }
      else if c == '.' { assert rs[4].0 <= c <= rs[4].1; }
      else if c == '_' { assert rs[5].0 <= c <= rs[5].1; }
      else { assert rs[6].0 <= c <= rs[6].1; }
    }
  }

  lemma PasswordClassIs(c: char)
    ensures InClass(c, PasswordClass) <==> PasswordChar(c)
  {
    var rs := PasswordClass.ranges;
    if PasswordChar(c) {
      if 'A' <= c <= 'Z' { assert rs[0].0 <= c <= rs[0].1; }
      else if 'a' <= c <= 'z' { assert rs[1].0 <= c <= rs[1].1; }
      else if '0' <= c <= '9' { assert rs[2].0 <= c <= rs[2].1; }
      else if c == '@' { assert rs[3].0 <= c <= rs[3].1; }
      else if c == '$' { assert rs[4].0 <= c <= rs[4].1; }
      else if c == '!' { assert rs[5].0 <= c <= rs[5].1; }
      else if c == '%' { assert rs[6].0 <= c <= rs[6].1; }
      else if c == '*' { assert rs[7].0 <= c <= rs[7].1; }
      else if c == '?' { assert rs[8].0 <= c <= rs[8].1; }
      else { assert rs[9].0 <= c <= rs[9].1; }
    }
  }

  lemma LetterClassIs(c: char)
    ensures InClass(c, LetterClass) <==> IsAsciiLetter(c)
  {
    var rs := LetterClass.ranges;
    if 'A' <= c <= 'Z' { assert rs[0].0 <= c <= rs[0].1; }
    if 'a' <= c <= 'z' { assert rs[1].0 <= c <= rs[1].1; }
  }

  lemma DigitClassIs(c: char)
    ensures InClass(c, DigitClass) <==> IsAsciiDigit(c)
  {
    var rs := DigitClass.ranges;
    if IsAsciiDigit(c) { assert rs[0].0 <= c <= rs[0].1; }
  }

  /** `isValidUsername(s)` holds exactly for strings of 3 to 20 characters,
      each a letter, a digit, '@', '.', '_' or '-'. */
  lemma UsernameRule(s: string)
    ensures IsValidUsername(s) <==> 3 <= |s| <= 20 && forall i :: 0 <= i < |s| ==> UsernameChar(s[i])
  {
    MatchOneToEnd(Item(UsernameClass, 3, Some(20)), s);
    forall i | 0 <= i < |s| ensures InClass(s[i], UsernameClass) <==> UsernameChar(s[i]) {
      UsernameClassIs(s[i]);
    }
  }

  lemma PasswordBody(p: string)
    ensures Match([Item(PasswordClass, 6, None)], p, true) <==>
      6 <= |p| && forall i :: 0 <= i < |p| ==> PasswordChar(p[i])
  {
    MatchOneToEnd(Item(PasswordClass, 6, None), p);
    forall i | 0 <= i < |p| ensures InClass(p[i], PasswordClass) <==> PasswordChar(p[i]) {
      PasswordClassIs(p[i]);
    }
  }

  lemma LetterAhead(p: string)
    requires forall i :: 0 <= i < |p| ==> PasswordChar(p[i])
    ensures Match(Somewhere(LetterClass), p, false) <==> exists i :: 0 <= i < |p| && IsAsciiLetter(p[i])
  {
    MatchSomewhere(LetterClass, p);
    forall i | 0 <= i < |p| ensures InClass(p[i], LetterClass) <==> IsAsciiLetter(p[i]) {
      LetterClassIs(p[i]);
    }
  }

  lemma DigitAhead(p: string)
    requires forall i :: 0 <= i < |p| ==> PasswordChar(p[i])
    ensures Match(Somewhere(DigitClass), p, false) <==> exists i :: 0 <= i < |p| && IsAsciiDigit(p[i])
  {
    MatchSomewhere(DigitClass, p);
    forall i | 0 <= i < |p| ensures InClass(p[i], DigitClass) <==> IsAsciiDigit(p[i]) {
      DigitClassIs(p[i]);
    }
  }

  /** `isValidPassword(p)` holds exactly for strings of at least 6
      characters from `[A-Za-z0-9@$!%*?&]` containing at least one letter
      and at least one digit. */
  lemma PasswordRule(p: string)
    ensures IsValidPassword(p) <==>
      && 6 <= |p|
      && (forall i :: 0 <= i < |p| ==> PasswordChar(p[i]))
      && (exists i :: 0 <= i < |p| && IsAsciiLetter(p[i]))
      && (exists i :: 0 <= i < |p| && IsAsciiDigit(p[i]))
  {
    PasswordBody(p);
    var ahead := PasswordPattern.ahead;
    assert IsValidPassword(p) <==>
      Match(ahead[0], p, false) && Match(ahead[1], p, false) && Match(PasswordPattern.body, p, true);
    if 6 <= |p| && forall i :: 0 <= i < |p| ==> PasswordChar(p[i]) {
      LetterAhead(p);
      DigitAhead(p);
    }
  }

  // ---------------------------------------------------------------------
  // String.prototype.trim

  /** The characters `trim` removes: ECMAScript WhiteSpace (tab, vertical
      tab, form feed, the byte-order mark and every space separator) and
      LineTerminator. */
  predicate IsJsWhitespace(c: char) {
    || c == '\t' || c == '\U{000B}' || c == '\U{000C}' || c == ' ' || c == '\U{00A0}' || c == '\U{FEFF}'
    || c == '\U{1680}' || ('\U{2000}' <= c <= '\U{200A}') || c == '\U{202F}' || c == '\U{205F}' || c == '\U{3000}'
    || IsLineTerminator(c)
  }

  function TrimStart(s: string): (r: string)
    ensures |r| <= |s| && r == s[|s| - |r|..]
    ensures forall i :: 0 <= i < |s| - |r| ==> IsJsWhitespace(s[i])
    ensures r != [] ==> !IsJsWhitespace(r[0])
  {
    if s != [] && IsJsWhitespace(s[0]) then TrimStart(s[1..]) else s
  }

  function TrimEnd(s: string): (r: string)
    ensures |r| <= |s| && r == s[..|r|]
    ensures forall i :: |r| <= i < |s| ==> IsJsWhitespace(s[i])
    ensures r != [] ==> !IsJsWhitespace(r[|r| - 1])
  {
    if s != [] && IsJsWhitespace(s[|s| - 1]) then TrimEnd(s[..|s| - 1]) else s
  }

  /** `s.trim()`: `s` without its leading and trailing whitespace. */
  function Trim(s: string): (r: string)
    ensures var i := |s| - |TrimStart(s)|;
      && i + |r| <= |s| && r == s[i..i + |r|]
      && (forall j :: 0 <= j < i ==> IsJsWhitespace(s[j]))
      && (forall j :: i + |r| <= j < |s| ==> IsJsWhitespace(s[j]))
    ensures r != [] ==> !IsJsWhitespace(r[0]) && !IsJsWhitespace(r[|r| - 1])
  {
    TrimEnd(TrimStart(s))
  }

  lemma TrimClean(s: string)
    requires s != [] ==> !IsJsWhitespace(s[0]) && !IsJsWhitespace(s[|s| - 1])
    ensures Trim(s) == s
  {
    if s != [] {
      assert TrimStart(s) == s;
      assert TrimEnd(s) == s;
    }
  }

  /** A string is its own trim exactly when it has no whitespace at either
      end; hence trimming twice is trimming once. */
  lemma TrimFixpoint(s: string)
    ensures Trim(s) == s <==> s == [] || (!IsJsWhitespace(s[0]) && !IsJsWhitespace(s[|s| - 1]))
    ensures Trim(Trim(s)) == Trim(s)
  {
    if s == [] || (!IsJsWhitespace(s[0]) && !IsJsWhitespace(s[|s| - 1])) {
      TrimClean(s);
    }
    TrimClean(Trim(s));
  }

  /** A username made only of whitespace passes the routes' presence
      check, but trims to the empty string, which is not a valid username. */
  lemma BlankUsernameInvalid(s: string)
    requires forall i :: 0 <= i < |s| ==> IsJsWhitespace(s[i])
    ensures Trim(s) == [] && !IsValidUsername(Trim(s))
  {
    assert TrimStart(s) == [];
    UsernameRule(Trim(s));
  }
}
