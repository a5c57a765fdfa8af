/**
 * The field validators of the backend: the e-mail and password regexes of
 * backend/server.js, the ten-digit contact regex and the name-length limit.
 * Each regex is written twice: as an explicit predicate on code units, which
 * the handlers use, and term by term as a `Regex.Pattern`; lemmas prove that
 * the two accept the same strings.
 */
module Validation {
  import opened JsText
  import opened Regex
  import opened Options

  /** The longest first or last name the handlers accept, in code units. */
  const MaxNameLength: nat := 50
  /** The number of digits of a contact number. */
  const ContactLength: nat := 10
  /** The bounds of `.{8,12}` in the password regex. */
  const MinPasswordLength: nat := 8
  const MaxPasswordLength: nat := 12

  predicate IsAsciiUpper(c: CodeUnit) { Unit('A') <= c <= Unit('Z') }
  predicate IsAsciiLower(c: CodeUnit) { Unit('a') <= c <= Unit('z') }
  /** `\d` in ECMAScript: only the ASCII digits. */
  predicate IsAsciiDigit(c: CodeUnit) { Unit('0') <= c <= Unit('9') }
  /** The special characters the password regex demands one of: `#`, `@`, `$`, `&`. */
  predicate IsPasswordSpecial(c: CodeUnit) {
    c == Unit('#') || c == Unit('@') || c == Unit('$') || c == Unit('&')
  }
  /** The characters allowed before `@gmail.com`: `[a-zA-Z0-9._%+-]`. */
  predicate IsEmailLocalUnit(c: CodeUnit) {
    IsAsciiLower(c) || IsAsciiUpper(c) || IsAsciiDigit(c) ||
    c == Unit('.') || c == Unit('_') || c == Unit('%') || c == Unit('+') || c == Unit('-')
  }

  /** The required domain, `@gmail.com`, as code units. */
  const GmailSuffix: JsString :=
    [Unit('@'), Unit('g'), Unit('m'), Unit('a'), Unit('i'), Unit('l'),
     Unit('.'), Unit('c'), Unit('o'), Unit('m')]

  /** `validEmail`: a non-empty local part of allowed characters, then `@gmail.com`, then the end. */
  predicate ValidEmail(email: JsString) {
    |email| > |GmailSuffix| &&
    email[|email| - |GmailSuffix|..] == GmailSuffix &&
    forall i :: 0 <= i < |email| - |GmailSuffix| ==> IsEmailLocalUnit(email[i])
  }

  /** `validPassword`: 8 to 12 units, none a line terminator, with an upper, a lower, a digit and a special. */
  predicate ValidPassword(p: JsString) {
    MinPasswordLength <= |p| <= MaxPasswordLength &&
    (forall i :: 0 <= i < |p| ==> !IsLineTerminator(p[i])) &&
    (exists i :: 0 <= i < |p| && IsAsciiUpper(p[i])) &&
    (exists i :: 0 <= i < |p| && IsAsciiLower(p[i])) &&
    (exists i :: 0 <= i < |p| && IsAsciiDigit(p[i])) &&
    (exists i :: 0 <= i < |p| && IsPasswordSpecial(p[i]))
  }

  /** The contact check `/^\d{10}$/`: exactly ten ASCII digits. */
  predicate ValidContact(contact: JsString) {
    |contact| == ContactLength && forall i :: 0 <= i < |contact| ==> IsAsciiDigit(contact[i])
  }

  /** The name check: either name longer than 50 code units. */
  predicate NameTooLong(firstName: JsString, lastName: JsString) {
    |firstName| > MaxNameLength || |lastName| > MaxNameLength
  }

  // The regexes of backend/server.js, term by term.

  function Range(lo: char, hi: char): (CodeUnit, CodeUnit)
    requires IsBmp(lo) && IsBmp(hi)
  {
    (Unit(lo), Unit(hi))
  }

  /** `[a-zA-Z0-9._%+-]` */
  const EmailLocalClass: CharClass := Ranges([
    Range('a', 'z'), Range('A', 'Z'), Range('0', '9'),
    Range('.', '.'), Range('_', '_'), Range('%', '%'), Range('+', '+'), Range('-', '-')])
  const UpperClass: CharClass := Ranges([Range('A', 'Z')])
  const LowerClass: CharClass := Ranges([Range('a', 'z')])
  /** `\d` */
  const DigitClass: CharClass := Ranges([Range('0', '9')])
  /** `[#@$&]` */
  const SpecialClass: CharClass := Ranges([Range('#', '#'), Range('@', '@'), Range('$', '$'), Range('&', '&')])

  /** `/^[a-zA-Z0-9._%+-]+@gmail\.com$/` */
  const EmailRegex: Pattern := [InputStart] + ([Plus(EmailLocalClass)] + (Literal(GmailSuffix) + [InputEnd]))

  /** `(?=.*X)` */
  function Somewhere(k: CharClass): Term {
    Lookahead([Star(AnyButLineTerminator), Once(k)])
  }

  /** `/^(?=.*[A-Z])(?=.*[a-z])(?=.*\d)(?=.*[#@$&]).{8,12}$/` */
  const PasswordRegex: Pattern := [
    InputStart, Somewhere(UpperClass), Somewhere(LowerClass), Somewhere(DigitClass), Somewhere(SpecialClass),
    Between(AnyButLineTerminator, MinPasswordLength, MaxPasswordLength), InputEnd]

  /** `/^\d{10}$/` */
  const ContactRegex: Pattern := [InputStart, Between(DigitClass, ContactLength, ContactLength), InputEnd]

  // The character classes accept what the explicit predicates say.

  lemma EmailLocalClassIs(c: CodeUnit)
    ensures InClass(c, EmailLocalClass) <==> IsEmailLocalUnit(c)
  {
    var rs := EmailLocalClass.ranges;
    if IsEmailLocalUnit(c) {
      if IsAsciiLower(c) { assert rs[0] in rs; }
      else if IsAsciiUpper(c) { assert rs[1] in rs; }
      else if IsAsciiDigit(c) { assert rs[2] in rs; }
      else if c == Unit('.') { assert rs[3] in rs; }
      else if c == Unit('_') { assert rs[4] in rs; }
      else if c == Unit('%') { assert rs[5] in rs; }
      else if c == Unit('+') { assert rs[6] in rs; }
      else { assert rs[7] in rs; }
    }
  }

  lemma UpperClassIs(c: CodeUnit)
    ensures InClass(c, UpperClass) <==> IsAsciiUpper(c)
  {
    if IsAsciiUpper(c) { assert UpperClass.ranges[0] in UpperClass.ranges; }
  }

  lemma LowerClassIs(c: CodeUnit)
    ensures InClass(c, LowerClass) <==> IsAsciiLower(c)
  {
    if IsAsciiLower(c) { assert LowerClass.ranges[0] in LowerClass.ranges; }
  }

  lemma DigitClassIs(c: CodeUnit)
    ensures InClass(c, DigitClass) <==> IsAsciiDigit(c)
  {
    if IsAsciiDigit(c) { assert DigitClass.ranges[0] in DigitClass.ranges; }
  }

  lemma SpecialClassIs(c: CodeUnit)
    ensures InClass(c, SpecialClass) <==> IsPasswordSpecial(c)
  {
    var rs := SpecialClass.ranges;
    if c == Unit('#') { assert rs[0] in rs; }
    else if c == Unit('@') { assert rs[1] in rs; }
    else if c == Unit('$') { assert rs[2] in rs; }
    else if c == Unit('&') { assert rs[3] in rs; }
  }

  // The explicit predicates accept exactly what the regexes accept.

  /** What the e-mail regex accepts, with its character class still as a class. */
  lemma EmailRegexShape(email: JsString)
    ensures Test(EmailRegex, email) <==>
      |email| > |GmailSuffix| && email[|email| - |GmailSuffix|..] == GmailSuffix &&
      forall q :: 0 <= q < |email| - |GmailSuffix| ==> InClass(email[q], EmailLocalClass)
  {
    PlusThenLiteralToEnd(EmailLocalClass, GmailSuffix, email);
  }

  /** `validEmail` is `/^[a-zA-Z0-9._%+-]+@gmail\.com$/.test`. */
  lemma ValidEmailIsRegex(email: JsString)
    ensures ValidEmail(email) <==> Test(EmailRegex, email)
  {
    EmailRegexShape(email);
    forall q | 0 <= q < |email|
      ensures InClass(email[q], EmailLocalClass) <==> IsEmailLocalUnit(email[q])
    {
      EmailLocalClassIs(email[q]);
    }
  }

  /** The contact check is `/^\d{10}$/.test`. */
  lemma ValidContactIsRegex(contact: JsString)
    ensures ValidContact(contact) <==> Test(ContactRegex, contact)
  {
    var rest := [Between(DigitClass, ContactLength, ContactLength), InputEnd];
    assert ContactRegex == [InputStart] + rest;
    AnchoredTest(rest, contact);
    forall j: nat | j <= |contact|
      ensures SeqMatches(rest, contact, 0, j) <==>
        j == |contact| == ContactLength && forall q :: 0 <= q < |contact| ==> InClass(contact[q], DigitClass)
    {
      RepeatToEnd(DigitClass, ContactLength, Some(ContactLength), contact, 0, j);
    }
    forall q | 0 <= q < |contact|
      ensures InClass(contact[q], DigitClass) <==> IsAsciiDigit(contact[q])
    {
      DigitClassIs(contact[q]);
    }
    if ValidContact(contact) {
      assert SeqMatches(rest, contact, 0, |contact|);
    }
  }

  /** The password regex: four look-aheads at position 0, then `.{8,12}` up to the end. */
  lemma PasswordRegexParts(p: JsString)
    ensures Test(PasswordRegex, p) <==>
      MinPasswordLength <= |p| <= MaxPasswordLength &&
      (forall q :: 0 <= q < |p| ==> !IsLineTerminator(p[q])) &&
      TermMatches(Somewhere(UpperClass), p, 0, 0) && TermMatches(Somewhere(LowerClass), p, 0, 0) &&
      TermMatches(Somewhere(DigitClass), p, 0, 0) && TermMatches(Somewhere(SpecialClass), p, 0, 0)
  {
    var tail := [Between(AnyButLineTerminator, MinPasswordLength, MaxPasswordLength), InputEnd];
    var r4 := [Somewhere(SpecialClass)] + tail;
    var r3 := [Somewhere(DigitClass)] + r4;
    var r2 := [Somewhere(LowerClass)] + r3;
    var r1 := [Somewhere(UpperClass)] + r2;
    assert PasswordRegex == [InputStart] + r1;
    AnchoredTest(r1, p);
    forall j: nat | j <= |p|
      ensures SeqMatches(r1, p, 0, j) <==>
        TermMatches(Somewhere(UpperClass), p, 0, 0) && TermMatches(Somewhere(LowerClass), p, 0, 0) &&
        TermMatches(Somewhere(DigitClass), p, 0, 0) && TermMatches(Somewhere(SpecialClass), p, 0, 0) &&
        j == |p| && MinPasswordLength <= |p| <= MaxPasswordLength &&
        forall q :: 0 <= q < |p| ==> InClass(p[q], AnyButLineTerminator)
    {
      AssertionThen(Somewhere(UpperClass), r2, p, 0, j);
      AssertionThen(Somewhere(LowerClass), r3, p, 0, j);
      AssertionThen(Somewhere(DigitClass), r4, p, 0, j);
      AssertionThen(Somewhere(SpecialClass), tail, p, 0, j);
      RepeatToEnd(AnyButLineTerminator, MinPasswordLength, Some(MaxPasswordLength), p, 0, j);
    }
    if Test(PasswordRegex, p) {
      var j: nat :| j <= |p| && SeqMatches(r1, p, 0, j);
    }
    if MinPasswordLength <= |p| <= MaxPasswordLength &&
       (forall q :: 0 <= q < |p| ==> !IsLineTerminator(p[q])) &&
       TermMatches(Somewhere(UpperClass), p, 0, 0) && TermMatches(Somewhere(LowerClass), p, 0, 0) &&
       TermMatches(Somewhere(DigitClass), p, 0, 0) && TermMatches(Somewhere(SpecialClass), p, 0, 0)
    {
      assert SeqMatches(r1, p, 0, |p|);
    }
  }

  /** On a string without line terminators, `(?=.*X)` at 0 asks only for some unit of class X. */
  lemma SomewhereAtStart(k: CharClass, s: JsString)
    requires forall q :: 0 <= q < |s| ==> !IsLineTerminator(s[q])
    ensures TermMatches(Somewhere(k), s, 0, 0) <==> exists m :: 0 <= m < |s| && InClass(s[m], k)
  {
    FindAhead(k, s, 0);
  }

  /** `validPassword` is `/^(?=.*[A-Z])(?=.*[a-z])(?=.*\d)(?=.*[#@$&]).{8,12}$/.test`. */
  lemma ValidPasswordIsRegex(p: JsString)
    ensures ValidPassword(p) <==> Test(PasswordRegex, p)
  {
    PasswordRegexParts(p);
    if forall q :: 0 <= q < |p| ==> !IsLineTerminator(p[q]) {
      SomewhereAtStart(UpperClass, p);
      SomewhereAtStart(LowerClass, p);
      SomewhereAtStart(DigitClass, p);
      SomewhereAtStart(SpecialClass, p);
      forall q | 0 <= q < |p|
        ensures (InClass(p[q], UpperClass) <==> IsAsciiUpper(p[q]))
          && (InClass(p[q], LowerClass) <==> IsAsciiLower(p[q]))
          && (InClass(p[q], DigitClass) <==> IsAsciiDigit(p[q]))
          && (InClass(p[q], SpecialClass) <==> IsPasswordSpecial(p[q]))
      {
        UpperClassIs(p[q]);
        LowerClassIs(p[q]);
        DigitClassIs(p[q]);
        SpecialClassIs(p[q]);
      }
    }
  }

  // Consequences of the accepted shapes.

  /** An accepted e-mail is a non-empty local part of allowed characters followed by `@gmail.com`. */
  lemma ValidEmailShape(email: JsString)
    ensures ValidEmail(email) <==>
      exists local: JsString :: |local| > 0 && email == local + GmailSuffix &&
        forall i :: 0 <= i < |local| ==> IsEmailLocalUnit(local[i])
  {
    if ValidEmail(email) {
      var local := email[..|email| - |GmailSuffix|];
      assert email == local + GmailSuffix;
    }
  }

  /** An accepted e-mail has exactly one `@`: the one that starts `@gmail.com`. */
  lemma ValidEmailSingleAt(email: JsString)
    requires ValidEmail(email)
    ensures forall i :: 0 <= i < |email| ==> (email[i] == Unit('@') <==> i == |email| - |GmailSuffix|)
  {
    var n := |GmailSuffix|;
    forall i | 0 <= i < |email|
      ensures email[i] == Unit('@') <==> i == |email| - n
    {
      if i >= |email| - n {
        assert email[i] == GmailSuffix[i - (|email| - n)];
      }
    }
  }

  /** A password with all four kinds of unit is accepted; one with no upper-case letter and no special is not. */
  lemma PasswordExamples()
    ensures ValidPassword(Utf16("Abcd123#"))
    ensures !ValidPassword(Utf16("abc12345"))
  {
    var good, bad := "Abcd123#", "abc12345";
    Utf16OfBmp(good);
    Utf16OfBmp(bad);
    var g := Utf16(good);
    assert IsAsciiUpper(g[0]) && IsAsciiLower(g[1]) && IsAsciiDigit(g[4]) && IsPasswordSpecial(g[7]);
    var b := Utf16(bad);
    assert forall i :: 0 <= i < |b| ==> !IsAsciiUpper(b[i]);
  }

  /** `$` without the `m` flag does not match before a final line feed. */
  lemma EmailTrailingLineFeedRejected()
    ensures !Test(EmailRegex, Utf16("ann@gmail.com\n"))
  {
    var text := "ann@gmail.com\n";
    Utf16OfBmp(text);
    var e := Utf16(text);
    assert |e| == 14 && e[13] == Unit('\n');
    assert e[|e| - |GmailSuffix|..][9] == e[13];
    assert !ValidEmail(e);
    ValidEmailIsRegex(e);
  }

  /** Three allowed units before `@gmail.com` make a valid e-mail. */
  lemma ThreeUnitLocalValid(text: string)
    requires |text| == 13 && text[3..] == "@gmail.com"
    requires forall i :: 0 <= i < 3 ==> 'a' <= text[i] <= 'z'
    ensures ValidEmail(Utf16(text))
  {
    Utf16OfBmp(text);
    var e := Utf16(text);
    assert e[3] == Unit('@') && e[4] == Unit('g') && e[5] == Unit('m') && e[6] == Unit('a') && e[7] == Unit('i');
    assert e[8] == Unit('l') && e[9] == Unit('.') && e[10] == Unit('c') && e[11] == Unit('o') && e[12] == Unit('m');
    assert e[|e| - |GmailSuffix|..] == GmailSuffix;
  }

  /** An e-mail of three lower-case letters before `@gmail.com` passes the e-mail check. */
  lemma SampleEmailValid()
    ensures ValidEmail(Utf16("ann@gmail.com"))
  {
    ThreeUnitLocalValid("ann@gmail.com");
  }

  /** An eight-unit password with an upper, a lower, digits and `#` passes the password check. */
  lemma SamplePasswordValid()
    ensures ValidPassword(Utf16("Abc123#4"))
  {
    var text := "Abc123#4";
    Utf16OfBmp(text);
    var p := Utf16(text);
    assert IsAsciiUpper(p[0]) && IsAsciiLower(p[1]) && IsAsciiDigit(p[3]) && IsPasswordSpecial(p[6]);
  }

  /** Ten ASCII digits pass the contact check. */
  lemma SampleContactValid()
    ensures ValidContact(Utf16("1234567890"))
  {
    var text := "1234567890";
    Utf16OfBmp(text);
  }
}
