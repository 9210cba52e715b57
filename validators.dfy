/**
  The three field validators of utils/validators.js. Each one is an anchored
  regular expression in the source; here each is a hand-written parser that
  splits the text along the groups of the pattern, and the validator accepts
  exactly when the parser succeeds. The language of each pattern is stated
  independently as "the text is the rendering of some well-formed parts", and
  the round-trip lemmas show the parser and that rendering agree.
 */
module Validators {
  import opened Wrappers
  import opened Text

  // ---------------------------------------------------------------------------
  // validateName: /^[A-Za-z]+$/

  /** The recogniser for `[A-Za-z]*`. */
  function LettersOnly(s: string): (ok: bool)
    ensures ok <==> AllLetters(s)
  {
    s == [] || (IsAsciiLetter(s[0]) && LettersOnly(s[1..]))
  }

  function ValidateName(name: string): (ok: bool)
    ensures ok <==> |name| > 0 && forall i :: 0 <= i < |name| ==> IsAsciiLetter(name[i])
  {
    name != [] && LettersOnly(name)
  }

  // ---------------------------------------------------------------------------
  // validatePhone: /^(\+0?1\s)?\(?\d{3}\)?[\s.-]?\d{3}[\s.-]?\d{4}$/

  /** The optional group `(\+0?1\s)`, with the white-space character it ends with. */
  datatype CountryCode = NoCode | PlusOne(space: char) | PlusZeroOne(space: char)

  /** A phone number cut along the groups of the pattern. */
  datatype PhoneParts = PhoneParts(
    code: CountryCode,
    open: bool,
    area: string,
    close: bool,
    sep1: Option<char>,
    exchange: string,
    sep2: Option<char>,
    line: string)

  /** `[\s.-]` */
  predicate IsPhoneSep(c: char) { IsJsSpace(c) || c == '.' || c == '-' }

  predicate WellFormedCode(code: CountryCode) {
    !code.NoCode? ==> IsJsSpace(code.space)
  }

  predicate WellFormedSep(sep: Option<char>) {
    sep.Some? ==> IsPhoneSep(sep.value)
  }

  predicate WellFormedPhone(p: PhoneParts) {
    && WellFormedCode(p.code)
    && |p.area| == 3 && AllDigits(p.area)
    && WellFormedSep(p.sep1)
    && |p.exchange| == 3 && AllDigits(p.exchange)
    && WellFormedSep(p.sep2)
    && |p.line| == 4 && AllDigits(p.line)
  }

  function CodeText(code: CountryCode): string {
    match code
    case NoCode => ""
    case PlusOne(sp) => "+1" + [sp]
    case PlusZeroOne(sp) => "+01" + [sp]
  }

  /** The text of an optional single character. */
  function OptText(present: bool, c: char): string {
    if present then [c] else ""
  }

  function SepText(sep: Option<char>): string {
    if sep.Some? then [sep.value] else ""
  }

  /** Everything after the country code, nested the way the parser peels it off. */
  function BodyText(p: PhoneParts): string {
    OptText(p.open, '(') + (p.area + (OptText(p.close, ')')
      + (SepText(p.sep1) + (p.exchange + (SepText(p.sep2) + p.line)))))
  }

  function PhoneText(p: PhoneParts): string {
    CodeText(p.code) + BodyText(p)
  }

  /** `(\+0?1\s)?`: a leading `+` can only start the country code. */
  function ParseCode(s: string): (r: Option<(CountryCode, string)>)
    ensures r.Some? ==> WellFormedCode(r.value.0) && CodeText(r.value.0) + r.value.1 == s
  {
    if |s| == 0 || s[0] != '+' then
      assert "" + s == s;
      Some((NoCode, s))
    else if |s| >= 3 && s[1] == '1' && IsJsSpace(s[2]) then
      assert s == "+1" + [s[2]] + s[3..];
      Some((PlusOne(s[2]), s[3..]))
    else if |s| >= 4 && s[1] == '0' && s[2] == '1' && IsJsSpace(s[3]) then
      assert s == "+01" + [s[3]] + s[4..];
      Some((PlusZeroOne(s[3]), s[4..]))
    else None
  }

  /** An optional literal character such as `\(?`. */
  function TakeChar(s: string, c: char): (r: (bool, string))
    ensures OptText(r.0, c) + r.1 == s
  {
    if |s| > 0 && s[0] == c then
      assert [c] + s[1..] == s;
      (true, s[1..])
    else (false, s)
  }

  /** `[\s.-]?` */
  function TakeSep(s: string): (r: (Option<char>, string))
    ensures WellFormedSep(r.0) && SepText(r.0) + r.1 == s
  {
    if |s| > 0 && IsPhoneSep(s[0]) then
      assert [s[0]] + s[1..] == s;
      (Some(s[0]), s[1..])
    else (None, s)
  }

  /** `\d{n}` */
  function TakeDigits(s: string, n: nat): (r: Option<(string, string)>)
    ensures r.Some? ==> |r.value.0| == n && AllDigits(r.value.0) && r.value.0 + r.value.1 == s
  {
    if |s| >= n && AllDigits(s[..n]) then
      assert s[..n] + s[n..] == s;
      Some((s[..n], s[n..]))
    else None
  }

  /** Parses a phone number; what it returns renders back to the input. */
  function ParsePhone(s: string): (r: Option<PhoneParts>)
    ensures r.Some? ==> WellFormedPhone(r.value) && PhoneText(r.value) == s
  {
    var c := ParseCode(s);
    if c.None? then None else
    var (code, s1) := c.value;
    var (open, s2) := TakeChar(s1, '(');
    var a := TakeDigits(s2, 3);
    if a.None? then None else
    var (area, s3) := a.value;
    var (close, s4) := TakeChar(s3, ')');
    var (sep1, s5) := TakeSep(s4);
    var x := TakeDigits(s5, 3);
    if x.None? then None else
    var (exchange, s6) := x.value;
    var (sep2, s7) := TakeSep(s6);
    if |s7| == 4 && AllDigits(s7) then
      Some(PhoneParts(code, open, area, close, sep1, exchange, sep2, s7))
    else None
  }

  function ValidatePhone(phone: string): bool {
    ParsePhone(phone).Some?
  }

  lemma TakeCharOf(present: bool, c: char, rest: string)
    requires |rest| > 0 && rest[0] != c
    ensures TakeChar(OptText(present, c) + rest, c) == (present, rest)
  {
    if present {
      assert ([c] + rest)[1..] == rest;
    } else {
      assert OptText(present, c) + rest == rest;
    }
  }

  lemma TakeSepOf(sep: Option<char>, rest: string)
    requires WellFormedSep(sep)
    requires |rest| > 0 && IsDigit(rest[0])
    ensures TakeSep(SepText(sep) + rest) == (sep, rest)
  {
    if sep.Some? {
      assert ([sep.value] + rest)[1..] == rest;
    } else {
      assert SepText(sep) + rest == rest;
    }
  }

  lemma TakeDigitsOf(d: string, rest: string)
    requires AllDigits(d)
    ensures TakeDigits(d + rest, |d|) == Some((d, rest))
  {
    assert (d + rest)[..|d|] == d;
    assert (d + rest)[|d|..] == rest;
  }

  lemma ParseCodeOf(code: CountryCode, rest: string)
    requires WellFormedCode(code)
    requires |rest| > 0 && rest[0] != '+'
    ensures ParseCode(CodeText(code) + rest) == Some((code, rest))
  {
    var s := CodeText(code) + rest;
    match code
    case NoCode =>
      assert s == rest;
    case PlusOne(sp) =>
      assert s[0] == '+' && s[1] == '1' && s[2] == sp && s[3..] == rest;
    case PlusZeroOne(sp) =>
      assert s[0] == '+' && s[1] == '0' && s[2] == '1' && s[3] == sp && s[4..] == rest;
  }

  /** Every well-formed phone number parses back into its own parts. */
  lemma ParsePhoneText(p: PhoneParts)
    requires WellFormedPhone(p)
    ensures ParsePhone(PhoneText(p)) == Some(p)
  {
    var t6 := SepText(p.sep2) + p.line;
    var t5 := p.exchange + t6;
    var t4 := SepText(p.sep1) + t5;
    var t3 := OptText(p.close, ')') + t4;
    var t2 := p.area + t3;
    var t1 := BodyText(p);
    assert t1 == OptText(p.open, '(') + t2;
    assert IsDigit(p.area[0]) && IsDigit(p.exchange[0]) && IsDigit(p.line[0]);
    assert t2[0] == p.area[0] && t5[0] == p.exchange[0];
    assert |t1| > 0 && t1[0] != '+' by {
      if p.open { assert t1[0] == '('; } else { assert t1[0] == p.area[0]; }
    }
    assert |t4| > 0 && t4[0] != ')' by {
      if p.sep1.Some? { assert t4[0] == p.sep1.value; } else { assert t4[0] == p.exchange[0]; }
    }
    ParseCodeOf(p.code, t1);
    TakeCharOf(p.open, '(', t2);
    TakeDigitsOf(p.area, t3);
    TakeCharOf(p.close, ')', t4);
    TakeSepOf(p.sep1, t5);
    TakeDigitsOf(p.exchange, t6);
    TakeSepOf(p.sep2, p.line);
  }

  /**
    The language of the phone pattern: a text is accepted exactly when it is
    the rendering of some well-formed parts.
   */
  lemma PhoneLanguage(s: string)
    ensures ValidatePhone(s) <==> exists p :: WellFormedPhone(p) && PhoneText(p) == s
  {
    if exists p :: WellFormedPhone(p) && PhoneText(p) == s {
      var p :| WellFormedPhone(p) && PhoneText(p) == s;
      ParsePhoneText(p);
    }
  }

  /** The number of decimal digits in a text. */
  function DigitCount(s: string): nat {
    if s == [] then 0 else (if IsDigit(s[0]) then 1 else 0) + DigitCount(s[1..])
  }

  lemma {:induction false} DigitCountAppend(a: string, b: string)
    ensures DigitCount(a + b) == DigitCount(a) + DigitCount(b)
    decreases |a|
  {
    if a != [] {
      assert (a + b)[0] == a[0] && (a + b)[1..] == a[1..] + b;
      DigitCountAppend(a[1..], b);
    } else {
      assert a + b == b;
    }
  }

  lemma {:induction false} DigitCountAllDigits(s: string)
    requires AllDigits(s)
    ensures DigitCount(s) == |s|
    decreases |s|
  {
    if s != [] {
      DigitCountAllDigits(s[1..]);
    }
  }

  /** Outside the optional country code, a well-formed phone number has exactly ten digits. */
  lemma BodyHasTenDigits(p: PhoneParts)
    requires WellFormedPhone(p)
    ensures DigitCount(BodyText(p)) == 10
  {
    DigitCountAllDigits(p.area);
    DigitCountAllDigits(p.exchange);
    DigitCountAllDigits(p.line);
    var t6 := SepText(p.sep2) + p.line;
    var t5 := p.exchange + t6;
    var t4 := SepText(p.sep1) + t5;
    var t3 := OptText(p.close, ')') + t4;
    var t2 := p.area + t3;
    DigitCountAppend(SepText(p.sep2), p.line);
    DigitCountAppend(p.exchange, t6);
    DigitCountAppend(SepText(p.sep1), t5);
    DigitCountAppend(OptText(p.close, ')'), t4);
    DigitCountAppend(p.area, t3);
    DigitCountAppend(OptText(p.open, '('), t2);
  }

  /** Every accepted phone number has exactly ten digits after its optional country code. */
  lemma TenDigits(s: string)
    requires ValidatePhone(s)
    ensures var p := ParsePhone(s).value;
      DigitCount(s[|CodeText(p.code)|..]) == 10
  {
    var p := ParsePhone(s).value;
    assert s == CodeText(p.code) + BodyText(p);
    assert s[|CodeText(p.code)|..] == BodyText(p);
    BodyHasTenDigits(p);
  }

  /** A text rendered from well-formed parts is accepted. */
  lemma AcceptsPhone(p: PhoneParts, s: string)
    requires WellFormedPhone(p) && PhoneText(p) == s
    ensures ValidatePhone(s)
  {
    ParsePhoneText(p);
  }

  // The six sample formats listed beside the pattern in the source, each accepted.

  /** Sample format with plain digits. */
  lemma PhoneSampleDigits()
    ensures ValidatePhone("1234567890")
  {
    var p := PhoneParts(NoCode, false, "123", false, None, "456", None, "7890");
    assert WellFormedPhone(p);
    assert PhoneText(p) == "1234567890";
    AcceptsPhone(p, "1234567890");
  }

  /** Sample format with dash separators. */
  lemma PhoneSampleDashes()
    ensures ValidatePhone("123-456-7890")
  {
    var p := PhoneParts(NoCode, false, "123", false, Some('-'), "456", Some('-'), "7890");
    assert WellFormedPhone(p);
    assert PhoneText(p) == "123-456-7890";
    AcceptsPhone(p, "123-456-7890");
  }

  /** Sample format with a parenthesised area code. */
  lemma PhoneSampleParentheses()
    ensures ValidatePhone("(123) 456-7890")
  {
    var p := PhoneParts(NoCode, true, "123", true, Some(' '), "456", Some('-'), "7890");
    assert WellFormedPhone(p);
    assert PhoneText(p) == "(123) 456-7890";
    AcceptsPhone(p, "(123) 456-7890");
  }

  /** Sample format with space separators. */
  lemma PhoneSampleSpaces()
    ensures ValidatePhone("123 456 7890")
  {
    var p := PhoneParts(NoCode, false, "123", false, Some(' '), "456", Some(' '), "7890");
    assert WellFormedPhone(p);
    assert PhoneText(p) == "123 456 7890";
    AcceptsPhone(p, "123 456 7890");
  }

  /** Sample format with dot separators. */
  lemma PhoneSampleDots()
    ensures ValidatePhone("123.456.7890")
  {
    var p := PhoneParts(NoCode, false, "123", false, Some('.'), "456", Some('.'), "7890");
    assert WellFormedPhone(p);
    assert PhoneText(p) == "123.456.7890";
    AcceptsPhone(p, "123.456.7890");
  }

  /** Sample format with the `+1` country code. */
  lemma PhoneSampleCountryCode()
    ensures ValidatePhone("+1 (123) 456-7890")
  {
    var p := PhoneParts(PlusOne(' '), true, "123", true, Some(' '), "456", Some('-'), "7890");
    assert WellFormedPhone(p);
    assert PhoneText(p) == "+1 (123) 456-7890";
    AcceptsPhone(p, "+1 (123) 456-7890");
  }

  // The parentheses around the area code are independent: one may appear without the other.

  /** An opening parenthesis without its closing one is accepted. */
  lemma OpenParenthesisAlone()
    ensures ValidatePhone("(1234567890")
  {
    var p := PhoneParts(NoCode, true, "123", false, None, "456", None, "7890");
    assert WellFormedPhone(p);
    assert PhoneText(p) == "(1234567890";
    AcceptsPhone(p, "(1234567890");
  }

  /** A closing parenthesis without its opening one is accepted. */
  lemma CloseParenthesisAlone()
    ensures ValidatePhone("123)456-7890")
  {
    var p := PhoneParts(NoCode, false, "123", true, None, "456", Some('-'), "7890");
    assert WellFormedPhone(p);
    assert PhoneText(p) == "123)456-7890";
    AcceptsPhone(p, "123)456-7890");
  }

  // ---------------------------------------------------------------------------
  // validateEmail:
  // /^(([^<>()[\]\\.,;:\s@\"]+(\.[^<>()[\]\\.,;:\s@\"]+)*)|(\".+\"))@
  //   ((\[[0-9]{1,3}\.[0-9]{1,3}\.[0-9]{1,3}\.[0-9]{1,3}\])|(([a-zA-Z\-0-9]+\.)+[a-zA-Z]{2,}))$/

  /** `[^<>()[\]\\.,;:\s@\"]`: a character of an unquoted atom. */
  predicate IsAtomChar(c: char) {
    c !in "<>()[]\\.,;:@\"" && !IsJsSpace(c)
  }

  /** `[a-zA-Z\-0-9]`: a character of a domain label. */
  predicate IsLabelChar(c: char) {
    IsAsciiLetter(c) || IsDigit(c) || c == '-'
  }

  predicate IsAtom(a: string) {
    |a| > 0 && forall i :: 0 <= i < |a| ==> IsAtomChar(a[i])
  }

  predicate IsLabel(l: string) {
    |l| > 0 && forall i :: 0 <= i < |l| ==> IsLabelChar(l[i])
  }

  /** `[0-9]{1,3}`, with no check that the value is at most 255. */
  predicate IsOctet(g: string) {
    1 <= |g| <= 3 && AllDigits(g)
  }

  /** The part before the `@`: dot-separated atoms, or a quoted string. */
  datatype LocalPart = Dotted(atoms: seq<string>) | Quoted(text: string)

  /** The part after the `@`: a bracketed dotted quad, or labels and a top-level domain. */
  datatype Domain = AddressLiteral(groups: seq<string>) | HostName(labels: seq<string>, tld: string)

  datatype EmailParts = EmailParts(local: LocalPart, domain: Domain)

  predicate WellFormedLocal(l: LocalPart) {
    match l
    case Dotted(atoms) => |atoms| >= 1 && forall k :: 0 <= k < |atoms| ==> IsAtom(atoms[k])
    case Quoted(t) => |t| >= 1 && forall i :: 0 <= i < |t| ==> !IsLineTerminator(t[i])
  }

  predicate WellFormedDomain(d: Domain) {
    match d
    case AddressLiteral(groups) =>
      |groups| == 4 && forall k :: 0 <= k < 4 ==> IsOctet(groups[k])
    case HostName(labels, tld) =>
      && |labels| >= 1 && (forall k :: 0 <= k < |labels| ==> IsLabel(labels[k]))
      && |tld| >= 2 && AllLetters(tld)
  }

  predicate WellFormedEmail(e: EmailParts) {
    WellFormedLocal(e.local) && WellFormedDomain(e.domain)
  }

  function LocalText(l: LocalPart): string {
    match l
    case Dotted(atoms) => Join(atoms, '.')
    case Quoted(t) => "\"" + t + "\""
  }

  function DomainText(d: Domain): string {
    match d
    case AddressLiteral(groups) => "[" + Join(groups, '.') + "]"
    case HostName(labels, tld) => Join(labels + [tld], '.')
  }

  function EmailText(e: EmailParts): string {
    LocalText(e.local) + "@" + DomainText(e.domain)
  }

  /** The local part: the unquoted alternative first, then the quoted one. */
  function ParseLocal(t: string): (r: Option<LocalPart>)
    ensures r.Some? ==> WellFormedLocal(r.value) && LocalText(r.value) == t
  {
    var atoms := Split(t, '.');
    if forall k :: 0 <= k < |atoms| ==> IsAtom(atoms[k]) then
      JoinSplit(t, '.');
      Some(Dotted(atoms))
    else if |t| >= 3 && t[0] == '"' && t[|t| - 1] == '"'
      && forall i :: 1 <= i < |t| - 1 ==> !IsLineTerminator(t[i]) then
      assert t == "\"" + t[1..|t| - 1] + "\"";
      Some(Quoted(t[1..|t| - 1]))
    else None
  }

  /** The domain: a bracketed dotted quad, or labels each followed by `.` and a top-level domain. */
  function ParseDomain(t: string): (r: Option<Domain>)
    ensures r.Some? ==> WellFormedDomain(r.value) && DomainText(r.value) == t
  {
    if |t| >= 2 && t[0] == '[' && t[|t| - 1] == ']' then
      var groups := Split(t[1..|t| - 1], '.');
      if |groups| == 4 && forall k :: 0 <= k < 4 ==> IsOctet(groups[k]) then
        JoinSplit(t[1..|t| - 1], '.');
        assert t == "[" + t[1..|t| - 1] + "]";
        Some(AddressLiteral(groups))
      else None
    else
      var parts := Split(t, '.');
      var n := |parts|;
      if n >= 2 && (forall k :: 0 <= k < n - 1 ==> IsLabel(parts[k]))
        && |parts[n - 1]| >= 2 && AllLetters(parts[n - 1]) then
        JoinSplit(t, '.');
        assert parts[..n - 1] + [parts[n - 1]] == parts;
        Some(HostName(parts[..n - 1], parts[n - 1]))
      else None
  }

  /**
    The domain alternatives contain no `@`, so the `@` of the pattern is the
    last one in the text; everything before it is the local part.
   */
  function ParseEmail(s: string): (r: Option<EmailParts>)
    ensures r.Some? ==> WellFormedEmail(r.value) && EmailText(r.value) == s
  {
    var parts := Split(s, '@');
    var n := |parts|;
    if n < 2 then None
    else
      var local := ParseLocal(Join(parts[..n - 1], '@'));
      var domain := ParseDomain(parts[n - 1]);
      if local.Some? && domain.Some? then
        JoinSplit(s, '@');
        JoinSnoc(parts[..n - 1], parts[n - 1], '@');
        assert parts[..n - 1] + [parts[n - 1]] == parts;
        Some(EmailParts(local.value, domain.value))
      else None
  }

  function ValidateEmail(email: string): bool {
    ParseEmail(email).Some?
  }

  lemma SplitHead(s: string, sep: char)
    requires |s| > 0 && s[0] != sep
    ensures |Split(s, sep)[0]| > 0 && Split(s, sep)[0][0] == s[0]
  {
  }

  lemma ParseLocalText(l: LocalPart)
    requires WellFormedLocal(l)
    ensures ParseLocal(LocalText(l)) == Some(l)
  {
    match l
    case Dotted(atoms) =>
      assert !IsAtomChar('.');
      SplitJoin(atoms, '.');
    case Quoted(q) =>
      var t := LocalText(l);
      assert t[0] == '"' && !IsAtomChar('"');
      SplitHead(t, '.');
      assert !IsAtom(Split(t, '.')[0]);
      assert t[1..|t| - 1] == q;
  }

  lemma LabelsAvoid(parts: seq<string>, c: char)
    requires forall k :: 0 <= k < |parts| ==> IsLabel(parts[k]) || (|parts[k]| >= 2 && AllLetters(parts[k]))
    requires !IsLabelChar(c)
    ensures forall k :: 0 <= k < |parts| ==> c !in parts[k]
  {
  }

  lemma OctetsAvoid(groups: seq<string>, c: char)
    requires forall k :: 0 <= k < |groups| ==> IsOctet(groups[k])
    requires !IsDigit(c)
    ensures forall k :: 0 <= k < |groups| ==> c !in groups[k]
  {
  }

  lemma ParseDomainText(d: Domain)
    requires WellFormedDomain(d)
    ensures ParseDomain(DomainText(d)) == Some(d)
    ensures '@' !in DomainText(d)
  {
    match d
    case AddressLiteral(groups) =>
      var t := DomainText(d);
      OctetsAvoid(groups, '.');
      OctetsAvoid(groups, '@');
      SplitJoin(groups, '.');
      JoinAvoids(groups, '.', '@');
      assert t[1..|t| - 1] == Join(groups, '.');
    case HostName(labels, tld) =>
      var parts := labels + [tld];
      var t := DomainText(d);
      LabelsAvoid(parts, '.');
      LabelsAvoid(parts, '@');
      LabelsAvoid(parts, '[');
      SplitJoin(parts, '.');
      JoinAvoids(parts, '.', '@');
      JoinHead(parts, '.');
      assert parts[..|parts| - 1] == labels;
  }

  /** Every well-formed address parses back into its own parts. */
  lemma ParseEmailText(e: EmailParts)
    requires WellFormedEmail(e)
    ensures ParseEmail(EmailText(e)) == Some(e)
  {
    var lt := LocalText(e.local);
    var dt := DomainText(e.domain);
    ParseDomainText(e.domain);
    ParseLocalText(e.local);
    SplitAround(lt, '@', dt);
    SplitWithoutSep(dt, '@');
    var parts := Split(EmailText(e), '@');
    var lparts := Split(lt, '@');
    assert parts == lparts + [dt];
    assert parts[..|parts| - 1] == lparts;
    JoinSplit(lt, '@');
  }

  /**
    The language of the email pattern: a text is accepted exactly when it is
    the rendering of some well-formed parts.
   */
  lemma EmailLanguage(s: string)
    ensures ValidateEmail(s) <==> exists e :: WellFormedEmail(e) && EmailText(e) == s
  {
    if exists e :: WellFormedEmail(e) && EmailText(e) == s {
      var e :| WellFormedEmail(e) && EmailText(e) == s;
      ParseEmailText(e);
    }
  }

  /** A dotted local part never starts or ends with a dot and never holds two dots in a row. */
  lemma {:induction false} DottedLocalHasNoStrayDots(atoms: seq<string>)
    requires WellFormedLocal(Dotted(atoms))
    ensures var t := Join(atoms, '.');
      && |t| > 0 && t[0] != '.' && t[|t| - 1] != '.'
      && forall i :: 0 <= i < |t| - 1 && t[i] == '.' ==> t[i + 1] != '.'
    decreases |atoms|
  {
    var a := atoms[0];
    assert IsAtom(a) && !IsAtomChar('.');
    assert forall i :: 0 <= i < |a| ==> a[i] != '.';
    if |atoms| > 1 {
      var rest := atoms[1..];
      assert WellFormedLocal(Dotted(rest));
      DottedLocalHasNoStrayDots(rest);
      var r := Join(rest, '.');
      var t := Join(atoms, '.');
      assert t == a + ['.'] + r;
      forall i | 0 <= i < |t| - 1 && t[i] == '.' ensures t[i + 1] != '.' {
        if i == |a| {
          assert t[i + 1] == r[0];
        } else if i > |a| {
          assert t[i] == r[i - |a| - 1] && t[i + 1] == r[i - |a|];
        }
      }
    }
  }

  lemma LettersAreAtoms(a: string)
    requires |a| > 0 && AllLetters(a)
    ensures IsAtom(a)
  {
    assert forall c :: IsAsciiLetter(c) ==> IsAtomChar(c);
  }

  lemma LettersAreLabel(a: string)
    requires |a| > 0 && AllLetters(a)
    ensures IsLabel(a)
  {
  }

  /** Two pieces joined with a dot. */
  lemma JoinTwo(x: string, y: string)
    ensures Join([x, y], '.') == x + "." + y
  {
    assert [x, y][1..] == [y];
    assert Join([y], '.') == y;
    assert Join([x, y], '.') == x + ['.'] + Join([y], '.');
  }

  /** Two dotted words of letters at a one-label host name are accepted. */
  lemma AcceptsDottedAddress(a1: string, a2: string, host: string, tld: string)
    requires |a1| > 0 && AllLetters(a1) && |a2| > 0 && AllLetters(a2)
    requires |host| > 0 && AllLetters(host) && |tld| >= 2 && AllLetters(tld)
    ensures ValidateEmail((a1 + "." + a2) + "@" + (host + "." + tld))
  {
    var e := EmailParts(Dotted([a1, a2]), HostName([host], tld));
    assert WellFormedEmail(e) by {
      LettersAreAtoms(a1);
      LettersAreAtoms(a2);
      LettersAreLabel(host);
    }
    assert LocalText(e.local) == a1 + "." + a2 by {
      JoinTwo(a1, a2);
    }
    assert DomainText(e.domain) == host + "." + tld by {
      assert [host] + [tld] == [host, tld];
      JoinTwo(host, tld);
    }
    assert ParseEmail(EmailText(e)) == Some(e) by { ParseEmailText(e); }
  }

  /** A quoted local part of any line-terminator-free text at a one-label host name is accepted. */
  lemma AcceptsQuotedAddress(t: string, host: string, tld: string)
    requires |t| > 0 && forall i :: 0 <= i < |t| ==> !IsLineTerminator(t[i])
    requires |host| > 0 && AllLetters(host) && |tld| >= 2 && AllLetters(tld)
    ensures ValidateEmail(("\"" + t + "\"") + "@" + (host + "." + tld))
  {
    var e := EmailParts(Quoted(t), HostName([host], tld));
    assert WellFormedEmail(e) by {
      LettersAreLabel(host);
    }
    assert DomainText(e.domain) == host + "." + tld by {
      assert [host] + [tld] == [host, tld];
      JoinTwo(host, tld);
    }
    assert ParseEmail(EmailText(e)) == Some(e) by { ParseEmailText(e); }
  }

  /** Any four groups of one to three digits in brackets form an accepted domain. */
  lemma AcceptsAddressLiteral(local: string, g1: string, g2: string, g3: string, g4: string)
    requires |local| > 0 && AllLetters(local)
    requires IsOctet(g1) && IsOctet(g2) && IsOctet(g3) && IsOctet(g4)
    ensures ValidateEmail(local + "@" + ("[" + (g1 + "." + (g2 + "." + (g3 + "." + g4))) + "]"))
  {
    var groups := [g1, g2, g3, g4];
    var e := EmailParts(Dotted([local]), AddressLiteral(groups));
    assert WellFormedEmail(e) by {
      LettersAreAtoms(local);
      assert IsOctet(groups[0]) && IsOctet(groups[1]) && IsOctet(groups[2]) && IsOctet(groups[3]);
    }
    assert DomainText(e.domain) == "[" + (g1 + "." + (g2 + "." + (g3 + "." + g4))) + "]" by {
      assert groups[1..] == [g2, g3, g4] && groups[1..][1..] == [g3, g4];
      JoinTwo(g3, g4);
      assert Join([g2, g3, g4], '.') == g2 + "." + Join([g3, g4], '.');
    }
    assert ParseEmail(EmailText(e)) == Some(e) by { ParseEmailText(e); }
  }

  /** A dotted local part and a host name. */
  lemma EmailSampleDotted(s: string)
    requires s == "little.lemon@example.com"
    ensures ValidateEmail(s)
  {
    assert s == ("little" + "." + "lemon") + "@" + ("example" + "." + "com");
    assert AllLetters("little") && AllLetters("lemon") && AllLetters("example") && AllLetters("com");
    AcceptsDottedAddress("little", "lemon", "example", "com");
  }

  /** A quoted local part may hold characters an atom may not, such as a space. */
  lemma EmailSampleQuoted(s: string)
    requires s == "\"Little Lemon\"@example.com"
    ensures ValidateEmail(s)
  {
    assert s == ("\"" + "Little Lemon" + "\"") + "@" + ("example" + "." + "com");
    assert AllLetters("example") && AllLetters("com");
    AcceptsQuotedAddress("Little Lemon", "example", "com");
  }

  /** The address literal has no range check: 999 is accepted as a group. */
  lemma EmailSampleAddressLiteral(s: string)
    requires s == "chef@[999.1.2.3]"
    ensures ValidateEmail(s)
  {
    assert s == "chef" + "@" + ("[" + ("999" + "." + ("1" + "." + ("2" + "." + "3"))) + "]");
    AcceptsAddressLiteral("chef", "999", "1", "2", "3");
  }

  /** A domain whose last label is shorter than two characters, and whose last address group (if bracketed) is empty, is rejected. */
  lemma ShortLastLabelRejected(d: string)
    requires |Split(d, '.')[|Split(d, '.')| - 1]| < 2
    requires |d| >= 2 && d[0] == '[' && d[|d| - 1] == ']' ==> Split(d[1..|d| - 1], '.')[|Split(d[1..|d| - 1], '.')| - 1] == ""
    ensures ParseDomain(d).None?
  {
  }

  /** After a dot, a single character `t` leaves a last label of at most one character. */
  lemma LastLabelAfterDot(host: string, t: char)
    ensures |Split(host + ['.'] + [t], '.')[|Split(host + ['.'] + [t], '.')| - 1]| <= 1
  {
    SplitAround(host, '.', [t]);
    if t == '.' {
      assert Split([t], '.') == ["", ""];
    } else {
      SplitWithoutSep([t], '.');
    }
  }

  /** In `[…` followed by `.]`, the last address group is empty. */
  lemma LastGroupAfterDot(host: string)
    requires host != [] && host[0] == '['
    ensures var d := host + ['.'] + [']'];
      Split(d[1..|d| - 1], '.')[|Split(d[1..|d| - 1], '.')| - 1] == ""
  {
    var d := host + ['.'] + [']'];
    assert d[1..|d| - 1] == host[1..] + ['.'] + [];
    SplitAround(host[1..], '.', []);
  }

  /** A one-character top-level domain is rejected, whatever the local part and the host. */
  lemma OneCharTldRejected(local: string, host: string, t: char)
    requires '@' !in host && t != '@'
    ensures !ValidateEmail(local + "@" + host + "." + [t])
  {
    var domain := host + ['.'] + [t];
    var s := local + "@" + host + "." + [t];
    assert Split(s, '@')[|Split(s, '@')| - 1] == domain by {
      assert s == local + ['@'] + domain;
      SplitAround(local, '@', domain);
      SplitWithoutSep(domain, '@');
    }
    LastLabelAfterDot(host, t);
    if t == ']' && host != [] && host[0] == '[' {
      LastGroupAfterDot(host);
    }
    ShortLastLabelRejected(domain);
  }

  lemma EmailRejectsShortTld(s: string)
    requires s == "a@b.c"
    ensures !ValidateEmail(s)
  {
    assert s == "a" + "@" + "b" + "." + ['c'];
    OneCharTldRejected("a", "b", 'c');
  }

  /** A domain without any dot is rejected, whatever the local part. */
  lemma DotlessDomainRejected(local: string, host: string)
    requires '@' !in host && '.' !in host
    ensures !ValidateEmail(local + "@" + host)
  {
    var s := local + "@" + host;
    assert Split(s, '@')[|Split(s, '@')| - 1] == host by {
      assert s == local + ['@'] + host;
      SplitAround(local, '@', host);
      SplitWithoutSep(host, '@');
    }
    assert ParseDomain(host).None? by {
      if |host| >= 2 && host[0] == '[' && host[|host| - 1] == ']' {
        SplitWithoutSep(host[1..|host| - 1], '.');
      } else {
        SplitWithoutSep(host, '.');
      }
    }
  }

  /** A bare host name such as `localhost` is rejected. */
  lemma EmailRejectsBareHost(s: string)
    requires s == "a@localhost"
    ensures !ValidateEmail(s)
  {
    assert s == "a" + "@" + "localhost";
    DotlessDomainRejected("a", "localhost");
  }

  /** All three patterns are anchored and require at least one character: the empty text is rejected. */
  lemma EmptyRejected()
    ensures !ValidateName("") && !ValidatePhone("") && !ValidateEmail("")
  {
  }
}
