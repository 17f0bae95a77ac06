/**
 * The sentinel-line matcher of the sidecar supervisor: a line of the server's
 * standard output announces its port when it starts with `PORT_PREFIX` and the
 * rest, trimmed of whitespace, parses as a Rust `u16`.
 */
module Sentinel {
  import opened Wrappers

  const U16_MAX := 65535

  /** Rust's `u16`. */
  type U16 = n: int | 0 <= n <= U16_MAX

  /** The prefix the server writes in front of the port it bound. */
  const PORT_PREFIX := "SANDCASTLE_SERVER_PORT="

  // ---------------------------------------------------------------------------
  // Rust's `str::trim`
  // ---------------------------------------------------------------------------

  /** Rust's `char::is_whitespace`: the characters with the Unicode White_Space property. */
  predicate IsWhitespace(c: char) {
    var n := c as int;
    (0x09 <= n <= 0x0D) || n == 0x20 || n == 0x85 || n == 0xA0 || n == 0x1680
    || (0x2000 <= n <= 0x200A) || n == 0x2028 || n == 0x2029 || n == 0x202F
    || n == 0x205F || n == 0x3000
  }

  predicate AllWhitespace(s: string) {
    forall k :: 0 <= k < |s| ==> IsWhitespace(s[k])
  }

  /** Drops the leading whitespace. */
  function TrimStart(s: string): string {
    if s != [] && IsWhitespace(s[0]) then TrimStart(s[1..]) else s
  }

  /** Drops the trailing whitespace. */
  function TrimEnd(s: string): string {
    if s != [] && IsWhitespace(s[|s| - 1]) then TrimEnd(s[..|s| - 1]) else s
  }

  /** `TrimStart` keeps a suffix that starts with a non-whitespace character, and drops only whitespace. */
  lemma {:induction false} TrimStartSpec(s: string)
    ensures |TrimStart(s)| <= |s| && TrimStart(s) == s[|s| - |TrimStart(s)|..]
    ensures AllWhitespace(s[..|s| - |TrimStart(s)|])
    ensures TrimStart(s) != [] ==> !IsWhitespace(TrimStart(s)[0])
  {
    if s != [] && IsWhitespace(s[0]) {
      TrimStartSpec(s[1..]);
      var r := TrimStart(s);
      assert s[..|s| - |r|] == [s[0]] + s[1..][..|s| - 1 - |r|];
    }
  }

  /** `TrimEnd` keeps a prefix that ends with a non-whitespace character, and drops only whitespace. */
  lemma {:induction false} TrimEndSpec(s: string)
    ensures |TrimEnd(s)| <= |s| && TrimEnd(s) == s[..|TrimEnd(s)|]
    ensures AllWhitespace(s[|TrimEnd(s)|..])
    ensures TrimEnd(s) != [] ==> !IsWhitespace(TrimEnd(s)[|TrimEnd(s)| - 1])
  {
    if s != [] && IsWhitespace(s[|s| - 1]) {
      TrimEndSpec(s[..|s| - 1]);
      var r := TrimEnd(s);
      assert s[|r|..] == s[..|s| - 1][|r|..] + [s[|s| - 1]];
    }
  }

  /** Rust's `str::trim`: whitespace removed from both ends. */
  function Trim(s: string): string {
    TrimEnd(TrimStart(s))
  }

  /** Whatever `Trim` removes is whitespace, and what it keeps has no whitespace at either end. */
  lemma TrimRemovesOnlyPadding(s: string) returns (lead: string, trail: string)
    ensures s == lead + Trim(s) + trail && AllWhitespace(lead) && AllWhitespace(trail)
    ensures Trim(s) != [] ==> !IsWhitespace(Trim(s)[0]) && !IsWhitespace(Trim(s)[|Trim(s)| - 1])
  {
    var t := TrimStart(s);
    var r := TrimEnd(t);
    TrimStartSpec(s);
    TrimEndSpec(t);
    assert r == Trim(s);
    lead, trail := s[..|s| - |t|], t[|r|..];
    assert t == r + trail by { assert r == t[..|r|]; }
    assert s == lead + t by { assert t == s[|s| - |t|..]; }
  }

  lemma {:induction false} TrimStartOfPadded(lead: string, core: string)
    requires AllWhitespace(lead)
    requires core != [] && !IsWhitespace(core[0])
    ensures TrimStart(lead + core) == core
  {
    if lead != [] {
      assert (lead + core)[1..] == lead[1..] + core;
      TrimStartOfPadded(lead[1..], core);
    } else {
      assert lead + core == core;
    }
  }

  lemma {:induction false} TrimEndOfPadded(core: string, trail: string)
    requires AllWhitespace(trail)
    requires core != [] && !IsWhitespace(core[|core| - 1])
    ensures TrimEnd(core + trail) == core
  {
    if trail != [] {
      var s := core + trail;
      assert s[..|s| - 1] == core + trail[..|trail| - 1];
      TrimEndOfPadded(core, trail[..|trail| - 1]);
    } else {
      assert core + trail == core;
    }
  }

  /** Trimming peels off exactly the whitespace padding around a text that has none at its ends. */
  lemma TrimOfPadded(lead: string, core: string, trail: string)
    requires AllWhitespace(lead) && AllWhitespace(trail)
    requires core != [] && !IsWhitespace(core[0]) && !IsWhitespace(core[|core| - 1])
    ensures Trim(lead + core + trail) == core
  {
    assert lead + core + trail == lead + (core + trail);
    TrimStartOfPadded(lead, core + trail);
    TrimEndOfPadded(core, trail);
  }

  // ---------------------------------------------------------------------------
  // Rust's `str::parse::<u16>`
  // ---------------------------------------------------------------------------

  predicate IsDigit(c: char) {
    '0' <= c <= '9'
  }

  predicate AllDigits(s: string) {
    forall k :: 0 <= k < |s| ==> IsDigit(s[k])
  }

  function DigitValue(c: char): (d: nat)
    requires IsDigit(c)
    ensures d < 10
  {
    c as int - '0' as int
  }

  /** The number a string of decimal digits denotes (the empty string denotes 0). */
  function DecimalValue(s: string): nat
    requires AllDigits(s)
  {
    if s == [] then 0 else DecimalValue(s[..|s| - 1]) * 10 + DigitValue(s[|s| - 1])
  }

  /**
   * The digit loop of Rust's unsigned `from_str_radix` for radix 10: each character
   * must be an ASCII digit, and each `checked_mul(10)` and `checked_add(digit)` must
   * stay within `u16`, or the parse fails.
   */
  function AccumulateDigits(acc: U16, s: string): Option<U16>
    decreases |s|
  {
    if s == [] then Some(acc)
    else if !IsDigit(s[0]) then None
    else if acc * 10 + DigitValue(s[0]) > U16_MAX then None
    else AccumulateDigits(acc * 10 + DigitValue(s[0]), s[1..])
  }

  /**
   * Rust's `str::parse::<u16>()`: the empty text and a lone sign are refused, one
   * leading `+` is allowed (a `-` is not, the type being unsigned), the rest must be
   * decimal digits whose value fits in 16 bits; leading zeros are allowed.
   */
  function ParseU16(s: string): Option<U16> {
    if s == [] || s == "+" || s == "-" then None
    else AccumulateDigits(0, if s[0] == '+' then s[1..] else s)
  }

  /** An optional `+` followed by digits. */
  function SignedText(plus: bool, digits: string): string {
    (if plus then "+" else "") + digits
  }

  lemma {:induction false} DecimalValueMonotone(a: string, b: string)
    requires AllDigits(a) && AllDigits(b)
    ensures AllDigits(a + b) && DecimalValue(a + b) >= DecimalValue(a)
  {
    if b == [] {
      assert a + b == a;
    } else {
      var b' := b[..|b| - 1];
      assert (a + b)[..|a + b| - 1] == a + b';
      DecimalValueMonotone(a, b');
    }
  }

  /**
   * The checked loop computes the decimal value of the whole digit string, or fails
   * exactly when a character is not a digit or the value exceeds `U16_MAX`.
   */
  lemma {:induction false} AccumulateDigitsValue(done: string, s: string)
    requires AllDigits(done) && DecimalValue(done) <= U16_MAX
    ensures AllDigits(s) ==> AllDigits(done + s)
    decreases |s|
    ensures AccumulateDigits(DecimalValue(done), s)
            == if AllDigits(s) && DecimalValue(done + s) <= U16_MAX then Some(DecimalValue(done + s)) else None
  {
    if AllDigits(s) {
      assert forall k :: 0 <= k < |done + s| ==> IsDigit((done + s)[k]) by {
        forall k | 0 <= k < |done + s| ensures IsDigit((done + s)[k]) {
          if k >= |done| { assert (done + s)[k] == s[k - |done|]; }
        }
      }
    }
    if s == [] {
      assert done + s == done;
    } else if IsDigit(s[0]) {
      var done' := done + [s[0]];
      assert done'[..|done'| - 1] == done;
      assert AllDigits(done');
      assert DecimalValue(done') == DecimalValue(done) * 10 + DigitValue(s[0]);
      assert done + s == done' + s[1..];
      assert AllDigits(s) <==> AllDigits(s[1..]) by {
        if AllDigits(s[1..]) {
          forall k | 0 <= k < |s| ensures IsDigit(s[k]) {
            if k > 0 { assert s[k] == s[1..][k - 1]; }
          }
        }
      }
      if DecimalValue(done') > U16_MAX {
        if AllDigits(s) {
          DecimalValueMonotone(done', s[1..]);
        }
      } else {
        AccumulateDigitsValue(done', s[1..]);
      }
    }
  }

  /** An optional `+` and one or more digits parse to their value when it fits in 16 bits, and fail otherwise. */
  lemma ParseSignedText(plus: bool, digits: string)
    requires digits != [] && AllDigits(digits)
    ensures ParseU16(SignedText(plus, digits))
            == if DecimalValue(digits) <= U16_MAX then Some(DecimalValue(digits)) else None
  {
    var s := SignedText(plus, digits);
    assert IsDigit(digits[0]);
    assert !plus ==> s == digits;
    assert plus ==> s[0] == '+' && s[1..] == digits;
    assert AllDigits("") && DecimalValue("") == 0;
    AccumulateDigitsValue("", digits);
    assert "" + digits == digits;
  }

  /** Every text `ParseU16` accepts is an optional `+` followed by one or more digits. */
  lemma ParsedIsSignedText(s: string)
    requires ParseU16(s).Some?
    ensures var digits := if s[0] == '+' then s[1..] else s;
            s == SignedText(s[0] == '+', digits) && digits != [] && AllDigits(digits)
  {
    var digits := if s[0] == '+' then s[1..] else s;
    assert AllDigits("") && DecimalValue("") == 0;
    AccumulateDigitsValue("", digits);
    assert "" + digits == digits;
  }

  /** `ParseU16` accepts exactly an optional `+` and one or more digits whose value is a `u16`. */
  lemma ParseU16Iff(s: string, p: U16)
    ensures ParseU16(s) == Some(p)
            <==> exists plus, digits :: s == SignedText(plus, digits) && digits != [] && AllDigits(digits)
                                         && DecimalValue(digits) == p
  {
    if ParseU16(s) == Some(p) {
      ParsedIsSignedText(s);
      ParseSignedText(s[0] == '+', if s[0] == '+' then s[1..] else s);
    }
    if exists plus, digits :: s == SignedText(plus, digits) && digits != [] && AllDigits(digits)
                              && DecimalValue(digits) == p {
      var plus, digits :| s == SignedText(plus, digits) && digits != [] && AllDigits(digits)
                          && DecimalValue(digits) == p;
      ParseSignedText(plus, digits);
    }
  }

  // ---------------------------------------------------------------------------
  // The sentinel matcher
  // ---------------------------------------------------------------------------

  /**
   * How the output reader recognises a port announcement: strip the exact prefix
   * `PORT_PREFIX` from the start of the line, trim the rest and parse it as a `u16`.
   */
  function MatchPortLine(line: string): Option<U16> {
    if PORT_PREFIX <= line then ParseU16(Trim(line[|PORT_PREFIX|..])) else None
  }

  /** A well-formed announcement: prefix, whitespace, an optional `+`, digits, whitespace. */
  function AnnouncementText(lead: string, plus: bool, digits: string, trail: string): string {
    PORT_PREFIX + lead + SignedText(plus, digits) + trail
  }

  ghost predicate AnnouncesPort(line: string, p: U16) {
    exists lead, plus, digits, trail ::
      line == AnnouncementText(lead, plus, digits, trail)
      && AllWhitespace(lead) && AllWhitespace(trail)
      && digits != [] && AllDigits(digits) && DecimalValue(digits) == p
  }

  /** A padded, signed digit string is recognised, and yields its value exactly when that fits in 16 bits. */
  lemma MatchAnnouncementText(lead: string, plus: bool, digits: string, trail: string)
    requires AllWhitespace(lead) && AllWhitespace(trail)
    requires digits != [] && AllDigits(digits)
    ensures MatchPortLine(AnnouncementText(lead, plus, digits, trail))
            == if DecimalValue(digits) <= U16_MAX then Some(DecimalValue(digits)) else None
  {
    var line := AnnouncementText(lead, plus, digits, trail);
    var core := SignedText(plus, digits);
    assert line == PORT_PREFIX + (lead + core + trail);
    assert line[|PORT_PREFIX|..] == lead + core + trail;
    assert core[|core| - 1] == digits[|digits| - 1];
    assert IsDigit(digits[0]) && IsDigit(digits[|digits| - 1]);
    assert !plus ==> core[0] == digits[0];
    TrimOfPadded(lead, core, trail);
    ParseSignedText(plus, digits);
  }

  /** Every line the matcher accepts is a well-formed announcement of the port it yields. */
  lemma MatchedLineAnnounces(line: string)
    requires MatchPortLine(line).Some?
    ensures AnnouncesPort(line, MatchPortLine(line).value)
  {
    var p := MatchPortLine(line).value;
    var rest := line[|PORT_PREFIX|..];
    var core := Trim(rest);
    assert ParseU16(core) == Some(p);
    var lead, trail := TrimRemovesOnlyPadding(rest);
    ParsedIsSignedText(core);
    var plus := core[0] == '+';
    var digits := if plus then core[1..] else core;
    assert core == SignedText(plus, digits) && digits != [] && AllDigits(digits);
    ParseSignedText(plus, digits);
    assert DecimalValue(digits) == p;
    AnnouncementTextOfRest(line, lead, plus, digits, trail);
  }

  lemma AnnouncementTextOfRest(line: string, lead: string, plus: bool, digits: string, trail: string)
    requires PORT_PREFIX <= line
    requires line[|PORT_PREFIX|..] == lead + SignedText(plus, digits) + trail
    ensures line == AnnouncementText(lead, plus, digits, trail)
  {
    var rest := line[|PORT_PREFIX|..];
    assert line[..|PORT_PREFIX|] == PORT_PREFIX;
    assert line == line[..|PORT_PREFIX|] + rest;
    assert PORT_PREFIX + lead + SignedText(plus, digits) + trail == PORT_PREFIX + rest;
  }

  /**
   * The matcher's full contract: a line yields port `p` exactly when it is the prefix,
   * optional whitespace, an optional `+`, the decimal digits of `p`, optional whitespace.
   * Anything else, including a line where the prefix appears later, yields `None`.
   */
  lemma MatchPortLineIff(line: string, p: U16)
    ensures MatchPortLine(line) == Some(p) <==> AnnouncesPort(line, p)
  {
    if MatchPortLine(line) == Some(p) {
      MatchedLineAnnounces(line);
    }
    if AnnouncesPort(line, p) {
      var lead, plus, digits, trail :|
        line == AnnouncementText(lead, plus, digits, trail)
        && AllWhitespace(lead) && AllWhitespace(trail)
        && digits != [] && AllDigits(digits) && DecimalValue(digits) == p;
      MatchAnnouncementText(lead, plus, digits, trail);
    }
  }

  // ---------------------------------------------------------------------------
  // The announcement the server writes, and its round trip through the matcher
  // ---------------------------------------------------------------------------

  function DigitChar(d: nat): (c: char)
    requires d < 10
    ensures IsDigit(c) && DigitValue(c) == d
  {
    ('0' as int + d) as char
  }

  /** The decimal text of a number, without sign or leading zeros. */
  function DecimalString(n: nat): (s: string)
    ensures s != [] && AllDigits(s)
  {
    if n < 10 then [DigitChar(n)] else DecimalString(n / 10) + [DigitChar(n % 10)]
  }

  lemma {:induction false} DecimalStringValue(n: nat)
    ensures DecimalValue(DecimalString(n)) == n
  {
    if n >= 10 {
      var s := DecimalString(n);
      assert s[..|s| - 1] == DecimalString(n / 10);
      DecimalStringValue(n / 10);
    }
  }

  /** The line `PORT_PREFIX + p` (with or without a line ending) is read back as port `p`. */
  lemma AnnouncementRoundTrip(p: U16, trail: string)
    requires AllWhitespace(trail)
    ensures MatchPortLine(PORT_PREFIX + DecimalString(p) + trail) == Some(p)
  {
    DecimalStringValue(p);
    assert PORT_PREFIX + DecimalString(p) + trail == AnnouncementText("", false, DecimalString(p), trail);
    MatchAnnouncementText("", false, DecimalString(p), trail);
  }

  /** What follows the prefix decides: the matcher reads `PORT_PREFIX + rest` as `Trim(rest)` parsed. */
  lemma MatchAfterPrefix(rest: string)
    ensures MatchPortLine(PORT_PREFIX + rest) == ParseU16(Trim(rest))
  {
    assert (PORT_PREFIX + rest)[|PORT_PREFIX|..] == rest;
  }

  /** Rust's `u16` parse on the texts below. */
  lemma ParseU16Examples()
    ensures ParseU16("31822") == Some(31822) && ParseU16("8080") == Some(8080)
    ensures ParseU16("+0443") == Some(443) && ParseU16("65535") == Some(65535)
    ensures ParseU16("65536") == None && ParseU16("70000") == None
    ensures ParseU16("notanumber") == None && ParseU16("") == None
    ensures ParseU16("+") == None && ParseU16("-1") == None && ParseU16("80 81") == None
  {
    assert "+0443"[1..] == "0443";
    assert AccumulateDigits(0, "0443") == Some(443);
  }

  /** Rust's `trim` on the texts below. */
  lemma TrimExamples()
    ensures Trim(" 8080\r\n") == "8080" && Trim("") == ""
    ensures Trim("31822") == "31822" && Trim("+0443") == "+0443" && Trim("65535") == "65535"
    ensures Trim("65536") == "65536" && Trim("70000") == "70000" && Trim("notanumber") == "notanumber"
    ensures Trim("+") == "+" && Trim("-1") == "-1" && Trim("80 81") == "80 81"
  {
    TrimPaddedExample();
    UnpaddedExamples();
  }

  lemma TrimPaddedExample()
    ensures Trim(" 8080\r\n") == "8080" && Trim("") == ""
  {
    assert TrimStart(" 8080\r\n") == TrimStart("8080\r\n") == "8080\r\n";
    assert TrimEnd("8080\r\n") == TrimEnd("8080\r") == TrimEnd("8080") == "8080";
  }

  lemma UnpaddedExamples()
    ensures Trim("31822") == "31822" && Trim("+0443") == "+0443" && Trim("65535") == "65535"
    ensures Trim("65536") == "65536" && Trim("70000") == "70000" && Trim("notanumber") == "notanumber"
    ensures Trim("+") == "+" && Trim("-1") == "-1" && Trim("80 81") == "80 81"
  {
    NoPaddingUntouched("31822");
    NoPaddingUntouched("+0443");
    NoPaddingUntouched("65535");
    NoPaddingUntouched("65536");
    NoPaddingUntouched("70000");
    NoPaddingUntouched("notanumber");
    NoPaddingUntouched("+");
    NoPaddingUntouched("-1");
    NoPaddingUntouched("80 81");
  }

  /** Announcements the matcher accepts. */
  lemma AcceptedExamples()
    ensures MatchPortLine(PORT_PREFIX + "31822") == Some(31822)
    ensures MatchPortLine(PORT_PREFIX + " 8080\r\n") == Some(8080)
    ensures MatchPortLine(PORT_PREFIX + "+0443") == Some(443)
    ensures MatchPortLine(PORT_PREFIX + "65535") == Some(65535)
  {
    ParseU16Examples();
    TrimExamples();
    MatchOfRest("31822", "31822", Some(31822));
    MatchOfRest(" 8080\r\n", "8080", Some(8080));
    MatchOfRest("+0443", "+0443", Some(443));
    MatchOfRest("65535", "65535", Some(65535));
  }

  /** Out-of-range, malformed and empty remainders are ignored. */
  lemma RejectedExamples()
    ensures MatchPortLine(PORT_PREFIX + "65536") == None
    ensures MatchPortLine(PORT_PREFIX + "70000") == None
    ensures MatchPortLine(PORT_PREFIX + "notanumber") == None
    ensures MatchPortLine(PORT_PREFIX + "") == None
    ensures MatchPortLine(PORT_PREFIX + "+") == None
    ensures MatchPortLine(PORT_PREFIX + "-1") == None
    ensures MatchPortLine(PORT_PREFIX + "80 81") == None
  {
    ParseU16Examples();
    TrimExamples();
    MatchOfRest("65536", "65536", None);
    MatchOfRest("70000", "70000", None);
    MatchOfRest("notanumber", "notanumber", None);
    MatchOfRest("", "", None);
    MatchOfRest("+", "+", None);
    MatchOfRest("-1", "-1", None);
    MatchOfRest("80 81", "80 81", None);
  }

  /** The prefix counts only at the very start of the line. */
  lemma PrefixElsewhereExamples()
    ensures MatchPortLine(" " + PORT_PREFIX + "31822") == None
    ensures MatchPortLine("[server] " + PORT_PREFIX + "31822") == None
  {
    assert (" " + PORT_PREFIX + "31822")[0] != PORT_PREFIX[0];
    assert ("[server] " + PORT_PREFIX + "31822")[0] != PORT_PREFIX[0];
  }

  lemma MatchOfRest(rest: string, core: string, result: Option<U16>)
    requires Trim(rest) == core && ParseU16(core) == result
    ensures MatchPortLine(PORT_PREFIX + rest) == result
  {
    MatchAfterPrefix(rest);
  }

  lemma NoPaddingUntouched(s: string)
    requires s != [] && !IsWhitespace(s[0]) && !IsWhitespace(s[|s| - 1])
    ensures Trim(s) == s
  {
    assert TrimStart(s) == s;
  }
}
