/**
 * Python's `int(text)` on a string in base 10, and the optional coercion
 * `int(x) if x else None` the careers handler applies to its numeric fields.
 */
module PyInt {
  import opened Wrappers
  import opened Digits

  /**
   * The characters `int()` skips at both ends. It first turns every non-ASCII
   * whitespace character into ' ' and leaves ASCII alone, then skips only the
   * C `isspace` set: ' ', tab, newline, vertical tab, form feed and carriage
   * return. The separators 0x1C-0x1F, which `str.isspace` accepts, are not
   * skipped.
   */
  predicate IsSpace(c: char) {
    var n := c as int;
    n == 0x20 || 0x09 <= n <= 0x0D || n == 0x85 || n == 0xA0 ||
    n == 0x1680 || 0x2000 <= n <= 0x200A || n == 0x2028 || n == 0x2029 ||
    n == 0x202F || n == 0x205F || n == 0x3000
  }

  function TrimStart(s: string): (t: string)
    ensures |t| <= |s| && t == s[|s| - |t|..]
    ensures forall i | 0 <= i < |s| - |t| :: IsSpace(s[i])
    ensures t == [] || !IsSpace(t[0])
  {
    if s != [] && IsSpace(s[0]) then TrimStart(s[1..]) else s
  }

  function TrimEnd(s: string): (t: string)
    ensures |t| <= |s| && t == s[..|t|]
    ensures forall i | |t| <= i < |s| :: IsSpace(s[i])
    ensures t == [] || !IsSpace(t[|t| - 1])
  {
    if s != [] && IsSpace(s[|s| - 1]) then TrimEnd(s[..|s| - 1]) else s
  }

  /** The text between leading and trailing whitespace, as `int()` sees it. */
  function Strip(s: string): (t: string)
    ensures |t| <= |s|
    ensures t == [] || (!IsSpace(t[0]) && !IsSpace(t[|t| - 1]))
  {
    TrimEnd(TrimStart(s))
  }

  /** Stripping twice is stripping once. */
  lemma StripIdempotent(s: string)
    ensures Strip(Strip(s)) == Strip(s)
  {
    if Strip(s) != [] {
      UnpaddedIsStripped(Strip(s));
    }
  }

  /**
   * A run of ASCII digits in which single underscores may separate digits:
   * no leading, trailing or doubled underscore.
   */
  predicate IsDigitGroups(s: string) {
    |s| > 0 &&
    forall i | 0 <= i < |s| ::
      IsDigit(s[i]) || (s[i] == '_' && 0 < i < |s| - 1 && IsDigit(s[i - 1]) && IsDigit(s[i + 1]))
  }

  /** The digits of a numeral with its '_' separators taken out. */
  function RemoveUnderscores(s: string): (t: string)
    ensures |t| <= |s| && '_' !in t
    ensures (forall i | 0 <= i < |s| :: IsDigit(s[i]) || s[i] == '_') ==> AllDigits(t)
    ensures AllDigits(s) ==> t == s
  {
    if s == [] then []
    else (if s[0] == '_' then [] else [s[0]]) + RemoveUnderscores(s[1..])
  }

  /**
   * Read from the other end, the removal keeps every character but '_' in
   * order: together with `RemoveUnderscores([]) == []` this fixes the result.
   */
  lemma {:induction false} RemoveUnderscoresAppend(s: string, c: char)
    ensures RemoveUnderscores(s + [c]) == RemoveUnderscores(s) + (if c == '_' then [] else [c])
  {
    if s != [] {
      assert (s + [c])[1..] == s[1..] + [c];
      RemoveUnderscoresAppend(s[1..], c);
    }
  }

  /**
   * The most digits `int()` reads from a string: CPython's default
   * `sys.get_int_max_str_digits()`. Longer numerals raise ValueError.
   */
  const MaxStrDigits: nat := 4300

  /** `int(s)`: Some(value), or None where Python raises ValueError. */
  function ParseInt(s: string): (r: Option<int>)
    ensures r.Some? ==> Strip(s) != [] && IsDigit(Strip(s)[|Strip(s)| - 1])
    ensures r.Some? && r.value < 0 ==> Strip(s)[0] == '-'
  {
    ParseStripped(Strip(s))
  }

  /** The stripped text read as an optional sign followed by digit groups. */
  function ParseStripped(t: string): (r: Option<int>)
    ensures r.Some? ==> t != [] && IsDigit(t[|t| - 1])
    ensures r.Some? && r.value < 0 ==> t[0] == '-'
  {
    var negative := |t| > 0 && t[0] == '-';
    var body := if |t| > 0 && (t[0] == '-' || t[0] == '+') then t[1..] else t;
    if IsDigitGroups(body) && |RemoveUnderscores(body)| <= MaxStrDigits then
      assert IsDigit(body[|body| - 1]);
      var v: int := DigitsValue(RemoveUnderscores(body));
      Some(if negative then -v else v)
    else
      None
  }

  /** `str(n)` for an int. */
  function Decimal(n: int): (s: string)
  {
    if n < 0 then "-" + NatDigits(-n) else NatDigits(n)
  }

  /** How many digits `str(n)` writes. */
  function DigitCount(n: int): nat {
    |NatDigits(if n < 0 then -n else n)|
  }

  /** int(str(n)) == n, for every n whose numeral is within the digit limit. */
  lemma ParseIntOfDecimal(n: int)
    requires DigitCount(n) <= MaxStrDigits
    ensures ParseInt(Decimal(n)) == Some(n)
  {
    if n < 0 {
      ParseIntOfNegativeDigits(NatDigits(-n));
    } else {
      ParseIntOfDigits(NatDigits(n));
    }
  }

  lemma ParseIntOfDigits(s: string)
    requires s != [] && AllDigits(s) && |s| <= MaxStrDigits
    ensures ParseInt(s) == Some(DigitsValue(s))
  {
    DigitIsNotSpace(s[0]);
    DigitIsNotSpace(s[|s| - 1]);
    UnpaddedIsStripped(s);
    DigitsAreGroups(s);
    assert s[0] != '-' && s[0] != '+';
  }

  lemma ParseIntOfNegativeDigits(s: string)
    requires s != [] && AllDigits(s) && |s| <= MaxStrDigits
    ensures ParseInt("-" + s) == Some(-(DigitsValue(s) as int))
  {
    DigitsAreGroups(s);
    SignedGroupsUnpadded("-", s);
    calc {
      ParseInt("-" + s);
    == { ParseIntOfUnpadded("-" + s); }
      ParseStripped("-" + s);
    == { ParseStrippedOfSignedGroups("-", s); }
      Some(NumeralValue("-", s));
    }
  }

  /** On text with no whitespace at either end, `int()` reads the text itself. */
  lemma ParseIntOfUnpadded(t: string)
    requires t != [] && !IsSpace(t[0]) && !IsSpace(t[|t| - 1])
    ensures ParseInt(t) == ParseStripped(t)
  {
    UnpaddedIsStripped(t);
  }

  lemma DigitIsNotSpace(c: char)
    requires IsDigit(c)
    ensures !IsSpace(c)
  {
  }

  /** Text with no whitespace at either end is left alone by strip(). */
  lemma UnpaddedIsStripped(s: string)
    requires s != [] && !IsSpace(s[0]) && !IsSpace(s[|s| - 1])
    ensures Strip(s) == s
  {
    assert TrimStart(s) == s;
  }

  /** A non-empty digit string is a single digit group, and has no '_' to remove. */
  lemma DigitsAreGroups(s: string)
    requires s != [] && AllDigits(s)
    ensures IsDigitGroups(s) && RemoveUnderscores(s) == s
  {
  }

  /** Any input carrying a character that is neither whitespace, a digit, a sign nor '_' is refused. */
  lemma ParseIntRejectsForeignCharacter(s: string, k: nat)
    requires k < |s|
    requires !IsSpace(s[k]) && !IsDigit(s[k]) && s[k] !in "+-_"
    ensures ParseInt(s) == None
  {
    var a := TrimStart(s);
    var t := Strip(s);
    var ka := k - (|s| - |a|);
    assert 0 <= ka < |t| && t[ka] == s[k];
    var body := if |t| > 0 && (t[0] == '-' || t[0] == '+') then t[1..] else t;
    var kb := if |t| > 0 && (t[0] == '-' || t[0] == '+') then ka - 1 else ka;
    assert 0 <= kb < |body| && body[kb] == s[k];
  }

  /** A numeral longer than the digit limit is refused, whatever its value. */
  lemma ParseIntRefusesLongNumerals(s: string)
    requires AllDigits(s) && |s| > MaxStrDigits
    ensures ParseInt(s) == None
  {
    UnpaddedIsStripped(s);
    DigitsAreGroups(s);
  }

  /** Text made only of the characters `int()` skips at the ends. */
  predicate AllSpace(w: string) {
    forall i | 0 <= i < |w| :: IsSpace(w[i])
  }

  /**
   * The shape of text `int()` accepts: whitespace, an optional sign, digit
   * groups within the digit limit, whitespace.
   */
  predicate IsNumeral(lead: string, sign: string, groups: string, trail: string) {
    && AllSpace(lead) && AllSpace(trail)
    && sign in {"", "+", "-"}
    && IsDigitGroups(groups) && |RemoveUnderscores(groups)| <= MaxStrDigits
  }

  /** The number a signed run of digit groups denotes. */
  function NumeralValue(sign: string, groups: string): int
    requires IsDigitGroups(groups)
  {
    var v: int := DigitsValue(RemoveUnderscores(groups));
    if sign == "-" then -v else v
  }

  /**
   * `int()` reads every numeral: surrounding whitespace is skipped, '+' is
   * allowed, and '_' between digits is dropped.
   */
  lemma ParseIntOfNumeral(lead: string, sign: string, groups: string, trail: string)
    requires IsNumeral(lead, sign, groups, trail)
    ensures ParseInt(lead + sign + groups + trail) == Some(NumeralValue(sign, groups))
  {
    var t := sign + groups;
    assert lead + sign + groups + trail == lead + t + trail;
    SignedGroupsUnpadded(sign, groups);
    StripOfPadded(lead, t, trail);
    ParseStrippedOfSignedGroups(sign, groups);
  }

  lemma SignedGroupsUnpadded(sign: string, groups: string)
    requires sign in {"", "+", "-"} && IsDigitGroups(groups)
    ensures var t := sign + groups; t != [] && !IsSpace(t[0]) && !IsSpace(t[|t| - 1])
  {
    var t := sign + groups;
    assert IsDigit(groups[0]) && IsDigit(groups[|groups| - 1]);
    DigitIsNotSpace(groups[0]);
    DigitIsNotSpace(groups[|groups| - 1]);
    assert t[0] == (if sign == "" then groups[0] else sign[0]);
    assert t[|t| - 1] == groups[|groups| - 1];
  }

  /** Whitespace around text with none at its ends is exactly what strip() removes. */
  lemma StripOfPadded(lead: string, t: string, trail: string)
    requires AllSpace(lead) && AllSpace(trail)
    requires t != [] && !IsSpace(t[0]) && !IsSpace(t[|t| - 1])
    ensures Strip(lead + t + trail) == t
  {
    assert lead + t + trail == lead + (t + trail);
    TrimStartSkipsSpace(lead, t + trail);
    assert (t + trail)[0] == t[0];
    assert TrimStart(t + trail) == t + trail;
    TrimEndSkipsSpace(t, trail);
  }

  lemma ParseStrippedOfSignedGroups(sign: string, groups: string)
    requires sign in {"", "+", "-"} && IsDigitGroups(groups) && |RemoveUnderscores(groups)| <= MaxStrDigits
    ensures ParseStripped(sign + groups) == Some(NumeralValue(sign, groups))
  {
    var t := sign + groups;
    var signed := |t| > 0 && (t[0] == '-' || t[0] == '+');
    assert IsDigit(groups[0]);
    assert signed <==> sign != "" by {
      if sign == "" {
        assert t[0] == groups[0];
      } else {
        assert t[0] == sign[0];
      }
    }
    assert (if signed then t[1..] else t) == groups;
    assert (|t| > 0 && t[0] == '-') <==> sign == "-";
  }

  /** Every text `int()` accepts is a numeral, read as ParseIntOfNumeral says. */
  lemma ParseIntAcceptsOnlyNumerals(s: string)
    requires ParseInt(s).Some?
    ensures exists lead, sign, groups, trail | IsNumeral(lead, sign, groups, trail) ::
      s == lead + sign + groups + trail && ParseInt(s) == Some(NumeralValue(sign, groups))
  {
    var lead, sign, groups, trail := NumeralOfAccepted(s);
  }

  lemma NumeralOfAccepted(s: string) returns (lead: string, sign: string, groups: string, trail: string)
    requires ParseInt(s).Some?
    ensures IsNumeral(lead, sign, groups, trail)
    ensures s == lead + sign + groups + trail && ParseInt(s) == Some(NumeralValue(sign, groups))
  {
    lead, trail := StripSplits(s);
    sign, groups := StrippedIsSignedGroups(Strip(s));
    Reassemble(s, lead, Strip(s), trail, sign, groups);
  }

  /** A text is its stripped form between two runs of whitespace. */
  lemma StripSplits(s: string) returns (lead: string, trail: string)
    ensures AllSpace(lead) && AllSpace(trail) && s == lead + Strip(s) + trail
  {
    var a := TrimStart(s);
    lead := TrimStartSplits(s);
    trail := TrimEndSplits(a);
    Regroup(s, lead, a, TrimEnd(a), trail);
  }

  lemma Regroup(s: string, lead: string, a: string, t: string, trail: string)
    requires s == lead + a && a == t + trail
    ensures s == lead + t + trail
  {
    assert lead + (t + trail) == lead + t + trail;
  }

  lemma TrimStartSplits(s: string) returns (lead: string)
    ensures AllSpace(lead) && s == lead + TrimStart(s)
  {
    lead := s[..|s| - |TrimStart(s)|];
  }

  lemma TrimEndSplits(s: string) returns (trail: string)
    ensures AllSpace(trail) && s == TrimEnd(s) + trail
  {
    trail := s[|TrimEnd(s)|..];
  }

  lemma Reassemble(s: string, lead: string, t: string, trail: string, sign: string, groups: string)
    requires s == lead + t + trail && t == sign + groups
    ensures s == lead + sign + groups + trail
  {
    assert lead + (sign + groups + trail) == lead + sign + groups + trail;
  }

  /** What ParseStripped accepts is an optional sign followed by digit groups, read as such. */
  lemma StrippedIsSignedGroups(t: string) returns (sign: string, groups: string)
    requires ParseStripped(t).Some?
    ensures t == sign + groups && sign in {"", "+", "-"}
    ensures IsDigitGroups(groups) && |RemoveUnderscores(groups)| <= MaxStrDigits
    ensures ParseStripped(t) == Some(NumeralValue(sign, groups))
  {
    var signed := t[0] == '-' || t[0] == '+';
    groups := if signed then t[1..] else t;
    sign := if t[0] == '-' then "-" else if t[0] == '+' then "+" else "";
    assert t == sign + groups;
    ParseStrippedOfSignedGroups(sign, groups);
  }

  /** A run of whitespace in front of the text is what TrimStart drops. */
  lemma {:induction false} TrimStartSkipsSpace(lead: string, rest: string)
    requires AllSpace(lead)
    ensures TrimStart(lead + rest) == TrimStart(rest)
  {
    if lead == [] {
      assert lead + rest == rest;
    } else {
      assert (lead + rest)[0] == lead[0];
      assert (lead + rest)[1..] == lead[1..] + rest;
      TrimStartSkipsSpace(lead[1..], rest);
    }
  }

  /** A run of whitespace after the text is what TrimEnd drops. */
  lemma {:induction false} TrimEndSkipsSpace(body: string, trail: string)
    requires body != [] && !IsSpace(body[|body| - 1]) && AllSpace(trail)
    ensures TrimEnd(body + trail) == body
  {
    if trail == [] {
      assert body + trail == body;
    } else {
      var shorter := trail[..|trail| - 1];
      assert (body + trail)[|body + trail| - 1] == trail[|trail| - 1];
      assert (body + trail)[..|body + trail| - 1] == body + shorter;
      TrimEndSkipsSpace(body, shorter);
    }
  }

  /** `int("1_000") == 1000`: a '_' between digits is dropped. */
  lemma ParseIntOfGroupedThousands(s: string)
    requires s == "1_000"
    ensures ParseInt(s) == Some(1000)
  {
    GroupedThousands(s);
    ThousandValue();
    assert s[0] == '1';
  }

  lemma GroupedThousands(s: string)
    requires s == "1_000"
    ensures Strip(s) == s && IsDigitGroups(s) && RemoveUnderscores(s) == "1000"
  {
    assert s[0] == '1' && s[|s| - 1] == '0';
    UnpaddedIsStripped(s);
    ThousandGroups(s);
    ThousandWithoutSeparator(s, "000");
  }

  lemma ThousandGroups(s: string)
    requires s == "1_000"
    ensures IsDigitGroups(s)
  {
    forall i | 0 <= i < |s|
      ensures IsDigit(s[i]) || (s[i] == '_' && 0 < i < |s| - 1 && IsDigit(s[i - 1]) && IsDigit(s[i + 1]))
    {
      if i == 1 {
        assert s[0] == '1' && s[2] == '0';
      }
    }
  }

  lemma ThousandWithoutSeparator(s: string, tail: string)
    requires s == "1_000" && tail == "000"
    ensures RemoveUnderscores(s) == "1000"
  {
    assert s[1..][1..] == tail && AllDigits(tail);
    assert RemoveUnderscores(s[1..]) == tail;
  }

  lemma ThousandValue()
    ensures DigitsValue("1000") == 1000
  {
    assert "1000"[..3] == "100" && "100"[..2] == "10" && "10"[..1] == "1";
  }

  /** The separator U+001C is not whitespace to `int()`: `int("\x1c3")` raises. */
  lemma ParseIntRefusesFileSeparator()
    ensures ParseInt([0x1C as char, '3']) == None
  {
    ParseIntRejectsForeignCharacter([0x1C as char, '3'], 0);
  }

  /** A parsed number had at least one digit in its text. */
  lemma ParseIntNeedsDigit(s: string)
    requires ParseInt(s).Some?
    ensures exists i | 0 <= i < |s| :: IsDigit(s[i])
  {
    var a := TrimStart(s);
    var t := Strip(s);
    var body := if |t| > 0 && (t[0] == '-' || t[0] == '+') then t[1..] else t;
    var off := if |t| > 0 && (t[0] == '-' || t[0] == '+') then 1 else 0;
    assert IsDigit(body[0]);
    assert s[|s| - |a| + off] == body[0];
  }

  // -----------------------------------------------------------------------
  // The handler's coercion of an optional numeric form field.

  /** What `int(x) if x else None` yields: null, a number, or a raised ValueError. */
  datatype Coerced = Null | Number(value: int) | NotANumber

  function CoerceOptionalInt(field: Option<string>): (r: Coerced)
    ensures r.Null? <==> field == None || field == Some("")
    ensures r.Number? ==> field.Some? && ParseInt(field.value) == Some(r.value)
    ensures r.NotANumber? <==> field.Some? && field.value != "" && ParseInt(field.value) == None
  {
    match field
    case None => Null
    case Some(text) =>
      if text == "" then Null
      else
        match ParseInt(text)
        case Some(n) => Number(n)
        case None => NotANumber
  }

  /** Every int's decimal text within the digit limit is accepted, with no range restriction. */
  lemma CoerceAcceptsEveryDecimal(n: int)
    requires DigitCount(n) <= MaxStrDigits
    ensures CoerceOptionalInt(Some(Decimal(n))) == Number(n)
  {
    ParseIntOfDecimal(n);
  }

  lemma CoerceZeroIsNotNull()
    ensures CoerceOptionalInt(Some("0")) == Number(0)
  {
    CoerceAcceptsEveryDecimal(0);
    assert Decimal(0) == "0";
  }

  /** Text with a letter or other foreign character makes the coercion raise. */
  lemma CoerceRejectsForeignCharacter(text: string, k: nat)
    requires k < |text|
    requires !IsSpace(text[k]) && !IsDigit(text[k]) && text[k] !in "+-_"
    ensures CoerceOptionalInt(Some(text)) == NotANumber
  {
    ParseIntRejectsForeignCharacter(text, k);
  }
}
