/** Worked inputs for the parsers and for provider resolution. */
module HealthExamples {
  import opened Wrappers
  import opened JsString
  import opened JsNumbers
  import opened Health

  /** A segment holding a numeral, possibly after leading spaces, converts to the numeral's value. */
  lemma NumeralSegment(segment: string, spaces: nat, n: nat)
    requires n < 1000000 && spaces <= |segment|
    requires forall i :: 0 <= i < spaces ==> segment[i] == ' '
    requires segment[spaces..] == NatToDecimal(n)
    ensures SegmentNumber(segment) == Finite(n as real)
    decreases spaces
  {
    if spaces == 0 {
      NumberOfDecimal(n);
      NumberIgnoresTrim(NatToDecimal(n));
    } else {
      TrimDropsLeadingSpace(segment);
      assert segment[1..][spaces - 1..] == segment[spaces..];
      NumeralSegment(segment[1..], spaces - 1, n);
    }
  }

  /** A segment that is a word, possibly after leading spaces, is not a number. */
  lemma WordSegment(segment: string, spaces: nat)
    requires spaces < |segment|
    requires forall i :: 0 <= i < spaces ==> segment[i] == ' '
    requires forall i :: spaces <= i < |segment| ==> 'a' <= segment[i] <= 'z'
    requires segment[spaces..] != "Infinity"
    ensures SegmentNumber(segment) == NaN
    decreases spaces
  {
    if spaces == 0 {
      TrimUnchanged(segment);
      NumberOfNonNumeric(segment);
    } else {
      TrimDropsLeadingSpace(segment);
      assert segment[1..][spaces - 1..] == segment[spaces..];
      WordSegment(segment[1..], spaces - 1);
    }
  }

  /** Text with two commas splits into the three runs between them. */
  lemma SplitThree(s: string, a: string, b: string, c: string)
    requires ',' !in a && ',' !in b && ',' !in c
    requires s == a + [','] + b + [','] + c
    ensures Split(s, ',') == [a, b, c]
  {
    var t := b + [','] + c;
    SplitWhole(c, ',');
    SplitAfterPart(b, ',', c);
    assert s == a + [','] + t;
    SplitAfterPart(a, ',', t);
    assert [a] + [b, c] == [a, b, c];
  }

  /** Three segments convert one by one. */
  lemma SegmentNumbersOfThree(a: string, b: string, c: string)
    ensures SegmentNumbers([a, b, c]) == [SegmentNumber(a), SegmentNumber(b), SegmentNumber(c)]
  {
    var segments := [a, b, c];
    assert segments[1..] == [b, c] && segments[1..][1..] == [c] && segments[1..][1..][1..] == [];
  }

  /** The filter on three numbers keeps the finite ones in order. */
  lemma FiniteValuesOfThree(x: JsNum, y: JsNum, z: JsNum)
    ensures FiniteValues([x, y, z])
         == (if x.Finite? then [x.value] else []) + (if y.Finite? then [y.value] else []) + (if z.Finite? then [z.value] else [])
  {
    var nums := [x, y, z];
    assert nums[1..] == [y, z] && nums[1..][1..] == [z] && nums[1..][1..][1..] == [];
    assert FiniteValues([z]) == (if z.Finite? then [z.value] else []) + FiniteValues([]);
    assert FiniteValues([y, z]) == (if y.Finite? then [y.value] else []) + FiniteValues([z]);
    assert FiniteValues(nums) == (if x.Finite? then [x.value] else []) + FiniteValues([y, z]);
  }

  // Single segments of the worked lists.

  lemma Segment80(a: string)
    requires a == "80"
    ensures SegmentNumber(a) == Finite(80.0)
  {
    assert NatToDecimal(80) == "80";
    NumeralSegment(a, 0, 80);
  }

  lemma Segment443(b: string)
    requires b == "443"
    ensures SegmentNumber(b) == Finite(443.0)
  {
    assert NatToDecimal(443) == "443";
    NumeralSegment(b, 0, 443);
  }

  lemma SegmentSpace443(b: string)
    requires b == " 443"
    ensures SegmentNumber(b) == Finite(443.0)
  {
    assert NatToDecimal(443) == "443";
    NumeralSegment(b, 1, 443);
  }

  lemma Segment12(a: string)
    requires a == "12"
    ensures SegmentNumber(a) == Finite(12.0)
  {
    assert NatToDecimal(12) == "12";
    NumeralSegment(a, 0, 12);
  }

  lemma Segment7(c: string)
    requires c == "7"
    ensures SegmentNumber(c) == Finite(7.0)
  {
    assert NatToDecimal(7) == "7";
    NumeralSegment(c, 0, 7);
  }

  lemma SegmentAbc(w: string)
    requires w == "abc"
    ensures SegmentNumber(w) == NaN
  {
    WordSegment(w, 0);
  }

  lemma SegmentSpaceAbc(w: string)
    requires w == " abc"
    ensures SegmentNumber(w) == NaN
  {
    WordSegment(w, 1);
  }

  lemma SegmentX(w: string)
    requires w == "x"
    ensures SegmentNumber(w) == NaN
  {
    WordSegment(w, 0);
  }

  /** `"80, 443, abc"` lists the ports 80 and 443; the word is dropped. */
  lemma WordListSplit(s: string)
    requires s == "80, 443, abc"
    ensures Split(s, ',') == ["80", " 443", " abc"]
  {
    SplitThree(s, "80", " 443", " abc");
  }

  lemma PortsWithWord(s: string)
    requires s == "80, 443, abc"
    ensures ParsePorts(Some(s)) == Some([80.0, 443.0])
  {
    WordListSplit(s);
    WordListNumbers();
    WordListPorts();
  }

  lemma WordListPorts()
    ensures FiniteValues([Finite(80.0), Finite(443.0), NaN]) == [80.0, 443.0]
  {
    FiniteValuesOfThree(Finite(80.0), Finite(443.0), NaN);
  }

  lemma WordListNumbers()
    ensures SegmentNumbers(["80", " 443", " abc"]) == [Finite(80.0), Finite(443.0), NaN]
  {
    SegmentNumbersOfThree("80", " 443", " abc");
    Segment80("80");
    SegmentSpace443(" 443");
    SegmentSpaceAbc(" abc");
  }

  /** `"12,x,7"` lists 12 and 7. */
  lemma LetterListSplit(s: string)
    requires s == "12,x,7"
    ensures Split(s, ',') == ["12", "x", "7"]
  {
    SplitThree(s, "12", "x", "7");
  }

  lemma PortsWithLetter(s: string)
    requires s == "12,x,7"
    ensures ParsePorts(Some(s)) == Some([12.0, 7.0])
  {
    LetterListSplit(s);
    LetterListNumbers();
    LetterListPorts();
  }

  lemma LetterListPorts()
    ensures FiniteValues([Finite(12.0), NaN, Finite(7.0)]) == [12.0, 7.0]
  {
    FiniteValuesOfThree(Finite(12.0), NaN, Finite(7.0));
  }

  lemma LetterListNumbers()
    ensures SegmentNumbers(["12", "x", "7"]) == [Finite(12.0), NaN, Finite(7.0)]
  {
    SegmentNumbersOfThree("12", "x", "7");
    Segment12("12");
    SegmentX("x");
    Segment7("7");
  }

  /** An empty segment converts to 0, so `"80,,443"` lists 80, 0 and 443. */
  lemma EmptySegmentListSplit(s: string)
    requires s == "80,,443"
    ensures Split(s, ',') == ["80", "", "443"]
  {
    SplitThree(s, "80", "", "443");
  }

  lemma PortsWithEmptySegment(s: string)
    requires s == "80,,443"
    ensures ParsePorts(Some(s)) == Some([80.0, 0.0, 443.0])
  {
    EmptySegmentListSplit(s);
    EmptySegmentListNumbers();
    EmptySegmentListPorts();
  }

  lemma EmptySegmentListPorts()
    ensures FiniteValues([Finite(80.0), Finite(0.0), Finite(443.0)]) == [80.0, 0.0, 443.0]
  {
    FiniteValuesOfThree(Finite(80.0), Finite(0.0), Finite(443.0));
  }

  lemma EmptySegmentListNumbers()
    ensures SegmentNumbers(["80", "", "443"]) == [Finite(80.0), Finite(0.0), Finite(443.0)]
  {
    SegmentNumbersOfThree("80", "", "443");
    Segment80("80");
    Segment443("443");
  }

  /** A list with no number in it is absent. */
  lemma PortsWithoutNumber(s: string)
    requires s == "abc"
    ensures ParsePorts(Some(s)) == None
  {
    SplitWhole(s, ',');
    SegmentAbc(s);
  }

  /** Only the exact lower-case spellings and the digits count; other casings and words are absent. */
  lemma BooleanSpellings()
    ensures ParseBoolean(Some("1")) == Some(true) && ParseBoolean(Some("0")) == Some(false)
    ensures ParseBoolean(Some("TRUE")) == None && ParseBoolean(Some("False")) == None
    ensures ParseBoolean(Some("yes")) == None && ParseBoolean(Some("")) == None && ParseBoolean(None) == None
  {
  }

  /** A word is not a number. */
  lemma NumberOfWord(s: string)
    requires s == "abc"
    ensures ParseNumber(Some(s)) == None
  {
    WordTrimmed(s);
    NonNumericLiteral(s);
  }

  lemma WordTrimmed(s: string)
    requires s == "abc"
    ensures Trim(s) == s
  {
    TrimUnchanged(s);
  }

  /** `Infinity` converts, but is not finite, so it is absent. */
  lemma NumberOfInfinity(s: string)
    requires s == "Infinity"
    ensures ParseNumber(Some(s)) == None
  {
    TrimUnchanged(s);
    InfinityLiteral(s);
  }

  lemma InfinityLiteral(t: string)
    requires t == "Infinity"
    ensures NumericLiteral(t) == PositiveInfinity
  {
  }

  /** Text of spaces only is the number 0. */
  lemma NumberOfSpaces(s: string)
    requires s == "  "
    ensures ParseNumber(Some(s)) == Some(0.0)
  {
    TrimDropsLeadingSpace(s);
    assert s[1..] == " ";
    TrimDropsLeadingSpace(s[1..]);
    assert s[1..][1..] == "";
  }

  /** A plain numeral is its value. */
  lemma NumberOfNumeral(s: string)
    requires s == "30000"
    ensures ParseNumber(Some(s)) == Some(30000.0)
  {
    Numeral30000(s);
  }

  lemma Numeral30000(s: string)
    requires s == "30000"
    ensures Number(s) == Finite(30000.0)
  {
    Decimal30000(s);
    NumberOfDecimal(30000);
  }

  lemma Decimal30000(s: string)
    requires s == "30000"
    ensures NatToDecimal(30000) == s
  {
  }

  /** The provider override ignores case but must spell a provider. */
  lemma ProviderSpellings()
    ensures ParseProvider(Some("VERCEL")) == Some(Vercel)
    ensures ParseProvider(Some("CloudFlare")) == Some(Cloudflare)
    ensures ParseProvider(Some("aws")) == None
    ensures ParseProvider(Some("")) == None
  {
    assert EqualsIgnoreAsciiCase("VERCEL", "vercel");
    assert EqualsIgnoreAsciiCase("CloudFlare", "cloudflare");
  }

  /** An environment that only lists ports resolves to those ports and nothing else. */
  lemma OnlyPortsConfig(env: Env)
    requires env == map[PortsKey := "80, 443, abc"]
    ensures ParseEnvConfig(env) == ResolvedEnvConfig(None, None, None, None, Some([80.0, 443.0]), None, None)
    ensures HandlerProvider(env, Detection(DetectedUnknown), EventContext(None)) == Vercel
  {
    PortsWithWord(env[PortsKey]);
  }

  /** A numeric sleep setting is kept as a number. */
  lemma SleepAfterNumber(s: string)
    requires s == "300"
    ensures ParseCloudflare(map[SleepAfterKey := s]) == Some(CloudflareConfig(Some(Num(300.0)), None, None))
  {
    assert NatToDecimal(300) == "300";
    NumberOfDecimal(300);
  }

  /** A sleep setting with a unit is not a number and is kept as written. */
  lemma SleepAfterText(s: string)
    requires s == "5m"
    ensures ParseCloudflare(map[SleepAfterKey := s]) == Some(CloudflareConfig(Some(Str(s)), None, None))
  {
    UnitTrimmed(s);
    NumberWithUnit(s);
  }

  /** Unsigned decimal text without an exponent whose mantissa is malformed is not a number. */
  lemma NoMantissaIsNaN(t: string)
    requires t != [] && t[0] != '0' && t[0] != '+' && t[0] != '-' && t != "Infinity"
    requires FirstIndexIn(t, {'e', 'E'}) == None && MantissaParts(t) == None
    ensures NumericLiteral(t) == NaN
  {
  }

  /** `"5m"` is no numeric literal. */
  lemma NumberWithUnit(s: string)
    requires |s| == 2 && s[0] == '5' && s[1] == 'm'
    ensures NumericLiteral(s) == NaN
  {
    UnitHasNoExponent(s);
    UnitIsNoMantissa(s);
    NoMantissaIsNaN(s);
  }

  lemma UnitTrimmed(s: string)
    requires |s| == 2 && s[0] == '5' && s[1] == 'm'
    ensures Trim(s) == s
  {
    TrimUnchanged(s);
  }

  lemma UnitHasNoExponent(s: string)
    requires |s| == 2 && s[0] == '5' && s[1] == 'm'
    ensures FirstIndexIn(s, {'e', 'E'}) == None
  {
    assert s[0] !in {'e', 'E'} && s[1] !in {'e', 'E'};
  }

  lemma UnitIsNoMantissa(s: string)
    requires |s| == 2 && s[0] == '5' && s[1] == 'm'
    ensures MantissaParts(s) == None
  {
    assert !AllDigits(s, 10) by {
      assert DigitValue(s[1]) >= 10;
    }
    assert FirstIndexIn(s, {'.'}) == None by {
      assert s[0] !in {'.'} && s[1] !in {'.'};
    }
  }

  /** A flag that does not parse does not create the Cloudflare block. */
  lemma KeepAliveUnparsed(s: string)
    requires s == "yes"
    ensures ParseCloudflare(map[KeepAliveKey := s]) == None
  {
  }

  /** A flag set to `false` does create it. */
  lemma KeepAliveFalse(s: string)
    requires s == "false"
    ensures ParseCloudflare(map[KeepAliveKey := s]) == Some(CloudflareConfig(None, Some(false), None))
  {
  }
}
