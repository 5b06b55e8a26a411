/** Properties of the configuration parsers and of provider resolution. */
module HealthProperties {
  import opened Wrappers
  import opened JsString
  import opened JsNumbers
  import opened Health

  // ---------------------------------------------------------------------------
  // Port lists

  /** Trimming before the conversion changes nothing: a segment converts as `Number` converts it. */
  lemma SegmentNumberIsNumber(segment: string)
    ensures SegmentNumber(segment) == Number(segment)
  {
    NumberIgnoresTrim(segment);
  }

  /** The segments convert one by one, in order, each as `Number` converts it. */
  lemma SegmentNumbersConvert(segments: seq<string>)
    ensures |SegmentNumbers(segments)| == |segments|
    ensures forall i :: 0 <= i < |segments| ==> SegmentNumbers(segments)[i] == Number(segments[i])
  {
    forall i | 0 <= i < |segments| ensures SegmentNumbers(segments)[i] == Number(segments[i]) {
      SegmentNumberIsNumber(segments[i]);
    }
  }

  /** The filter works number by number: filtering a concatenation concatenates the filtered parts. */
  lemma {:induction false} FiniteValuesAppend(a: seq<JsNum>, b: seq<JsNum>)
    ensures FiniteValues(a + b) == FiniteValues(a) + FiniteValues(b)
  {
    if a == [] {
      assert a + b == b;
    } else {
      assert (a + b)[0] == a[0];
      assert (a + b)[1..] == a[1..] + b;
      FiniteValuesAppend(a[1..], b);
    }
  }

  /** Positions, counted from `base`, of the finite numbers, front to back. */
  function FinitePositions(nums: seq<JsNum>, base: nat): seq<nat> {
    if nums == [] then []
    else (if nums[0].Finite? then [base] else []) + FinitePositions(nums[1..], base + 1)
  }

  /** Positions of the finite numbers of `nums`. */
  function FiniteIndices(nums: seq<JsNum>): seq<nat> {
    FinitePositions(nums, 0)
  }

  /** The filter keeps one value per finite position. */
  lemma {:induction false} FinitePositionsCount(nums: seq<JsNum>, base: nat)
    ensures |FinitePositions(nums, base)| == |FiniteValues(nums)|
  {
    if nums != [] {
      FinitePositionsCount(nums[1..], base + 1);
    }
  }

  /**
   * The k-th finite position lies inside `nums` and holds the number whose
   * value the filter keeps k-th.
   */
  lemma {:induction false} FiniteValueAt(nums: seq<JsNum>, base: nat, k: nat)
    requires k < |FiniteValues(nums)| && k < |FinitePositions(nums, base)|
    ensures base <= FinitePositions(nums, base)[k] < base + |nums|
    ensures nums[FinitePositions(nums, base)[k] - base] == Finite(FiniteValues(nums)[k])
  {
    assert nums != [];
    var tail := nums[1..];
    var rest, restVs := FinitePositions(tail, base + 1), FiniteValues(tail);
    var idx, vs := FinitePositions(nums, base), FiniteValues(nums);
    var h := if nums[0].Finite? then 1 else 0;
    assert vs == (if nums[0].Finite? then [nums[0].value] else []) + restVs;
    assert idx == (if nums[0].Finite? then [base] else []) + rest;
    if k < h {
      assert vs[k] == nums[0].value && idx[k] == base;
    } else {
      FiniteValueAt(tail, base + 1, k - h);
      assert vs[k] == restVs[k - h] && idx[k] == rest[k - h];
      assert tail[rest[k - h] - (base + 1)] == nums[idx[k] - base];
    }
  }

  /** The positions increase. */
  lemma {:induction false} FinitePositionsIncrease(nums: seq<JsNum>, base: nat, k: nat, l: nat)
    requires k < l < |FinitePositions(nums, base)|
    ensures FinitePositions(nums, base)[k] < FinitePositions(nums, base)[l]
  {
    assert nums != [];
    var tail := nums[1..];
    var rest, idx := FinitePositions(tail, base + 1), FinitePositions(nums, base);
    var h := if nums[0].Finite? then 1 else 0;
    assert idx == (if nums[0].Finite? then [base] else []) + rest;
    FinitePositionsCount(tail, base + 1);
    FiniteValueAt(tail, base + 1, l - h);
    if k >= h {
      FinitePositionsIncrease(tail, base + 1, k - h, l - h);
    }
  }

  /** Every finite number's position is listed. */
  lemma {:induction false} FinitePositionListed(nums: seq<JsNum>, base: nat, i: nat)
    requires i < |nums| && nums[i].Finite?
    ensures base + i in FinitePositions(nums, base)
    decreases i
  {
    var idx := FinitePositions(nums, base);
    if i == 0 {
      assert idx[0] == base;
    } else {
      assert nums[1..][i - 1] == nums[i];
      FinitePositionListed(nums[1..], base + 1, i - 1);
      assert idx == (if nums[0].Finite? then [base] else []) + FinitePositions(nums[1..], base + 1);
    }
  }

  /** One value per finite number, and the k-th value is that of the k-th finite number. */
  lemma FiniteValuesKept(nums: seq<JsNum>)
    ensures |FiniteIndices(nums)| == |FiniteValues(nums)|
    ensures forall k :: 0 <= k < |FiniteValues(nums)| ==>
      FiniteIndices(nums)[k] < |nums| && nums[FiniteIndices(nums)[k]] == Finite(FiniteValues(nums)[k])
  {
    FinitePositionsCount(nums, 0);
    forall k | 0 <= k < |FiniteValues(nums)|
      ensures FiniteIndices(nums)[k] < |nums| && nums[FiniteIndices(nums)[k]] == Finite(FiniteValues(nums)[k])
    {
      FiniteValueAt(nums, 0, k);
    }
  }

  /** The finite positions increase. */
  lemma FiniteIndicesIncrease(nums: seq<JsNum>)
    ensures forall k, l :: 0 <= k < l < |FiniteIndices(nums)| ==> FiniteIndices(nums)[k] < FiniteIndices(nums)[l]
  {
    forall k, l | 0 <= k < l < |FiniteIndices(nums)| ensures FiniteIndices(nums)[k] < FiniteIndices(nums)[l] {
      FinitePositionsIncrease(nums, 0, k, l);
    }
  }

  /** Every finite number's position is among the finite positions. */
  lemma FiniteIndicesComplete(nums: seq<JsNum>)
    ensures forall i :: 0 <= i < |nums| && nums[i].Finite? ==> i in FiniteIndices(nums)
  {
    forall i | 0 <= i < |nums| && nums[i].Finite? ensures i in FiniteIndices(nums) {
      FinitePositionListed(nums, 0, i);
    }
  }

  /**
   * `parsePorts` keeps, in order, the trimmed comma-separated segments whose
   * conversion is finite: with `nums` the segments' conversions, there is one
   * port per finite conversion, the k-th port is the value of the k-th finite
   * conversion, those positions increase, and every finite conversion's
   * position is among them.
   */
  lemma ParsePortsSubsequence(s: string, nums: seq<JsNum>, ports: seq<real>)
    requires nums == SegmentNumbers(Split(s, ',')) && ports == PortValues(s)
    ensures |FiniteIndices(nums)| == |ports|
    ensures forall k :: 0 <= k < |ports| ==>
      FiniteIndices(nums)[k] < |nums| && nums[FiniteIndices(nums)[k]] == Finite(ports[k])
    ensures forall k, l :: 0 <= k < l < |ports| ==> FiniteIndices(nums)[k] < FiniteIndices(nums)[l]
    ensures forall i :: 0 <= i < |nums| && nums[i].Finite? ==> i in FiniteIndices(nums)
  {
    assert ports == FiniteValues(nums);
    FiniteValuesKept(nums);
    FiniteIndicesIncrease(nums);
    FiniteIndicesComplete(nums);
  }

  /** Text without a comma is one segment: its ports are its own conversion when that is finite, else none. */
  lemma SingleSegmentPorts(s: string)
    requires ',' !in s
    ensures PortValues(s) == if Number(s).Finite? then [Number(s).value] else []
  {
    SplitWhole(s, ',');
    SegmentNumberIsNumber(s);
    assert SegmentNumbers([s]) == [Number(s)];
    assert [Number(s)][1..] == [];
  }

  /** At most one port more than there are commas. */
  lemma {:induction false} ParsePortsBound(s: string)
    requires ParsePorts(Some(s)).Some?
    ensures |ParsePorts(Some(s)).value| <= multiset(s)[','] + 1
  {
    SplitCount(s, ',');
  }

  /** How a list of ports is written in the environment: decimal numerals joined by commas. */
  function FormatPorts(ports: seq<nat>): string
    requires |ports| >= 1
  {
    Join(Numerals(ports), ',')
  }

  function Numerals(ports: seq<nat>): seq<string> {
    seq(|ports|, i requires 0 <= i < |ports| => NatToDecimal(ports[i]))
  }

  /** Ports as the numbers JavaScript holds them as. */
  function AsReals(ports: seq<nat>): seq<real> {
    seq(|ports|, i requires 0 <= i < |ports| => ports[i] as real)
  }

  function Finites(xs: seq<real>): seq<JsNum> {
    seq(|xs|, i requires 0 <= i < |xs| => Finite(xs[i]))
  }

  /** Each numeral converts back, as a segment, to the number it was written from. */
  lemma {:induction false} SegmentNumbersOfNumerals(ports: seq<nat>)
    requires forall i :: 0 <= i < |ports| ==> ports[i] <= ExactIntegerLimit
    ensures SegmentNumbers(Numerals(ports)) == Finites(AsReals(ports))
  {
    var numerals, nums := Numerals(ports), SegmentNumbers(Numerals(ports));
    forall i | 0 <= i < |ports| ensures nums[i] == Finites(AsReals(ports))[i] {
      assert numerals[i] == NatToDecimal(ports[i]);
      NumeralSegmentNumber(ports[i]);
    }
  }

  /** One numeral, as a segment, converts to its integer. */
  lemma NumeralSegmentNumber(n: nat)
    requires n <= ExactIntegerLimit
    ensures SegmentNumber(NatToDecimal(n)) == Finite(n as real)
  {
    NumberOfDecimal(n);
    SegmentNumberIsNumber(NatToDecimal(n));
  }

  /** The values of a list of finite numbers are the list itself. */
  lemma {:induction false} FiniteValuesOfFinite(xs: seq<real>)
    ensures FiniteValues(Finites(xs)) == xs
  {
    if xs != [] {
      assert Finites(xs)[1..] == Finites(xs[1..]);
      FiniteValuesOfFinite(xs[1..]);
      assert xs == [xs[0]] + xs[1..];
    }
  }

  /** The comma-separated numerals split back into the numerals. */
  lemma {:induction false} SplitFormatPorts(ports: seq<nat>)
    requires |ports| >= 1
    ensures Split(FormatPorts(ports), ',') == Numerals(ports)
    ensures FormatPorts(ports) != []
  {
    var numerals := Numerals(ports);
    forall i | 0 <= i < |numerals| ensures ',' !in numerals[i] {
      var d := numerals[i];
      forall j | 0 <= j < |d| ensures d[j] != ',' {
        assert DigitValue(d[j]) < 10;
      }
    }
    SplitUnique(FormatPorts(ports), ',', numerals);
    assert |FormatPorts(ports)| >= |numerals[0]| > 0;
  }

  /** Writing a non-empty list of integer ports no larger than 2^53 and parsing it gives the list back. */
  lemma {:induction false} ParsePortsRoundTrip(ports: seq<nat>)
    requires |ports| >= 1
    requires forall i :: 0 <= i < |ports| ==> ports[i] <= ExactIntegerLimit
    ensures ParsePorts(Some(FormatPorts(ports))) == Some(AsReals(ports))
  {
    var text := FormatPorts(ports);
    SplitFormatPorts(ports);
    SegmentNumbersOfNumerals(ports);
    FiniteValuesOfFinite(AsReals(ports));
    assert PortValues(text) == AsReals(ports);
  }

  // ---------------------------------------------------------------------------
  // Configuration and provider resolution

  /** The configuration reads the sandbox keys and nothing else. */
  lemma ParseEnvConfigReadsConfigKeys(env1: Env, env2: Env)
    requires forall k :: k in ConfigKeys ==> Lookup(env1, k) == Lookup(env2, k)
    ensures ParseEnvConfig(env1) == ParseEnvConfig(env2)
  {
    assert ProviderKey in ConfigKeys && RuntimeKey in ConfigKeys && TimeoutKey in ConfigKeys;
    assert CpuKey in ConfigKeys && PortsKey in ConfigKeys && SandboxIdKey in ConfigKeys;
    assert SleepAfterKey in ConfigKeys && KeepAliveKey in ConfigKeys && NormalizeIdKey in ConfigKeys;
  }

  /**
   * An override value that names no provider is ignored: the endpoint answers
   * as if the variable were not set at all.
   */
  lemma UnknownOverrideIgnored(env: Env, detection: Detection, ctx: EventContext)
    requires ParseProvider(Lookup(env, ProviderKey)).None?
    ensures HandlerProvider(env, detection, ctx) == HandlerProvider(env - {ProviderKey}, detection, ctx)
  {
    assert Lookup(env - {ProviderKey}, ProviderKey) == None;
  }

  /** A usable override decides the provider whatever the detection and the request say. */
  lemma OverrideDecides(env: Env, d1: Detection, d2: Detection, c1: EventContext, c2: EventContext)
    requires ParseProvider(Lookup(env, ProviderKey)).Some?
    ensures HandlerProvider(env, d1, c1) == HandlerProvider(env, d2, c2) == ParseProvider(Lookup(env, ProviderKey)).value
  {
  }

  /** Without an override, the request hint beats the detection. */
  lemma HintBeatsDetection(config: ResolvedEnvConfig, d1: Detection, d2: Detection, hint: Provider)
    requires config.provider.None?
    ensures ResolveProvider(config, d1, Some(hint)) == ResolveProvider(config, d2, Some(hint)) == hint
  {
  }

  /** With neither an override nor a hint, anything but a Cloudflare detection yields Vercel. */
  lemma DefaultIsVercel(config: ResolvedEnvConfig, detection: Detection)
    requires config.provider.None? && detection.kind != DetectedCloudflare
    ensures ResolveProvider(config, detection, None) == Vercel
  {
  }
}
