/**
 * Configuration resolution of the sandbox health endpoint: typed parsing of
 * the `NUXT_HUB_SANDBOX_*` environment variables into a `ResolvedEnvConfig`,
 * the provider hint read from the request, and the precedence that picks the
 * provider. The environment is a map passed in explicitly; a missing key is
 * JavaScript's `undefined`.
 */
module Health {
  import opened Wrappers
  import opened JsString
  import opened JsNumbers

  type Env = map<string, string>

  const ProviderKey := "NUXT_HUB_SANDBOX_PROVIDER"
  const RuntimeKey := "NUXT_HUB_SANDBOX_RUNTIME"
  const TimeoutKey := "NUXT_HUB_SANDBOX_TIMEOUT"
  const CpuKey := "NUXT_HUB_SANDBOX_CPU"
  const PortsKey := "NUXT_HUB_SANDBOX_PORTS"
  const SandboxIdKey := "NUXT_HUB_SANDBOX_ID"
  const SleepAfterKey := "NUXT_HUB_SANDBOX_CF_SLEEP_AFTER"
  const KeepAliveKey := "NUXT_HUB_SANDBOX_CF_KEEP_ALIVE"
  const NormalizeIdKey := "NUXT_HUB_SANDBOX_CF_NORMALIZE_ID"

  /** Every key the configuration is read from. */
  const ConfigKeys: set<string> :=
    {ProviderKey, RuntimeKey, TimeoutKey, CpuKey, PortsKey, SandboxIdKey,
     SleepAfterKey, KeepAliveKey, NormalizeIdKey}

  /** `process.env[key]`. */
  function Lookup(env: Env, key: string): (v: Option<string>)
    ensures v.Some? <==> key in env
    ensures v.Some? ==> v.value == env[key]
  {
    if key in env then Some(env[key]) else None
  }

  /** An environment value as a JavaScript value: a missing one is `undefined`. */
  function AsJsValue(v: Option<string>): JsValue {
    match v
    case None => Undefined
    case Some(s) => StringValue(s)
  }

  /** `!!value` for an environment value: it is defined and non-empty. */
  predicate IsSet(v: Option<string>)
    ensures IsSet(v) <==> IsTruthy(AsJsValue(v))
  {
    v.Some? && v.value != ""
  }

  datatype Provider = Vercel | Cloudflare

  /** How `sleepAfter` is kept: as a number when it converts to a finite one, otherwise as written. */
  datatype SleepAfter = Num(n: real) | Str(s: string)

  datatype CloudflareConfig = CloudflareConfig(
    sleepAfter: Option<SleepAfter>,
    keepAlive: Option<bool>,
    normalizeId: Option<bool>)

  datatype ResolvedEnvConfig = ResolvedEnvConfig(
    provider: Option<Provider>,
    runtime: Option<string>,
    timeout: Option<real>,
    cpu: Option<real>,
    ports: Option<seq<real>>,
    sandboxId: Option<string>,
    cloudflare: Option<CloudflareConfig>)

  /** What sandbox detection reports; `DetectedUnknown` is a valid answer. */
  datatype DetectedKind = DetectedVercel | DetectedCloudflare | DetectedUnknown
  datatype Detection = Detection(kind: DetectedKind)

  // ---------------------------------------------------------------------------
  // Typed environment values

  /** `parseBoolean`: exactly `"true"`/`"1"` are true and `"false"`/`"0"` false; everything else is absent. */
  function ParseBoolean(v: Option<string>): (r: Option<bool>)
    ensures r == Some(true) <==> v == Some("true") || v == Some("1")
    ensures r == Some(false) <==> v == Some("false") || v == Some("0")
    ensures r.None? <==> !(v.Some? && v.value in {"true", "1", "false", "0"})
  {
    if !IsSet(v) then None
    else if v.value == "true" || v.value == "1" then Some(true)
    else if v.value == "false" || v.value == "0" then Some(false)
    else None
  }

  /**
   * `parseNumber`: absent for an undefined or empty value and for one whose
   * conversion is not finite; otherwise the converted value, which is finite.
   */
  function ParseNumber(v: Option<string>): (r: Option<real>)
    ensures r.None? <==> !IsSet(v) || !Number(v.value).Finite?
    ensures r.Some? ==> Number(v.value) == Finite(r.value)
    ensures r.Some? ==> -OverflowBound < r.value < OverflowBound
  {
    if !IsSet(v) then None
    else match Number(v.value)
      case Finite(x) => Some(x)
      case _ => None
  }

  /** The number one comma-separated segment of a port list converts to: `Number(p.trim())`. */
  function SegmentNumber(segment: string): JsNum
  {
    Number(Trim(segment))
  }

  /** `xs.map(f)`: `f` applied to each element, in order. */
  function MapSeq<A, B>(xs: seq<A>, f: A -> B): (ys: seq<B>)
    ensures |ys| == |xs|
    ensures forall i :: 0 <= i < |xs| ==> ys[i] == f(xs[i])
  {
    if xs == [] then []
    else
      var rest := MapSeq(xs[1..], f);
      assert forall i :: 1 <= i < |xs| ==> xs[i] == xs[1..][i - 1];
      [f(xs[0])] + rest
  }

  /** `.map(p => Number(p.trim()))`: one conversion per segment, in order. */
  function SegmentNumbers(segments: seq<string>): seq<JsNum> {
    MapSeq(segments, SegmentNumber)
  }

  /** `.filter(p => Number.isFinite(p))`: the values of the finite numbers, in order. */
  function FiniteValues(nums: seq<JsNum>): (vs: seq<real>)
    ensures |vs| <= |nums|
    ensures vs == [] <==> forall i :: 0 <= i < |nums| ==> !nums[i].Finite?
  {
    if nums == [] then []
    else
      var rest := FiniteValues(nums[1..]);
      assert forall i :: 1 <= i < |nums| ==> nums[i] == nums[1..][i - 1];
      if nums[0].Finite? then [nums[0].value] + rest else rest
  }

  /** The ports the comma-separated text `s` lists. */
  function PortValues(s: string): (ports: seq<real>)
    ensures |ports| <= |Split(s, ',')|
  {
    FiniteValues(SegmentNumbers(Split(s, ',')))
  }

  /**
   * `parsePorts`: absent for an undefined or empty value, and when no segment
   * converts to a finite number; never an empty list, never more ports than
   * segments.
   */
  function ParsePorts(v: Option<string>): (r: Option<seq<real>>)
    ensures r.None? <==> !IsSet(v) || forall n <- SegmentNumbers(Split(v.value, ',')) :: !n.Finite?
    ensures r.Some? ==> 1 <= |r.value| <= |Split(v.value, ',')|
    ensures r.Some? ==> r.value == PortValues(v.value)
  {
    if !IsSet(v) then None
    else
      var ports := PortValues(v.value);
      if |ports| > 0 then Some(ports) else None
  }

  /** The provider override: the raw value lower-cased must be `vercel` or `cloudflare`. */
  function ParseProvider(raw: Option<string>): (r: Option<Provider>)
    ensures r == Some(Vercel) <==> raw.Some? && EqualsIgnoreAsciiCase(raw.value, "vercel")
    ensures r == Some(Cloudflare) <==> raw.Some? && EqualsIgnoreAsciiCase(raw.value, "cloudflare")
  {
    match raw
    case None => None
    case Some(s) =>
      ToLowerAsciiMatches(s, "vercel");
      ToLowerAsciiMatches(s, "cloudflare");
      var lowered := ToLowerAscii(s);
      if lowered == "vercel" then Some(Vercel)
      else if lowered == "cloudflare" then Some(Cloudflare)
      else None
  }

  /** `sleepAfter`: absent when empty, a number when its conversion is finite, else the raw string. */
  function ParseSleepAfter(raw: Option<string>): (r: Option<SleepAfter>)
    ensures r.None? <==> !IsSet(raw)
    ensures r.Some? ==> (r.value.Num? <==> Number(raw.value).Finite?)
    ensures r.Some? && r.value.Num? ==> Number(raw.value) == Finite(r.value.n)
    ensures r.Some? && r.value.Str? ==> r.value.s == raw.value
  {
    if !IsSet(raw) then None
    else match Number(raw.value)
      case Finite(x) => Some(Num(x))
      case _ => Some(Str(raw.value))
  }

  /**
   * The Cloudflare block: present exactly when the sleep setting is non-empty
   * or either flag parses; its fields are then the parsed values.
   */
  function ParseCloudflare(env: Env): (r: Option<CloudflareConfig>)
    ensures r.Some? <==>
      IsSet(Lookup(env, SleepAfterKey))
      || ParseBoolean(Lookup(env, KeepAliveKey)).Some?
      || ParseBoolean(Lookup(env, NormalizeIdKey)).Some?
    ensures r.Some? ==> r.value.sleepAfter == ParseSleepAfter(Lookup(env, SleepAfterKey))
    ensures r.Some? ==> r.value.keepAlive == ParseBoolean(Lookup(env, KeepAliveKey))
    ensures r.Some? ==> r.value.normalizeId == ParseBoolean(Lookup(env, NormalizeIdKey))
  {
    var sleepAfter := Lookup(env, SleepAfterKey);
    var keepAlive := ParseBoolean(Lookup(env, KeepAliveKey));
    var normalizeId := ParseBoolean(Lookup(env, NormalizeIdKey));
    if IsSet(sleepAfter) || keepAlive.Some? || normalizeId.Some? then
      Some(CloudflareConfig(ParseSleepAfter(sleepAfter), keepAlive, normalizeId))
    else None
  }

  /**
   * `parseEnvConfig`: every field is read from its own key; runtime and sandbox
   * id pass through unchanged, the others go through their parsers.
   */
  function ParseEnvConfig(env: Env): (c: ResolvedEnvConfig)
    ensures c.provider == ParseProvider(Lookup(env, ProviderKey))
    ensures c.runtime == Lookup(env, RuntimeKey)
    ensures c.timeout == ParseNumber(Lookup(env, TimeoutKey))
    ensures c.cpu == ParseNumber(Lookup(env, CpuKey))
    ensures c.ports == ParsePorts(Lookup(env, PortsKey))
    ensures c.sandboxId == Lookup(env, SandboxIdKey)
    ensures c.cloudflare == ParseCloudflare(env)
  {
    ResolvedEnvConfig(
      ParseProvider(Lookup(env, ProviderKey)),
      Lookup(env, RuntimeKey),
      ParseNumber(Lookup(env, TimeoutKey)),
      ParseNumber(Lookup(env, CpuKey)),
      ParsePorts(Lookup(env, PortsKey)),
      Lookup(env, SandboxIdKey),
      ParseCloudflare(env))
  }

  // ---------------------------------------------------------------------------
  // Provider resolution

  /** A JavaScript value found in the request's Cloudflare bindings. */
  datatype JsValue = Undefined | Null | Boolean(b: bool) | NumberValue(num: JsNum) | StringValue(s: string) | Object

  /** JavaScript truthiness: falsy are exactly undefined, null, false, NaN, zero and the empty string. */
  predicate IsTruthy(v: JsValue)
    ensures !IsTruthy(v) <==>
      v in {Undefined, Null, Boolean(false), NumberValue(NaN), NumberValue(Finite(0.0)), StringValue("")}
  {
    match v
    case Undefined => false
    case Null => false
    case Boolean(b) => b
    case NumberValue(n) => n != NaN && n != Finite(0.0)
    case StringValue(s) => s != ""
    case Object => true
  }

  /** `event.context.cloudflare`, whose `env` holds the worker bindings; `None` is undefined or null. */
  datatype CloudflareContext = CloudflareContext(env: Option<map<string, JsValue>>)
  datatype EventContext = EventContext(cloudflare: Option<CloudflareContext>)

  const SandboxBinding := "SANDBOX"

  /** The request-derived hint: `cloudflare` exactly when the `SANDBOX` binding is truthy; never `vercel`. */
  function EventProvider(ctx: EventContext): (r: Option<Provider>)
    ensures r != Some(Vercel)
    ensures r == Some(Cloudflare) <==>
      && ctx.cloudflare.Some?
      && ctx.cloudflare.value.env.Some?
      && SandboxBinding in ctx.cloudflare.value.env.value
      && IsTruthy(ctx.cloudflare.value.env.value[SandboxBinding])
  {
    match ctx.cloudflare
    case None => None
    case Some(cf) =>
      match cf.env
      case None => None
      case Some(bindings) =>
        if SandboxBinding in bindings && IsTruthy(bindings[SandboxBinding]) then Some(Cloudflare) else None
  }

  /**
   * `resolveProvider`: the environment override, else the request hint, else
   * `cloudflare` when detection says so, else `vercel`.
   */
  function ResolveProvider(envConfig: ResolvedEnvConfig, detection: Detection, eventProvider: Option<Provider>): (p: Provider)
    ensures envConfig.provider.Some? ==> p == envConfig.provider.value
    ensures envConfig.provider.None? && eventProvider.Some? ==> p == eventProvider.value
    ensures envConfig.provider.None? && eventProvider.None? ==> (p == Cloudflare <==> detection.kind == DetectedCloudflare)
  {
    if envConfig.provider.Some? then envConfig.provider.value
    else if eventProvider.Some? then eventProvider.value
    else if detection.kind == DetectedCloudflare then Cloudflare
    else if detection.kind == DetectedVercel then Vercel
    else Vercel
  }

  /**
   * The provider the health endpoint reports for an environment, a detection
   * and a request: Cloudflare exactly when the override says so, or when there
   * is no usable override and the request binding or the detection points to
   * Cloudflare.
   */
  function HandlerProvider(env: Env, detection: Detection, ctx: EventContext): (p: Provider)
    ensures p == Cloudflare <==>
      || ParseProvider(Lookup(env, ProviderKey)) == Some(Cloudflare)
      || (&& ParseProvider(Lookup(env, ProviderKey)).None?
          && (EventProvider(ctx) == Some(Cloudflare) || detection.kind == DetectedCloudflare))
  {
    ResolveProvider(ParseEnvConfig(env), detection, EventProvider(ctx))
  }
}
