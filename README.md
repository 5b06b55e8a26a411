# Sandbox health endpoint: configuration resolution

The health endpoint of the hub sandbox example (`GET /api/health`) tells a
caller which sandbox provider, `vercel` or `cloudflare`, the application
will use, and with which settings. It reads the `NUXT_HUB_SANDBOX_*`
environment variables into a typed `ResolvedEnvConfig`:

- booleans are `"true"`/`"1"` or `"false"`/`"0"`, and anything else is absent;
- numbers go through JavaScript's `Number` and are kept only when finite;
- port lists are split at commas, each segment is trimmed and converted, and
  only the finite conversions are kept;
- an optional Cloudflare block carries `sleepAfter`, `keepAlive` and
  `normalizeId`.

The endpoint then picks the provider. The priority, highest first:

1. the environment override;
2. the hint taken from the request's Cloudflare `SANDBOX` binding;
3. the result of sandbox detection;
4. the default, `vercel`.

The model is pure: values, functions and lemmas, because the source builds
immutable values and never updates state. It has five modules, one per file,
plus `Wrappers` (an `Option` type).

- `JsString` (`js_string.dfy`): the three string operations the code relies
  on. These are `trim` (ECMAScript white space and line terminators),
  `split(',')` with its inverse `Join`, and ASCII lower-casing.
- `JsNumbers` (`js_number.dfy`): `Number(s)` on a string, following
  ECMAScript's StringNumericLiteral grammar (section 7.1.4.1.1 of ECMA-262).
  The input is trimmed, and empty input is 0. `Infinity` may carry a sign.
  Decimal literals may have a sign, a fraction and an exponent. `0x`, `0o`
  and `0b` integers are unsigned. Anything else is NaN. A finite result
  holds the exact decimal value. The result is infinite exactly when its
  magnitude reaches 2^1024 − 2^970, which is where binary64 round-to-nearest
  overflows.
- `Health` (`health.dfy`): the environment as a `map<string, string>`, with a
  missing key as `undefined`. It holds the parsers, `ParseEnvConfig`, the
  request hint, `ResolveProvider`, and `HandlerProvider`, which composes them
  as the handler does.
- `HealthProperties` (`health_properties.dfy`): the laws relating several
  operations. These are:
  - `parsePorts` keeps exactly the finite segments, in order;
  - the port count is bounded by the number of commas;
  - writing integer ports and parsing them back gives the same list;
  - the configuration depends only on the sandbox keys;
  - the precedence laws of provider resolution.
- `HealthExamples` (`health_examples.dfy`): concrete inputs worked through
  the model, such as `"80, 443, abc"` → `[80, 443]`, `"12,x,7"` → `[12, 7]`,
  `"yes"` → absent and `"0"` → false.

Ports are not checked to be integers: `parsePorts` keeps every finite
conversion, so `"1.5"` gives the port `1.5`, and an empty segment converts
to `0`, which is kept (`"80,,443"` gives `[80, 0, 443]`,
`HealthExamples.PortsWithEmptySegment`).

## Model

| member | source | states |
|---|---|---|
| Health.IsSet | server/api/health.get.ts:18 | the falsy test `!value` on an environment value: a value is set exactly when it is truthy as a JavaScript value, with a missing value as `undefined` |
| Health.Lookup | server/api/health.get.ts:44 | reading an environment variable is defined exactly when the key is present, and then gives its value |
| Health.ParseBoolean | server/api/health.get.ts:17-25 | true exactly for `"true"`/`"1"`, false exactly for `"false"`/`"0"`, absent for every other value, for the empty string and for undefined |
| Health.ParseNumber | server/api/health.get.ts:27-32 | absent exactly when the value is undefined, empty or converts to a non-finite number; otherwise the converted value, which lies strictly inside the binary64 range |
| HealthProperties.SegmentNumberIsNumber | server/api/health.get.ts:37 | `p => Number(p.trim())` converts a segment exactly as `Number` converts it untrimmed |
| HealthProperties.SegmentNumbersConvert | server/api/health.get.ts:37 | the `.map` gives one conversion per segment, in order, the i-th being `Number` of the i-th segment |
| Health.PortValues | server/api/health.get.ts:37 | the split/map/filter pipeline gives at most one port per segment |
| HealthProperties.SingleSegmentPorts | server/api/health.get.ts:37 | text without a comma gives its own conversion as the only port when that is finite, and no port otherwise |
| Health.MapSeq | server/api/health.get.ts:37 | `map` keeps the length, and the i-th result is the function applied to the i-th element |
| Health.FiniteValues | server/api/health.get.ts:37 | the filter never lengthens the list, and it is empty exactly when no number is finite |
| Health.ParsePorts | server/api/health.get.ts:34-39 | absent exactly when the value is undefined or empty, or when no trimmed segment converts to a finite number; otherwise a non-empty list of at most one port per segment, equal to the filtered conversions |
| Health.ParseProvider | server/api/health.get.ts:42-43 | `vercel` exactly when the raw value equals `vercel` ignoring case, `cloudflare` exactly when it equals `cloudflare` ignoring case, otherwise absent |
| Health.ParseSleepAfter | server/api/health.get.ts:55 | absent exactly when unset or empty; a number exactly when the value converts to a finite one (the converted value); otherwise the raw string unchanged |
| Health.ParseCloudflare | server/api/health.get.ts:50-59 | the block exists exactly when the sleep setting is non-empty or one of the two flags parses, and its fields are then the parsed sleep setting and the two parsed flags |
| Health.ParseEnvConfig | server/api/health.get.ts:41-62 | each field comes from its own variable: provider, timeout, cpu, ports and the Cloudflare block through their parsers; runtime and sandbox id pass through unchanged |
| Health.EventProvider | server/api/health.get.ts:83 | the hint is `cloudflare` exactly when the request's Cloudflare env holds a truthy `SANDBOX` binding, and it is never `vercel` |
| Health.IsTruthy | server/api/health.get.ts:83 | JavaScript truthiness of a binding: falsy are exactly `undefined`, `null`, `false`, `NaN`, `0` and the empty string |
| Health.ResolveProvider | server/api/health.get.ts:64-78 | an override wins; otherwise a hint wins; otherwise the answer is `cloudflare` exactly when detection reports Cloudflare |
| Health.HandlerProvider | server/api/health.get.ts:81-84 | the endpoint reports `cloudflare` exactly when the override names it, or when there is no usable override and the request binding or the detection points to Cloudflare |
| HealthProperties.ParsePortsSubsequence | server/api/health.get.ts:37 | the ports are the finite segment conversions in their original order: one port per finite conversion; the k-th port is the value at the k-th finite position; the positions increase; every finite conversion's position is among them |
| HealthProperties.FiniteValuesKept | server/api/health.get.ts:37 | the filter keeps one value per finite number, and the k-th kept value is that of the k-th finite number |
| HealthProperties.FiniteIndicesIncrease | server/api/health.get.ts:37 | the positions of the kept numbers strictly increase (the filter keeps order) |
| HealthProperties.FiniteIndicesComplete | server/api/health.get.ts:37 | every finite number's position is among the kept positions (the filter drops no finite number) |
| HealthProperties.FinitePositionsCount | server/api/health.get.ts:37 | there are as many finite positions as values kept by the filter |
| HealthProperties.FiniteValueAt | server/api/health.get.ts:37 | the k-th finite position lies within the list and holds the number whose value the filter keeps k-th |
| HealthProperties.FinitePositionsIncrease | server/api/health.get.ts:37 | later kept numbers come from later positions |
| HealthProperties.FinitePositionListed | server/api/health.get.ts:37 | a finite number's position is listed |
| HealthProperties.FiniteValuesAppend | server/api/health.get.ts:37 | filtering a concatenation concatenates the filtered parts |
| HealthProperties.ParsePortsBound | server/api/health.get.ts:37-38 | a parsed port list has at most one entry more than the text has commas |
| HealthProperties.ParsePortsRoundTrip | server/api/health.get.ts:34-39 | writing a non-empty list of integer ports no larger than 2^53 as comma-separated decimals and parsing it gives the same list back |
| HealthProperties.SegmentNumbersOfNumerals | server/api/health.get.ts:37 | each decimal numeral of an integer no larger than 2^53, trimmed and converted, gives back the integer it was written from |
| HealthProperties.NumeralSegmentNumber | server/api/health.get.ts:37 | the decimal numeral of an integer no larger than 2^53, as a segment, converts to that integer |
| HealthProperties.FiniteValuesOfFinite | server/api/health.get.ts:37 | the filter leaves a list of finite numbers as it is |
| HealthProperties.SplitFormatPorts | server/api/health.get.ts:37 | comma-joined numerals split at commas into the same numerals |
| HealthProperties.ParseEnvConfigReadsConfigKeys | server/api/health.get.ts:41-62 | two environments that agree on the nine sandbox keys give the same configuration: no other variable is read |
| HealthProperties.UnknownOverrideIgnored | server/api/health.get.ts:42-43 | an override value that names no provider gives the same answer as an unset override |
| HealthProperties.OverrideDecides | server/api/health.get.ts:69-70 | a usable override is the answer, whatever the detection and the request say |
| HealthProperties.HintBeatsDetection | server/api/health.get.ts:71-72 | with no override, the request hint is the answer, whatever the detection says |
| HealthProperties.DefaultIsVercel | server/api/health.get.ts:73-77 | with no override and no hint, anything other than a Cloudflare detection, including an unknown one, gives `vercel` |
| HealthExamples.PortsWithWord | server/api/health.get.ts:34-39 | `"80, 443, abc"` parses to `[80, 443]` |
| HealthExamples.PortsWithLetter | server/api/health.get.ts:34-39 | `"12,x,7"` parses to `[12, 7]` |
| HealthExamples.PortsWithEmptySegment | server/api/health.get.ts:34-39 | `"80,,443"` parses to `[80, 0, 443]`: an empty segment converts to the finite 0 |
| HealthExamples.PortsWithoutNumber | server/api/health.get.ts:38 | `"abc"` has no finite segment, so the ports are absent |
| HealthExamples.BooleanSpellings | server/api/health.get.ts:17-25 | `"1"` is true and `"0"` false; `"TRUE"`, `"False"`, `"yes"`, the empty string and undefined are absent |
| HealthExamples.NumberOfWord | server/api/health.get.ts:27-32 | `"abc"` is not a number, so it is absent |
| HealthExamples.NumberOfInfinity | server/api/health.get.ts:31 | `"Infinity"` converts but is not finite, so it is absent |
| HealthExamples.NumberOfSpaces | server/api/health.get.ts:28-31 | a value of two spaces is truthy and converts to 0, which is kept |
| HealthExamples.NumberOfNumeral | server/api/health.get.ts:27-32 | `"30000"` is 30000 |
| HealthExamples.ProviderSpellings | server/api/health.get.ts:42-43 | `"VERCEL"` and `"CloudFlare"` name their providers; `"aws"` and the empty string name none |
| HealthExamples.OnlyPortsConfig | server/api/health.get.ts:41-62 | an environment holding only `NUXT_HUB_SANDBOX_PORTS="80, 443, abc"` resolves to ports `[80, 443]` and no other field, and with an unknown detection and no binding the provider is `vercel` |
| HealthExamples.SleepAfterNumber | server/api/health.get.ts:53-55 | a sleep setting of `"300"` creates the block with the number 300 |
| HealthExamples.SleepAfterText | server/api/health.get.ts:53-55 | a sleep setting of `"5m"` creates the block and keeps the text as written |
| HealthExamples.KeepAliveUnparsed | server/api/health.get.ts:51-53 | a keep-alive value of `"yes"` parses to nothing, so no block is created |
| HealthExamples.KeepAliveFalse | server/api/health.get.ts:51-56 | a keep-alive value of `"false"` creates the block with `keepAlive` false |
| JsString.Trim | server/api/health.get.ts:37 | the result is the input with its leading and trailing white space removed, and it neither starts nor ends with white space |
| JsString.TrimIdempotent | server/api/health.get.ts:37 | trimming twice is trimming once |
| JsString.FirstIndexIn | server/api/health.get.ts:37 | finds the first position holding one of the characters, and finds none exactly when no position does |
| JsString.Split | server/api/health.get.ts:37 | `split` gives at least one part, and no part contains the separator |
| JsString.SplitJoin | server/api/health.get.ts:37 | joining the parts with the separator gives the string back |
| JsString.SplitUnique | server/api/health.get.ts:37 | any separator-free parts that join to the string are its split |
| JsString.SplitCount | server/api/health.get.ts:37 | there is one part more than there are separators |
| JsString.ToLowerAscii | server/api/health.get.ts:42 | lower-casing keeps the length, maps each capital letter to its small letter and leaves every other character as it is |
| JsString.ToLowerAsciiMatches | server/api/health.get.ts:42-43 | for a lower-case word, the lower-cased input equals it exactly when the input equals it ignoring case |
| JsNumbers.FromMagnitude | server/api/health.get.ts:30 | a magnitude is finite exactly below the overflow bound, and otherwise becomes infinity of its sign |
| JsNumbers.Number | server/api/health.get.ts:30 | empty or all-white-space text is 0, and a finite result lies strictly inside the binary64 range |
| JsNumbers.NumberIgnoresTrim | server/api/health.get.ts:37 | converting the trimmed text is converting the text |
| JsNumbers.NumberOfDigits | server/api/health.get.ts:30 | a string of decimal digits converts to its decimal value (infinite past the overflow bound) |
| JsNumbers.NumberOfDecimal | server/api/health.get.ts:30 | an integer no larger than 2^53, where every integer is a binary64 value, written in decimal converts back to itself |
| JsNumbers.NumberOfNonNumeric | server/api/health.get.ts:30-31 | text whose trimmed form starts with no digit, point or sign and is not `Infinity` is NaN |

## Left out

- `detectSandbox` and `isSandboxAvailable` (from `hub:sandbox`) are not part of this model. The detection result is a parameter holding only the detected provider kind, the one thing the code reads from it.
- The response object (`ok`, `detection`, `available`, `resolved`) and its `timestamp` (lines 86-104) are left out. They only copy values the model already computes, and the rest is I/O and the clock.
- The other routes under `server/api/` and `nuxt.config.ts` are left out because they do not take part in resolving the configuration.
- JsNumbers.Number: it does not round to the nearest binary64 value and has no negative zero. A finite result is the exact decimal. This does not change which values are finite, which is all the code tests, but a port such as `0.1` stands for its exact value.
- JsNumbers.NumberOfDigits: the value it states is the exact one, which is what JavaScript gives only up to 2^53 (`9007199254740993` converts to `9007199254740992`). Past 2^53 it holds of the model, not of the program; only its finiteness part holds of the program there. NumberOfDecimal, SegmentNumbersOfNumerals and ParsePortsRoundTrip are stated only up to 2^53 for this reason.
- JsString.ToLowerAscii: it lower-cases ASCII letters only, while `toLowerCase` is full Unicode. Only U+0130 and U+212A lower-case to ASCII letters (`i` and `k`), and neither `vercel` nor `cloudflare` contains those letters. So the provider decision is the same.
- Strings are sequences of characters, not UTF-16 code units. No operation used here tells the two apart for the inputs that matter.
- Health.IsTruthy: it covers the JavaScript values a binding can hold, except BigInt and the legacy `document.all` object.
- `process.env` is a parameter (`Env`), not a global.
