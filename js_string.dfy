/**
 * The parts of JavaScript's string built-ins that the configuration parsers
 * use: `String.prototype.trim`, `String.prototype.split` with a one-character
 * separator, and `String.prototype.toLowerCase` restricted to ASCII.
 */
module JsString {
  import opened Wrappers

  /** The characters `trim` removes: ECMAScript's WhiteSpace and LineTerminator. */
  predicate IsWhiteSpace(c: char) {
    || c == '\t' || c == '\n' || c == '\U{000B}' || c == '\U{000C}' || c == '\r'
    || c == ' ' || c == '\U{00A0}' || c == '\U{1680}' || ('\U{2000}' <= c <= '\U{200A}')
    || c == '\U{2028}' || c == '\U{2029}' || c == '\U{202F}' || c == '\U{205F}'
    || c == '\U{3000}' || c == '\U{FEFF}'
  }

  /** `s` without its leading white space. */
  function TrimStart(s: string): (r: string)
    ensures |r| <= |s| && r == s[|s| - |r|..]
    ensures forall i :: 0 <= i < |s| - |r| ==> IsWhiteSpace(s[i])
    ensures r == [] || !IsWhiteSpace(r[0])
  {
    if |s| > 0 && IsWhiteSpace(s[0]) then TrimStart(s[1..]) else s
  }

  /** `s` without its trailing white space. */
  function TrimEnd(s: string): (r: string)
    ensures |r| <= |s| && r == s[..|r|]
    ensures forall i :: |r| <= i < |s| ==> IsWhiteSpace(s[i])
    ensures r == [] || !IsWhiteSpace(r[|r| - 1])
  {
    if |s| > 0 && IsWhiteSpace(s[|s| - 1]) then TrimEnd(s[..|s| - 1]) else s
  }

  /** Number of leading white-space characters `trim` drops from `s`. */
  function TrimOffset(s: string): nat {
    |s| - |TrimStart(s)|
  }

  /**
   * `s.trim()`: the slice of `s` left after dropping white space at both ends.
   * Everything dropped is white space and the slice neither starts nor ends with it.
   */
  function Trim(s: string): (r: string)
    ensures TrimOffset(s) + |r| <= |s| && r == s[TrimOffset(s)..TrimOffset(s) + |r|]
    ensures forall i :: 0 <= i < TrimOffset(s) ==> IsWhiteSpace(s[i])
    ensures forall i :: TrimOffset(s) + |r| <= i < |s| ==> IsWhiteSpace(s[i])
    ensures r == [] || (!IsWhiteSpace(r[0]) && !IsWhiteSpace(r[|r| - 1]))
  {
    TrimEnd(TrimStart(s))
  }

  /** Trimming twice is trimming once. */
  lemma {:induction false} TrimIdempotent(s: string)
    ensures Trim(Trim(s)) == Trim(s)
  {
    var t := Trim(s);
    assert TrimStart(t) == t;
    assert TrimEnd(t) == t;
  }

  /** A string with no white space at either end is its own trim. */
  lemma {:induction false} TrimUnchanged(s: string)
    requires s == [] || (!IsWhiteSpace(s[0]) && !IsWhiteSpace(s[|s| - 1]))
    ensures Trim(s) == s
  {
    assert TrimStart(s) == s;
    assert TrimEnd(s) == s;
  }

  /** Leading white space does not change the trim. */
  lemma {:induction false} TrimDropsLeadingSpace(s: string)
    requires s != [] && IsWhiteSpace(s[0])
    ensures Trim(s) == Trim(s[1..])
  {
  }

  /** The first position of `s` that holds a character of `cs`, if any. */
  function FirstIndexIn(s: string, cs: set<char>): (r: Option<nat>)
    ensures r.None? <==> forall i :: 0 <= i < |s| ==> s[i] !in cs
    ensures r.Some? ==> r.value < |s| && s[r.value] in cs
    ensures r.Some? ==> forall i :: 0 <= i < r.value ==> s[i] !in cs
  {
    if s == [] then None
    else if s[0] in cs then Some(0)
    else match FirstIndexIn(s[1..], cs)
      case None => None
      case Some(i) => Some(i + 1)
  }

  /** Inverse of `Split`: the parts with `sep` between each two of them. */
  function Join(parts: seq<string>, sep: char): string
    requires |parts| >= 1
  {
    if |parts| == 1 then parts[0] else parts[0] + [sep] + Join(parts[1..], sep)
  }

  /**
   * `s.split(sep)` for a one-character separator: the maximal runs of `s` free
   * of `sep`, in order. There is at least one part (the empty string splits
   * into one empty part) and no part holds `sep`; `SplitJoin` shows that
   * joining the parts with `sep` gives `s` back.
   */
  function Split(s: string, sep: char): (parts: seq<string>)
    ensures |parts| >= 1
    ensures forall i :: 0 <= i < |parts| ==> sep !in parts[i]
    decreases |s|
  {
    match FirstIndexIn(s, {sep})
    case None => [s]
    case Some(i) =>
      var rest := Split(s[i + 1..], sep);
      assert forall k :: 1 <= k < |rest| + 1 ==> ([s[..i]] + rest)[k] == rest[k - 1];
      [s[..i]] + rest
  }

  /** Joining the parts of a split with the separator gives the string back. */
  lemma {:induction false} SplitJoin(s: string, sep: char)
    ensures Join(Split(s, sep), sep) == s
    decreases |s|
  {
    match FirstIndexIn(s, {sep})
    case None =>
    case Some(i) =>
      var rest := Split(s[i + 1..], sep);
      SplitJoin(s[i + 1..], sep);
      assert ([s[..i]] + rest)[1..] == rest;
      assert s == s[..i] + [sep] + s[i + 1..];
  }

  /** Text free of the separator splits into itself alone. */
  lemma SplitWhole(s: string, sep: char)
    requires sep !in s
    ensures Split(s, sep) == [s]
  {
    assert forall i :: 0 <= i < |s| ==> s[i] !in {sep};
  }

  /** A separator-free part followed by the separator splits off as the first part. */
  lemma SplitAfterPart(p: string, sep: char, rest: string)
    requires sep !in p
    ensures Split(p + [sep] + rest, sep) == [p] + Split(rest, sep)
  {
    var s := p + [sep] + rest;
    assert s[|p|] in {sep};
    assert forall i :: 0 <= i < |p| ==> s[i] == p[i];
    assert FirstIndexIn(s, {sep}) == Some(|p|);
    assert s[..|p|] == p;
    assert s[|p| + 1..] == rest;
  }

  /** `Split` is the only way to cut `s` into `sep`-free parts that join back to `s`. */
  lemma {:induction false} SplitUnique(s: string, sep: char, parts: seq<string>)
    requires |parts| >= 1
    requires forall i :: 0 <= i < |parts| ==> sep !in parts[i]
    requires Join(parts, sep) == s
    ensures parts == Split(s, sep)
    decreases |parts|
  {
    if |parts| == 1 {
      SplitWhole(s, sep);
    } else {
      var rest := parts[1..];
      forall i | 0 <= i < |rest| ensures sep !in rest[i] {
        assert rest[i] == parts[i + 1];
      }
      var tail := Join(rest, sep);
      assert s == parts[0] + [sep] + tail;
      SplitUnique(tail, sep, rest);
      SplitAfterPart(parts[0], sep, tail);
      assert parts == [parts[0]] + rest;
    }
  }

  /** There is one part more than there are separators in `s`. */
  lemma {:induction false} SplitCount(s: string, sep: char)
    ensures |Split(s, sep)| == multiset(s)[sep] + 1
    decreases |s|
  {
    match FirstIndexIn(s, {sep})
    case None =>
      assert sep !in s;
    case Some(i) =>
      var a, b := s[..i], s[i + 1..];
      SplitCount(b, sep);
      assert |Split(s, sep)| == 1 + |Split(b, sep)|;
      assert s == a + [sep] + b;
      assert sep !in a;
      assert multiset(s) == multiset(a) + multiset{sep} + multiset(b);
      assert multiset(s)[sep] == multiset(a)[sep] + 1 + multiset(b)[sep];
  }

  /** ASCII lower-casing of one character. */
  function LowerAscii(c: char): (r: char)
    ensures !('A' <= r <= 'Z')
    ensures 'A' <= c <= 'Z' ==> r as int == c as int + 32
    ensures !('A' <= c <= 'Z') ==> r == c
  {
    if 'A' <= c <= 'Z' then (c as int + 32) as char else c
  }

  /** `toLowerCase` on the ASCII letters: same length, upper-case ASCII letters lowered, all else kept. */
  function ToLowerAscii(s: string): (r: string)
    ensures |r| == |s|
    ensures forall i :: 0 <= i < |r| ==> !('A' <= r[i] <= 'Z')
    ensures forall i :: 0 <= i < |s| && !('A' <= s[i] <= 'Z') ==> r[i] == s[i]
    ensures forall i :: 0 <= i < |s| && 'A' <= s[i] <= 'Z' ==> r[i] as int == s[i] as int + 32
  {
    seq(|s|, i requires 0 <= i < |s| => LowerAscii(s[i]))
  }

  /** `a` and `b` are equal up to the case of ASCII letters. */
  predicate EqualsIgnoreAsciiCase(a: string, b: string) {
    |a| == |b| && forall i :: 0 <= i < |a| ==> LowerAscii(a[i]) == LowerAscii(b[i])
  }

  /** For a word with no upper-case ASCII letter, lower-casing `s` gives the word exactly when `s` matches it ignoring case. */
  lemma {:induction false} ToLowerAsciiMatches(s: string, word: string)
    requires forall i :: 0 <= i < |word| ==> !('A' <= word[i] <= 'Z')
    ensures ToLowerAscii(s) == word <==> EqualsIgnoreAsciiCase(s, word)
  {
    if EqualsIgnoreAsciiCase(s, word) {
      var l := ToLowerAscii(s);
      forall i | 0 <= i < |s| ensures l[i] == word[i] {
        assert LowerAscii(word[i]) == word[i];
      }
    }
    if ToLowerAscii(s) == word {
      forall i | 0 <= i < |s| ensures LowerAscii(s[i]) == LowerAscii(word[i]) {
        assert LowerAscii(word[i]) == word[i];
        assert ToLowerAscii(s)[i] == LowerAscii(s[i]);
      }
    }
  }
}
