/** The Python `str` operations the core relies on, written out over `seq<char>`:
    decimal and hexadecimal conversion, `split`, `join`, `lstrip`, `startswith`,
    `removesuffix`, `replace` and slicing. */
module Text {
  import opened Results

  predicate IsDigit(c: char) { '0' <= c <= '9' }

  /** `str.isdigit()` over ASCII digits: non-empty and nothing but digits. */
  predicate IsDigits(s: string) {
    |s| > 0 && forall i :: 0 <= i < |s| ==> IsDigit(s[i])
  }

  function DigitValue(c: char): nat
    requires IsDigit(c)
  {
    (c as int) - ('0' as int)
  }

  function DigitChar(d: nat): (c: char)
    requires d < 10
    ensures IsDigit(c) && DigitValue(c) == d
  {
    (('0' as int) + d) as char
  }

  /** The number a string of decimal digits denotes (`int(s)`). */
  function DecimalValue(s: string): nat
    requires forall i :: 0 <= i < |s| ==> IsDigit(s[i])
  {
    if s == [] then 0 else 10 * DecimalValue(s[..|s| - 1]) + DigitValue(s[|s| - 1])
  }

  /** `str(n)` for a non-negative integer. */
  function NatToString(n: nat): (s: string)
    ensures IsDigits(s)
    ensures n < 10 <==> |s| == 1
  {
    if n < 10 then [DigitChar(n)] else NatToString(n / 10) + [DigitChar(n % 10)]
  }

  /** `int(s)` restricted to plain decimal literals. */
  function ParseDecimal(s: string): (r: Option<nat>)
    ensures r.Some? <==> IsDigits(s)
    ensures r.Some? ==> r.value == DecimalValue(s)
  {
    if IsDigits(s) then Some(DecimalValue(s)) else None
  }

  /** Reading back the decimal rendering of a number gives the number. */
  lemma {:induction false} DecimalOfNatToString(n: nat)
    ensures DecimalValue(NatToString(n)) == n
  {
    if n >= 10 {
      var s := NatToString(n);
      assert s[..|s| - 1] == NatToString(n / 10);
      DecimalOfNatToString(n / 10);
    }
  }

  lemma ParseNatToString(n: nat)
    ensures ParseDecimal(NatToString(n)) == Some(n)
  {
    DecimalOfNatToString(n);
  }

  predicate IsHexDigit(c: char) {
    IsDigit(c) || 'a' <= c <= 'f' || 'A' <= c <= 'F'
  }

  predicate IsHexDigits(s: string) {
    |s| > 0 && forall i :: 0 <= i < |s| ==> IsHexDigit(s[i])
  }

  function HexDigitValue(c: char): (v: nat)
    requires IsHexDigit(c)
    ensures v < 16
  {
    if IsDigit(c) then DigitValue(c)
    else if 'a' <= c <= 'f' then 10 + (c as int) - ('a' as int)
    else 10 + (c as int) - ('A' as int)
  }

  /** The lower-case hexadecimal digit for `d`. */
  function HexDigitChar(d: nat): (c: char)
    requires d < 16
    ensures IsHexDigit(c) && HexDigitValue(c) == d
  {
    if d < 10 then DigitChar(d) else (('a' as int) + d - 10) as char
  }

  function HexValue(s: string): nat
    requires forall i :: 0 <= i < |s| ==> IsHexDigit(s[i])
  {
    if s == [] then 0 else 16 * HexValue(s[..|s| - 1]) + HexDigitValue(s[|s| - 1])
  }

  /** `int(s, base=16)` restricted to plain hexadecimal literals. */
  function ParseHex(s: string): (r: Option<nat>)
    ensures r.Some? <==> IsHexDigits(s)
    ensures r.Some? ==> r.value == HexValue(s)
  {
    if IsHexDigits(s) then Some(HexValue(s)) else None
  }

  /** Two hexadecimal digits read back as the byte they write, as a `#rrggbb` component. */
  lemma ParseHexPair(high: nat, low: nat)
    requires high < 16 && low < 16
    ensures ParseHex([HexDigitChar(high), HexDigitChar(low)]) == Some(16 * high + low)
  {
    var s := [HexDigitChar(high), HexDigitChar(low)];
    assert s[..1] == [HexDigitChar(high)];
    assert s[..1][..0] == [];
    assert HexValue(s[..1]) == high;
    assert HexValue(s) == 16 * HexValue(s[..1]) + low;
    assert IsHexDigits(s);
  }

  predicate StartsWith(s: string, prefix: string) {
    |prefix| <= |s| && s[..|prefix|] == prefix
  }

  /** `s.lstrip(c)`: drops every leading `c`. */
  function LStrip(s: string, c: char): (r: string)
    ensures |r| <= |s| && r == s[|s| - |r|..]
    ensures r == [] || r[0] != c
    ensures forall i :: 0 <= i < |s| - |r| ==> s[i] == c
  {
    if s != [] && s[0] == c then LStrip(s[1..], c) else s
  }

  /** `s.removesuffix(suffix)`. */
  function RemoveSuffix(s: string, suffix: string): (r: string)
    ensures r + suffix == s || r == s
    ensures r != s <==> |suffix| > 0 && |suffix| <= |s| && s[|s| - |suffix|..] == suffix
  {
    if |suffix| > 0 && |suffix| <= |s| && s[|s| - |suffix|..] == suffix then s[..|s| - |suffix|] else s
  }

  /** `s[i:j]` with Python's clamping of out-of-range bounds. */
  function Slice(s: string, i: nat, j: nat): (r: string)
    ensures |r| <= |s|
  {
    var lo := if i < |s| then i else |s|;
    var hi := if j < |s| then j else |s|;
    if lo <= hi then s[lo..hi] else []
  }

  /** `s.replace(pattern, replacement)`: left to right, non-overlapping. */
  function Replace(s: string, pattern: string, replacement: string): string
    requires |pattern| > 0
  {
    if |s| < |pattern| then s
    else if s[..|pattern|] == pattern then replacement + Replace(s[|pattern|..], pattern, replacement)
    else [s[0]] + Replace(s[1..], pattern, replacement)
  }

  /** The pattern occurs in s at position i. */
  predicate OccursAt(s: string, pattern: string, i: nat) {
    i + |pattern| <= |s| && s[i..i + |pattern|] == pattern
  }

  /** Text without an occurrence of the pattern is left as it is. */
  lemma {:induction false} ReplaceAbsent(s: string, pattern: string, replacement: string)
    requires |pattern| > 0
    requires forall i: nat :: !OccursAt(s, pattern, i)
    ensures Replace(s, pattern, replacement) == s
    decreases |s|
  {
    if |s| >= |pattern| {
      assert !OccursAt(s, pattern, 0);
      assert s[0..|pattern|] == s[..|pattern|];
      var t := s[1..];
      forall i: nat
        ensures !OccursAt(t, pattern, i)
      {
        assert !OccursAt(s, pattern, i + 1);
        if i + |pattern| <= |t| {
          assert t[i..i + |pattern|] == s[i + 1..i + 1 + |pattern|];
        }
      }
      ReplaceAbsent(t, pattern, replacement);
      assert [s[0]] + t == s;
    }
  }

  /** `s.split(sep)` for a one-character separator: always at least one part. */
  function Split(s: string, sep: char): (parts: seq<string>)
    ensures |parts| >= 1
    ensures forall i :: 0 <= i < |parts| ==> sep !in parts[i]
  {
    if s == [] then [""]
    else
      var rest := Split(s[1..], sep);
      if s[0] == sep then [""] + rest else [[s[0]] + rest[0]] + rest[1..]
  }

  /** `separator.join(parts)`. */
  function Join(parts: seq<string>, separator: string): string {
    if |parts| == 0 then ""
    else if |parts| == 1 then parts[0]
    else parts[0] + separator + Join(parts[1..], separator)
  }

  lemma JoinCons(part: string, rest: seq<string>, separator: string)
    requires |rest| >= 1
    ensures Join([part] + rest, separator) == part + separator + Join(rest, separator)
  {
    assert ([part] + rest)[1..] == rest;
  }

  lemma JoinTwoCons(a: string, b: string, rest: seq<string>, separator: string)
    requires |rest| >= 1
    ensures Join([a, b] + rest, separator) == a + separator + b + separator + Join(rest, separator)
  {
    var tail := [b] + rest;
    assert [a, b] + rest == [a] + tail;
    JoinCons(a, tail, separator);
    JoinCons(b, rest, separator);
  }

  /** Joining the parts of a split with the separator restores the string. */
  lemma {:induction false} JoinSplit(s: string, sep: char)
    ensures Join(Split(s, sep), [sep]) == s
  {
    if s != [] {
      var rest := Split(s[1..], sep);
      JoinSplit(s[1..], sep);
      if s[0] == sep {
        JoinCons("", rest, [sep]);
      } else if |rest| == 1 {
        assert Split(s, sep) == [[s[0]] + rest[0]];
      } else {
        JoinHead(s[0], rest, [sep]);
        assert s == [s[0]] + s[1..];
      }
    }
  }

  /** A character put in front of the first part is put in front of the joined text. */
  lemma JoinHead(c: char, rest: seq<string>, separator: string)
    requires |rest| >= 2
    ensures Join([[c] + rest[0]] + rest[1..], separator) == [c] + Join(rest, separator)
  {
    JoinCons(rest[0], rest[1..], separator);
    assert rest == [rest[0]] + rest[1..];
    JoinCons([c] + rest[0], rest[1..], separator);
  }

  lemma {:induction false} SplitPrefix(a: string, b: string, sep: char)
    requires sep !in a
    ensures Split(a + b, sep) == [a + Split(b, sep)[0]] + Split(b, sep)[1..]
  {
    var B := Split(b, sep);
    if a == [] {
      assert a + b == b;
      assert a + B[0] == B[0];
      assert B == [B[0]] + B[1..];
    } else {
      var s := a + b;
      assert s[0] == a[0] && a[0] != sep;
      assert s[1..] == a[1..] + b;
      SplitPrefix(a[1..], b, sep);
      var rest := Split(s[1..], sep);
      assert rest == [a[1..] + B[0]] + B[1..];
      assert Split(s, sep) == [[s[0]] + rest[0]] + rest[1..];
      assert [a[0]] + (a[1..] + B[0]) == a + B[0];
    }
  }

  /** Splitting a join of separator-free parts gives the parts back. */
  lemma {:induction false} SplitJoin(parts: seq<string>, sep: char)
    requires |parts| >= 1
    requires forall i :: 0 <= i < |parts| ==> sep !in parts[i]
    ensures Split(Join(parts, [sep]), sep) == parts
  {
    if |parts| == 1 {
      SplitPrefix(parts[0], "", sep);
      assert parts[0] + "" == parts[0];
    } else {
      var tail := Join(parts[1..], [sep]);
      SplitJoin(parts[1..], sep);
      assert Join(parts, [sep]) == parts[0] + ([sep] + tail);
      SplitPrefix(parts[0], [sep] + tail, sep);
      assert ([sep] + tail)[1..] == tail;
      var S := Split([sep] + tail, sep);
      assert S == [""] + Split(tail, sep);
      assert parts[0] + S[0] == parts[0];
      assert S[1..] == parts[1..];
      assert parts == [parts[0]] + parts[1..];
    }
  }

  /** The characters Python's `str.split()` treats as whitespace. */
  predicate IsSpace(c: char) {
    c == ' ' || '\t' <= c <= '\r' || '\U{1C}' <= c <= '\U{1F}' || c == '\U{85}' || c == '\U{A0}'
    || c == '\U{1680}' || '\U{2000}' <= c <= '\U{200A}' || c == '\U{2028}' || c == '\U{2029}'
    || c == '\U{202F}' || c == '\U{205F}' || c == '\U{3000}'
  }

  predicate NoSpace(s: string) {
    forall i :: 0 <= i < |s| ==> !IsSpace(s[i])
  }

  /** The end of the run of non-whitespace characters of s that starts at i. */
  function WordEnd(s: string, i: nat): (k: nat)
    requires i <= |s|
    ensures i <= k <= |s|
    ensures forall j :: i <= j < k ==> !IsSpace(s[j])
    ensures k < |s| ==> IsSpace(s[k])
    decreases |s| - i
  {
    if i == |s| || IsSpace(s[i]) then i else WordEnd(s, i + 1)
  }

  /** `s.split()`: the maximal runs of non-whitespace characters, in order. */
  function Words(s: string): (ws: seq<string>)
    ensures forall i :: 0 <= i < |ws| ==> |ws[i]| > 0 && NoSpace(ws[i])
  {
    if s == [] then []
    else if IsSpace(s[0]) then Words(s[1..])
    else
      var k := WordEnd(s, 0);
      [s[..k]] + Words(s[k..])
  }

  /** A word followed by whitespace and more text splits into that word and the rest's words. */
  lemma WordsCons(word: string, sp: char, rest: string)
    requires |word| > 0 && NoSpace(word) && IsSpace(sp)
    ensures Words(word + [sp] + rest) == [word] + Words(rest)
  {
    var s := word + [sp] + rest;
    assert s[|word|] == sp;
    var k := WordEnd(s, 0);
    assert k == |word|;
    assert s[..k] == word;
    assert s[k..][1..] == rest;
  }

  lemma WordsSingle(word: string)
    requires |word| > 0 && NoSpace(word)
    ensures Words(word) == [word]
  {
    assert !IsSpace(word[0]);
    var k := WordEnd(word, 0);
    assert k == |word|;
    assert word[..k] == word;
    assert word[k..] == [];
  }
}
