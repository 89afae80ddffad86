/** The string operations the scripts rely on, with the semantics of the
    Python and JavaScript built-ins they stand for: `str(int)`, `str.find`,
    `str.strip`, `startsWith`, `endsWith`, `includes`, and a count of
    leading blanks used to state indentation. */
module Text {

  // ---------------------------------------------------------------------
  // Decimal rendering of integers, as Python's str(int) and f-strings do

  predicate IsDigit(c: char) {
    '0' <= c <= '9'
  }

  predicate AllDigits(s: string) {
    forall k | 0 <= k < |s| :: IsDigit(s[k])
  }

  function DigitChar(d: nat): (c: char)
    requires d < 10
    ensures IsDigit(c) && DigitValue(c) == d
  {
    (48 + d) as char
  }

  function DigitValue(c: char): int {
    c as int - 48
  }

  /** Decimal digits of `n`, most significant first, no leading zero. */
  function NatToString(n: nat): (s: string)
    ensures |s| >= 1 && AllDigits(s)
    ensures s[0] == '0' ==> n == 0
    decreases n
  {
    if n < 10 then [DigitChar(n)] else NatToString(n / 10) + [DigitChar(n % 10)]
  }

  /** Python's `str(i)` for an int: a minus sign, then the digits of the magnitude. */
  function IntToString(i: int): (s: string)
    ensures |s| >= 1 && s[0] != ' '
    ensures s[0] == '-' <==> i < 0
  {
    if i < 0 then "-" + NatToString(-i) else NatToString(i)
  }

  /** The value of a string of decimal digits (the reading direction of NatToString). */
  function ParseDigits(s: string): int
    decreases |s|
  {
    if s == [] then 0 else ParseDigits(s[..|s| - 1]) * 10 + DigitValue(s[|s| - 1])
  }

  function ParseInt(s: string): int {
    if s != [] && s[0] == '-' then -ParseDigits(s[1..]) else ParseDigits(s)
  }

  /** Printing a number loses nothing: the digits read back as the number. */
  lemma {:induction false} NatToStringRoundTrip(n: nat)
    ensures ParseDigits(NatToString(n)) == n
    decreases n
  {
    var s := NatToString(n);
    if n >= 10 {
      NatToStringRoundTrip(n / 10);
      assert s[..|s| - 1] == NatToString(n / 10);
    }
  }

  lemma IntToStringRoundTrip(i: int)
    ensures ParseInt(IntToString(i)) == i
  {
    if i < 0 {
      NatToStringRoundTrip(-i);
      assert IntToString(i)[1..] == NatToString(-i);
    } else {
      NatToStringRoundTrip(i);
    }
  }

  // ---------------------------------------------------------------------
  // Searching

  /** `pat` occurs in `s` starting at index `k`. */
  predicate OccursAt(s: string, pat: string, k: int) {
    0 <= k && k + |pat| <= |s| && s[k..k + |pat|] == pat
  }

  /** Python's `s.find(pat, start)`: the lowest index at or after `start`
      where `pat` occurs, or -1 when there is none. */
  function Find(s: string, pat: string, start: nat): (r: int)
    ensures r == -1 || (start <= r && OccursAt(s, pat, r))
    ensures r >= 0 ==> forall k | start <= k < r :: !OccursAt(s, pat, k)
    ensures r == -1 ==> forall k | start <= k :: !OccursAt(s, pat, k)
    decreases |s| - start
  {
    if start + |pat| > |s| then -1
    else if s[start..start + |pat|] == pat then start
    else Find(s, pat, start + 1)
  }

  predicate StartsWith(s: string, prefix: string) {
    |prefix| <= |s| && s[..|prefix|] == prefix
  }

  predicate EndsWith(s: string, suffix: string) {
    |suffix| <= |s| && s[|s| - |suffix|..] == suffix
  }

  /** JavaScript's `s.includes(t)`. */
  predicate Contains(s: string, t: string) {
    Find(s, t, 0) >= 0
  }

  lemma OccurrenceIsContained(s: string, t: string, k: int)
    requires OccursAt(s, t, k)
    ensures Contains(s, t)
  {
  }

  /** An occurrence with none before it is the one `find` reports. */
  lemma FindIsFirst(s: string, pat: string, k: nat)
    requires OccursAt(s, pat, k) && forall i | 0 <= i < k :: !OccursAt(s, pat, i)
    ensures Find(s, pat, 0) == k
  {
  }

  /** A string lacking one of the characters of `pat` does not contain `pat`. */
  lemma MissingCharNotContained(s: string, pat: string, i: nat)
    requires i < |pat| && forall k | 0 <= k < |s| :: s[k] != pat[i]
    ensures !Contains(s, pat)
  {
    OccurrenceHasChar(s, pat, Find(s, pat, 0), i);
  }

  lemma OccurrenceHasChar(s: string, pat: string, k: int, i: nat)
    ensures OccursAt(s, pat, k) && i < |pat| ==> s[k + i] == pat[i]
  {
    if OccursAt(s, pat, k) && i < |pat| {
      assert s[k..k + |pat|][i] == pat[i];
    }
  }

  // ---------------------------------------------------------------------
  // Whitespace

  /** The code points Python's `str.isspace` accepts, i.e. the ones `str.strip()` removes. */
  predicate IsSpace(c: char) {
    var n := c as int;
    (9 <= n <= 13) || (28 <= n <= 32) || n == 0x85 || n == 0xA0 || n == 0x1680
    || (0x2000 <= n <= 0x200A) || n == 0x2028 || n == 0x2029 || n == 0x202F
    || n == 0x205F || n == 0x3000
  }

  function TrimStart(s: string): (r: string)
    ensures |r| <= |s| && r == s[|s| - |r|..]
    ensures forall k | 0 <= k < |s| - |r| :: IsSpace(s[k])
    ensures r == [] || !IsSpace(r[0])
    decreases |s|
  {
    if s != [] && IsSpace(s[0]) then TrimStart(s[1..]) else s
  }

  function TrimEnd(s: string): (r: string)
    ensures |r| <= |s| && r == s[..|r|]
    ensures forall k | |r| <= k < |s| :: IsSpace(s[k])
    ensures r == [] || !IsSpace(r[|r| - 1])
    decreases |s|
  {
    if s != [] && IsSpace(s[|s| - 1]) then TrimEnd(s[..|s| - 1]) else s
  }

  /** Python's `s.strip()`: the slice of `s` left once leading and trailing
      whitespace is removed. */
  function Strip(s: string): (r: string)
    ensures r == [] || (!IsSpace(r[0]) && !IsSpace(r[|r| - 1]))
    ensures var a := |s| - |TrimStart(s)|;
      a + |r| <= |s| && r == s[a..a + |r|]
      && (forall k | 0 <= k < a :: IsSpace(s[k]))
      && (forall k | a + |r| <= k < |s| :: IsSpace(s[k]))
  {
    TrimEnd(TrimStart(s))
  }

  lemma {:induction false} StripIdempotent(s: string)
    ensures Strip(Strip(s)) == Strip(s)
  {
    var r := Strip(s);
    assert TrimStart(r) == r;
    assert TrimEnd(r) == r;
  }

  /** Number of ' ' characters at the front of `s`. */
  function LeadingSpaces(s: string): (n: nat)
    ensures n <= |s|
    ensures forall k | 0 <= k < n :: s[k] == ' '
    ensures n < |s| ==> s[n] != ' '
    decreases |s|
  {
    if s != [] && s[0] == ' ' then 1 + LeadingSpaces(s[1..]) else 0
  }

  /** `n` blanks followed by a non-blank: exactly `n` leading spaces. */
  lemma LeadingSpacesExactly(s: string, n: nat)
    requires n < |s| && s[n] != ' '
    requires forall k | 0 <= k < n :: s[k] == ' '
    ensures LeadingSpaces(s) == n
  {
  }

  // ---------------------------------------------------------------------
  // Lists of lines

  /** Regrouping a concatenation of line lists, called by proofs that
      append to an accumulated list one piece at a time. */
  lemma AppendAssoc<T>(a: seq<T>, b: seq<T>, c: seq<T>)
    ensures (a + b) + c == a + (b + c)
  {
  }

  lemma PrefixOfAppend(a: seq<string>, b: seq<string>, c: seq<string>)
    requires a <= b
    ensures a <= b + c
  {
    assert forall k | 0 <= k < |a| :: (b + c)[k] == b[k];
  }

  lemma AppendPair(a: seq<string>, x: string, y: string)
    ensures (a + [x]) + [y] == a + [x, y]
  {
  }
}
