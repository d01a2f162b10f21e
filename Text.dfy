/** Character-level helpers: Python's whitespace stripping and zero-padded decimal rendering. */
module Text {

  /** The characters Python's `str.isspace()` accepts, which `str.strip()` removes from both ends. */
  predicate IsSpace(c: char) {
    || c == ' '
    || ('\t' <= c <= '\r')
    || ('\U{1C}' <= c <= '\U{1F}')
    || c == '\U{85}' || c == '\U{A0}' || c == '\U{1680}'
    || ('\U{2000}' <= c <= '\U{200A}')
    || c == '\U{2028}' || c == '\U{2029}' || c == '\U{202F}' || c == '\U{205F}' || c == '\U{3000}'
  }

  /** Drops leading whitespace: the result is a suffix of `s` that does not start with whitespace. */
  function TrimStart(s: string): (r: string)
    ensures |r| <= |s| && r == s[|s| - |r|..]
    ensures forall k :: 0 <= k < |s| - |r| ==> IsSpace(s[k])
    ensures r == [] || !IsSpace(r[0])
  {
    if s != [] && IsSpace(s[0]) then TrimStart(s[1..]) else s
  }

  /** Drops trailing whitespace: the result is a prefix of `s` that does not end with whitespace. */
  function TrimEnd(s: string): (r: string)
    ensures |r| <= |s| && r == s[..|r|]
    ensures forall k :: |r| <= k < |s| ==> IsSpace(s[k])
    ensures r == [] || !IsSpace(r[|r| - 1])
  {
    if s != [] && IsSpace(s[|s| - 1]) then TrimEnd(s[..|s| - 1]) else s
  }

  /** Python's `str.strip()`: what is left of `s` once leading whitespace is dropped
      (`TrimStart`) and then trailing whitespace. It is a prefix of `TrimStart(s)` and everything
      of `TrimStart(s)` after it is whitespace; it has no whitespace at either end, and it is
      empty exactly when `s` is all whitespace. */
  function Strip(s: string): (r: string)
    ensures r <= TrimStart(s)
    ensures forall k :: |r| <= k < |TrimStart(s)| ==> IsSpace(TrimStart(s)[k])
    ensures r == [] <==> forall k :: 0 <= k < |s| ==> IsSpace(s[k])
    ensures r != [] ==> !IsSpace(r[0]) && !IsSpace(r[|r| - 1])
  {
    var t := TrimStart(s);
    if t == [] then
      []
    else
      assert s[|s| - |t|] == t[0];
      TrimEndKeepsFirst(t);
      TrimEnd(t)
  }

  /** Two prefixes of `t`: when everything after the shorter one may be whitespace, the longer one
      cannot end in a non-space character unless it is no longer. */
  lemma SpaceAfterPrefix(t: string, q: string, r: string)
    requires q <= t && r <= t
    requires forall k :: |r| <= k < |t| ==> IsSpace(t[k])
    requires q == [] || !IsSpace(q[|q| - 1])
    ensures |q| <= |r|
  {
    if q != [] {
      assert q[|q| - 1] == t[|q| - 1];
    }
  }

  /** The contract of `Strip` pins its result down: any prefix of `TrimStart(s)` that is followed
      only by whitespace and does not itself end in whitespace is `Strip(s)`. */
  lemma StripUnique(s: string, r: string)
    requires r <= TrimStart(s)
    requires forall k :: |r| <= k < |TrimStart(s)| ==> IsSpace(TrimStart(s)[k])
    requires r == [] || !IsSpace(r[|r| - 1])
    ensures r == Strip(s)
  {
    var t, q := TrimStart(s), Strip(s);
    SpaceAfterPrefix(t, q, r);
    SpaceAfterPrefix(t, r, q);
  }

  /** Trailing whitespace cannot eat a text that starts with a non-space character. */
  lemma TrimEndKeepsFirst(t: string)
    requires t != [] && !IsSpace(t[0])
    ensures TrimEnd(t) != [] && TrimEnd(t)[0] == t[0]
  {
  }

  predicate IsDigit(c: char) {
    '0' <= c <= '9'
  }

  predicate AllDigits(s: string) {
    forall k :: 0 <= k < |s| ==> IsDigit(s[k])
  }

  function DigitChar(d: nat): (c: char)
    requires d < 10
    ensures IsDigit(c)
  {
    ('0' as int + d) as char
  }

  /** The number a string of decimal digits denotes, most significant digit first. */
  function DigitsValue(s: string): nat
    requires AllDigits(s)
  {
    if s == [] then 0 else DigitsValue(s[..|s| - 1]) * 10 + (s[|s| - 1] as int - '0' as int)
  }

  /** The shortest decimal rendering of `n` (Python's `str(n)` for a non-negative int):
      digits only, one digit below 10, two below 100, no leading zero. */
  function Decimal(n: nat): (r: string)
    ensures r != [] && AllDigits(r)
    ensures n < 10 ==> |r| == 1
    ensures 10 <= n < 100 ==> |r| == 2
    ensures n >= 100 ==> |r| >= 3
    ensures n > 0 ==> r[0] != '0'
  {
    if n < 10 then [DigitChar(n)] else Decimal(n / 10) + [DigitChar(n % 10)]
  }

  /** Reading the digits of `Decimal(n)` gives back `n`. */
  lemma {:induction false} DecimalValue(n: nat)
    ensures DigitsValue(Decimal(n)) == n
  {
    if n >= 10 {
      DecimalValue(n / 10);
      var r := Decimal(n);
      assert r[..|r| - 1] == Decimal(n / 10);
    }
  }

  /** Python's `f"{n:02d}"` for `n >= 0`: at least two digits, zero-filled on the left;
      exactly two digits below 100. */
  function Pad2(n: nat): (r: string)
    ensures |r| >= 2 && AllDigits(r)
    ensures |r| == 2 <==> n < 100
  {
    if n < 10 then ['0', DigitChar(n)] else Decimal(n)
  }

  /** Zero-filling adds a leading zero exactly to the one-digit numbers. */
  lemma Pad2LeadingZero(n: nat)
    ensures (Pad2(n)[0] == '0') <==> n < 10
  {
  }

  /** Zero-filling does not change the number the digits denote. */
  lemma Pad2Value(n: nat)
    ensures DigitsValue(Pad2(n)) == n
  {
    DecimalValue(n);
    if n < 10 {
      var r := Pad2(n);
      assert r[..1] == ['0'];
      assert DigitsValue(r[..1]) == 0;
    }
  }

  /** The two-digit renderings of the numbers below 100. */
  lemma Pad2Small(n: nat)
    requires n < 100
    ensures Pad2(n) == [DigitChar(n / 10), DigitChar(n % 10)]
  {
    if n >= 10 {
      assert Decimal(n / 10) == [DigitChar(n / 10)];
    }
  }
}
