/** Byte strings and the text formats the tool reads and writes: lower-case
    hexadecimal digests (hashlib's `hexdigest()`), decimal numbers, the
    separator join of `str.join`, substring search (`in`) and `str.strip('"')`. */
module Text {
  import opened Wrappers

  newtype byte = x: int | 0 <= x < 256

  type Bytes = seq<byte>

  // ---------------------------------------------------------------------
  // Lower-case hexadecimal

  function HexDigit(n: int): (c: char)
    requires 0 <= n < 16
  {
    if n < 10 then ('0' as int + n) as char else ('a' as int + n - 10) as char
  }

  /** The value of a lower-case hexadecimal digit, or -1 for any other character. */
  function HexValue(c: char): (v: int)
    ensures -1 <= v < 16
  {
    if '0' <= c <= '9' then c as int - '0' as int
    else if 'a' <= c <= 'f' then c as int - 'a' as int + 10
    else -1
  }

  predicate IsHexDigit(c: char) {
    HexValue(c) >= 0
  }

  /** hexdigest(): two lower-case hex digits per byte, high nibble first. */
  function Hex(bs: Bytes): (r: string)
    ensures |r| == 2 * |bs|
    ensures forall i :: 0 <= i < |r| ==> IsHexDigit(r[i])
  {
    if bs == [] then ""
    else [HexDigit(bs[0] as int / 16), HexDigit(bs[0] as int % 16)] + Hex(bs[1..])
  }

  /** Reads back what Hex writes; None on an odd length or a character that is not a lower-case hex digit. */
  function UnHex(s: string): (r: Option<Bytes>)
    ensures r.Some? ==> |s| == 2 * |r.value|
  {
    if s == [] then Some([])
    else if |s| < 2 || HexValue(s[0]) < 0 || HexValue(s[1]) < 0 then None
    else match UnHex(s[2..])
      case None => None
      case Some(rest) => Some([(HexValue(s[0]) * 16 + HexValue(s[1])) as byte] + rest)
  }

  lemma {:induction false} UnHexHex(bs: Bytes)
    ensures UnHex(Hex(bs)) == Some(bs)
  {
    if bs != [] {
      var h := Hex(bs);
      var b := bs[0] as int;
      assert h[2..] == Hex(bs[1..]);
      assert HexValue(h[0]) == b / 16 && HexValue(h[1]) == b % 16;
      UnHexHex(bs[1..]);
      assert [(HexValue(h[0]) * 16 + HexValue(h[1])) as byte] + bs[1..] == bs;
    }
  }

  /** Two digests print alike only when they are the same bytes. */
  lemma HexInjective(a: Bytes, b: Bytes)
    requires Hex(a) == Hex(b)
    ensures a == b
  {
    UnHexHex(a);
    UnHexHex(b);
  }

  // ---------------------------------------------------------------------
  // Decimal numbers

  predicate IsDigit(c: char) {
    '0' <= c <= '9'
  }

  predicate AllDigits(s: string) {
    forall i :: 0 <= i < |s| ==> IsDigit(s[i])
  }

  /** Python's int() of a string of ASCII digits; leading zeros are allowed. */
  function DigitsValue(s: string): (n: nat)
    requires AllDigits(s)
  {
    if s == [] then 0
    else 10 * DigitsValue(s[..|s| - 1]) + (s[|s| - 1] as int - '0' as int)
  }

  /** Python's "{}".format(n) of a natural number. */
  function Decimal(n: nat): (s: string)
    ensures |s| > 0 && AllDigits(s)
  {
    if n < 10 then [('0' as int + n) as char]
    else Decimal(n / 10) + [('0' as int + n % 10) as char]
  }

  lemma {:induction false} DecimalRoundTrip(n: nat)
    ensures DigitsValue(Decimal(n)) == n
  {
    if n >= 10 {
      var s := Decimal(n);
      assert s[..|s| - 1] == Decimal(n / 10);
      DecimalRoundTrip(n / 10);
    }
  }

  // ---------------------------------------------------------------------
  // sep.join(parts)

  function Join(parts: seq<string>, sep: string): (r: string)
  {
    if |parts| == 0 then ""
    else if |parts| == 1 then parts[0]
    else Join(parts[..|parts| - 1], sep) + sep + parts[|parts| - 1]
  }

  // ---------------------------------------------------------------------
  // Substring test: Python's `p in s` on strings

  predicate IsPrefix(p: string, s: string) {
    |p| <= |s| && s[..|p|] == p
  }

  predicate Contains(s: string, p: string)
    decreases |s|
  {
    IsPrefix(p, s) || (s != [] && Contains(s[1..], p))
  }

  predicate OccursAt(s: string, p: string, j: int) {
    0 <= j <= |s| - |p| && s[j..j + |p|] == p
  }

  lemma {:induction false} ContainsIff(s: string, p: string)
    ensures Contains(s, p) <==> exists j :: OccursAt(s, p, j)
    decreases |s|
  {
    if IsPrefix(p, s) {
      assert OccursAt(s, p, 0);
    } else if s != [] {
      ContainsIff(s[1..], p);
      if j :| OccursAt(s[1..], p, j) {
        assert s[1..][j..j + |p|] == s[j + 1..j + 1 + |p|];
        assert OccursAt(s, p, j + 1);
      }
      if j :| OccursAt(s, p, j) {
        assert j != 0;
        assert s[j..j + |p|] == s[1..][j - 1..j - 1 + |p|];
        assert OccursAt(s[1..], p, j - 1);
      }
    }
  }

  // ---------------------------------------------------------------------
  // str.strip('"'): drop every leading and every trailing double quote

  function Quotes(n: nat): (q: string)
    ensures |q| == n && forall i :: 0 <= i < n ==> q[i] == '"'
  {
    if n == 0 then "" else "\"" + Quotes(n - 1)
  }

  predicate QuoteFree(t: string) {
    t == [] || (t[0] != '"' && t[|t| - 1] != '"')
  }

  function StripLeading(s: string): string {
    if s != [] && s[0] == '"' then StripLeading(s[1..]) else s
  }

  function StripTrailing(s: string): string {
    if s != [] && s[|s| - 1] == '"' then StripTrailing(s[..|s| - 1]) else s
  }

  function StripQuotes(s: string): string {
    StripTrailing(StripLeading(s))
  }

  /** StripLeading removes quotes only, and all of them. */
  lemma {:induction false} StripLeadingRemovesQuotes(s: string)
    ensures |StripLeading(s)| <= |s| && s == Quotes(|s| - |StripLeading(s)|) + StripLeading(s)
    ensures StripLeading(s) == [] || StripLeading(s)[0] != '"'
  {
    if s != [] && s[0] == '"' {
      StripLeadingRemovesQuotes(s[1..]);
      assert s == "\"" + s[1..];
    }
  }

  /** StripTrailing removes quotes only, and all of them. */
  lemma {:induction false} StripTrailingRemovesQuotes(s: string)
    ensures |StripTrailing(s)| <= |s| && s == StripTrailing(s) + Quotes(|s| - |StripTrailing(s)|)
    ensures StripTrailing(s) == [] || StripTrailing(s)[|StripTrailing(s)| - 1] != '"'
  {
    if s != [] && s[|s| - 1] == '"' {
      var init := s[..|s| - 1];
      StripTrailingRemovesQuotes(init);
      var n := |init| - |StripTrailing(init)|;
      assert Quotes(n) + "\"" == Quotes(n + 1);
      assert s == init + "\"";
    }
  }

  /** The stripped string keeps no quote at either end, and what was removed is quotes only. */
  lemma StripQuotesShape(s: string) returns (a: nat, b: nat)
    ensures QuoteFree(StripQuotes(s))
    ensures s == Quotes(a) + StripQuotes(s) + Quotes(b)
  {
    var l := StripLeading(s);
    var t := StripTrailing(l);
    StripLeadingRemovesQuotes(s);
    StripTrailingRemovesQuotes(l);
    a, b := |s| - |l|, |l| - |t|;
    assert s == Quotes(a) + l;
    assert l == t + Quotes(b);
    assert t != [] ==> t[0] == l[0];
    assert s == Quotes(a) + t + Quotes(b) by {
      assert Quotes(a) + l == Quotes(a) + (t + Quotes(b));
    }
  }

  /** No quote is left at either end. */
  lemma StripQuotesFree(s: string)
    ensures QuoteFree(StripQuotes(s))
  {
    var _, _ := StripQuotesShape(s);
  }

  lemma {:induction false} StripTrailingOf(t: string, b: nat)
    requires QuoteFree(t)
    ensures StripTrailing(t + Quotes(b)) == t
  {
    if b > 0 {
      var u := t + Quotes(b);
      assert u[..|u| - 1] == t + Quotes(b - 1);
      StripTrailingOf(t, b - 1);
    }
  }

  lemma {:induction false} StripLeadingOf(a: nat, t: string, b: nat)
    requires QuoteFree(t)
    ensures StripLeading(Quotes(a) + t + Quotes(b)) == if t == [] then [] else t + Quotes(b)
  {
    var u := Quotes(a) + t + Quotes(b);
    if a > 0 {
      assert u[1..] == Quotes(a - 1) + t + Quotes(b);
      StripLeadingOf(a - 1, t, b);
    } else if t == [] {
      assert u == Quotes(b);
      QuotesStripLeading(b);
    } else {
      assert u == t + Quotes(b);
    }
  }

  lemma {:induction false} QuotesStripLeading(n: nat)
    ensures StripLeading(Quotes(n)) == []
  {
    if n > 0 {
      assert Quotes(n)[1..] == Quotes(n - 1);
      QuotesStripLeading(n - 1);
    }
  }

  /** Stripping removes exactly the quotes around a quote-free core. */
  lemma StripQuotesOf(a: nat, t: string, b: nat)
    requires QuoteFree(t)
    ensures StripQuotes(Quotes(a) + t + Quotes(b)) == t
  {
    StripLeadingOf(a, t, b);
    if t != [] {
      StripTrailingOf(t, b);
    }
  }

  lemma QuotesAround(a: nat, t: string, b: nat)
    ensures "\"" + (Quotes(a) + t + Quotes(b)) + "\"" == Quotes(a + 1) + t + Quotes(b + 1)
  {
    var qa, qb := Quotes(a), Quotes(b);
    assert "\"" + qa == Quotes(a + 1);
    assert qb + "\"" == Quotes(b + 1);
  }

  /** Quoted (wire) and bare forms strip to the same string. */
  lemma StripQuotesWrapped(s: string)
    ensures StripQuotes("\"" + s + "\"") == StripQuotes(s)
  {
    var a, b := StripQuotesShape(s);
    var t := StripQuotes(s);
    QuotesAround(a, t, b);
    StripQuotesOf(a + 1, t, b + 1);
  }

  lemma StripQuotesIdempotent(s: string)
    ensures StripQuotes(StripQuotes(s)) == StripQuotes(s)
  {
    var _, _ := StripQuotesShape(s);
    var t := StripQuotes(s);
    assert t == Quotes(0) + t + Quotes(0);
    StripQuotesOf(0, t, 0);
  }
}
