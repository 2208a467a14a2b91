/** `validate_chunks`: the command line's chunk-size argument, one or more
    decimal digits optionally followed by KB, MB, GB or TB, matched against
    the whole string, times the unit's power of 1024. The function is the
    same in both copies of argsParser.py (the package and its build copy). */
module ArgsParser {
  import opened Wrappers
  import opened Text

  /** The suffixes in the order of the conversion table, unit k standing for 1024^k. */
  const Units: seq<string> := ["", "KB", "MB", "GB", "TB"]

  /** The optional group `([KMGT]B)` of the pattern. */
  predicate IsUnit(u: string) {
    u == "KB" || u == "MB" || u == "GB" || u == "TB"
  }

  predicate IsSuffix(u: string) {
    u == "" || IsUnit(u)
  }

  function Pow1024(k: nat): nat {
    if k == 0 then 1 else 1024 * Pow1024(k - 1)
  }

  /** The table `convert_literals`. */
  function UnitFactor(u: string): (f: nat)
    requires IsSuffix(u)
  {
    match u
    case "" => 1
    case "KB" => 1024
    case "MB" => 1048576
    case "GB" => 1073741824
    case "TB" => 1099511627776
  }

  /** The pattern `(\d+)([KMGT]B)?` matches the whole of s with the digits ending at k. */
  predicate MatchAt(s: string, k: int) {
    0 < k <= |s| && AllDigits(s[..k]) && IsSuffix(s[k..])
  }

  ghost predicate FullMatch(s: string) {
    exists k :: MatchAt(s, k)
  }

  /** Splits off a trailing unit if there is one. */
  function SplitUnit(s: string): (string, string) {
    if |s| >= 2 && IsUnit(s[|s| - 2..]) then (s[..|s| - 2], s[|s| - 2..]) else (s, "")
  }

  function ValidateChunks(s: string): (r: Result<nat, string>)
    ensures r.Failure? ==> r.error == "invalid chunk size " + s + "!"
  {
    var (digits, unit) := SplitUnit(s);
    if digits != "" && AllDigits(digits) then Success(DigitsValue(digits) * UnitFactor(unit))
    else Failure("invalid chunk size " + s + "!")
  }

  /** There is at most one place where the digits can end: a unit ends in 'B', which is no digit. */
  lemma MatchAtUnique(s: string, k: int)
    requires MatchAt(s, k)
    ensures SplitUnit(s) == (s[..k], s[k..])
  {
    if s[k..] == "" {
      assert s[..k] == s;
      if |s| >= 2 {
        assert IsDigit(s[..k][|s| - 1]);
        assert s[|s| - 2..][1] == s[|s| - 1];
      }
    } else {
      assert |s[k..]| == 2;
    }
  }

  /** The parser accepts exactly the strings the pattern matches as a whole. */
  lemma ValidateChunksAccepts(s: string)
    ensures ValidateChunks(s).Success? <==> FullMatch(s)
  {
    var (digits, unit) := SplitUnit(s);
    if ValidateChunks(s).Success? {
      assert MatchAt(s, |digits|) by {
        assert s[..|digits|] == digits && s[|digits|..] == unit;
      }
    }
    if FullMatch(s) {
      var k :| MatchAt(s, k);
      MatchAtUnique(s, k);
    }
  }

  /** The value is int(digits) times the unit's factor, for the one way the pattern matches. */
  lemma ValidateChunksValue(s: string, k: int)
    requires MatchAt(s, k)
    ensures ValidateChunks(s) == Success(DigitsValue(s[..k]) * UnitFactor(s[k..]))
  {
    MatchAtUnique(s, k);
  }

  /** The conversion table holds the powers of 1024, in suffix order. */
  lemma UnitFactorIsPower(k: nat)
    requires k < |Units|
    ensures IsSuffix(Units[k]) && UnitFactor(Units[k]) == Pow1024(k)
  {
    assert Pow1024(1) == 1024;
    assert Pow1024(2) == 1048576;
    assert Pow1024(3) == 1073741824;
    assert Pow1024(4) == 1099511627776;
  }

  /** Writing a number in decimal with any of the suffixes reads back as that number of units. */
  lemma ValidateChunksRoundTrip(n: nat, k: nat)
    requires k < |Units|
    ensures ValidateChunks(Decimal(n) + Units[k]) == Success(n * Pow1024(k))
  {
    var d := Decimal(n);
    var s := d + Units[k];
    UnitFactorIsPower(k);
    assert s[..|d|] == d && s[|d|..] == Units[k];
    assert MatchAt(s, |d|);
    ValidateChunksValue(s, |d|);
    DecimalRoundTrip(n);
  }

  /** Digits followed by the k-th suffix are int(digits) * 1024^k. */
  lemma ValidateChunksSuffixed(d: string, k: nat)
    requires d != "" && AllDigits(d) && k < |Units|
    ensures ValidateChunks(d + Units[k]) == Success(DigitsValue(d) * Pow1024(k))
  {
    var s := d + Units[k];
    UnitFactorIsPower(k);
    assert s[..|d|] == d && s[|d|..] == Units[k];
    assert MatchAt(s, |d|);
    ValidateChunksValue(s, |d|);
  }

  lemma {:induction false} Pow1024Positive(k: nat)
    ensures Pow1024(k) > 0
  {
    if k > 0 {
      Pow1024Positive(k - 1);
    }
  }

  /** For fixed digits the size never decreases along none < KB < MB < GB < TB,
      and strictly increases unless the digits are all zero. */
  lemma ValidateChunksMonotone(d: string, j: nat)
    requires d != "" && AllDigits(d) && j + 1 < |Units|
    ensures ValidateChunks(d + Units[j]).Success? && ValidateChunks(d + Units[j + 1]).Success?
    ensures ValidateChunks(d + Units[j]).value <= ValidateChunks(d + Units[j + 1]).value
    ensures DigitsValue(d) > 0 ==> ValidateChunks(d + Units[j]).value < ValidateChunks(d + Units[j + 1]).value
  {
    ValidateChunksSuffixed(d, j);
    ValidateChunksSuffixed(d, j + 1);
    Pow1024Positive(j);
    ScaleUp(DigitsValue(d), Pow1024(j));
  }

  lemma ScaleUp(v: nat, p: nat)
    requires p > 0
    ensures v * p <= v * (1024 * p) && (v > 0 ==> v * p < v * (1024 * p))
  {
    assert v * (1024 * p) == v * p + 1023 * (v * p);
    assert v > 0 ==> v * p > 0;
  }

  /** The argument's default, "8MB", is 8 MiB. */
  lemma DefaultChunkSize()
    ensures ValidateChunks("8MB") == Success(8388608)
  {
    assert MatchAt("8MB", 1);
    ValidateChunksValue("8MB", 1);
  }

  /** Zero and leading zeros are accepted; there is no positivity check. */
  lemma ZeroAndLeadingZeros()
    ensures ValidateChunks("0") == Success(0)
    ensures ValidateChunks("008KB") == Success(8192)
  {
    assert MatchAt("0", 1);
    ValidateChunksValue("0", 1);
    assert MatchAt("008KB", 3);
    ValidateChunksValue("008KB", 3);
    assert "008KB"[..3] == "008";
  }

  /** Lower-case units, a bare B, a space and the empty string are all refused. */
  lemma RejectsMalformed()
    ensures ValidateChunks("8mb").Failure?
    ensures ValidateChunks("8B").Failure?
    ensures ValidateChunks("").Failure?
    ensures ValidateChunks("8 MB").Failure?
  {
    NoUnit("8mb", 'm');
    NoUnit("8B", '8');
    assert SplitUnit("8 MB") == ("8 ", "MB") by {
      assert "8 MB"[2..] == "MB" && "8 MB"[..2] == "8 ";
    }
  }

  /** A string whose next-to-last character is c, not one of K, M, G, T, has no unit to split off. */
  lemma NoUnit(s: string, c: char)
    requires |s| >= 2 && s[|s| - 2] == c && c !in "KMGT"
    ensures SplitUnit(s) == (s, "")
  {
    assert s[|s| - 2..][0] == c;
  }
}
