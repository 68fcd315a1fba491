/** What an asset is: its type, its affiliation and its id "Asset_" followed
    by its 1-based number written in decimal, zero-padded to three digits. */
module Identity {

  datatype AssetType = Vessel | Personnel | Vehicle | Aircraft

  datatype Affiliation = Friend | Unknown | Neutral

  predicate IsDigit(c: char) { '0' <= c <= '9' }

  predicate AllDigits(s: string) { forall k :: 0 <= k < |s| ==> IsDigit(s[k]) }

  function DigitChar(d: nat): (c: char)
    requires d < 10
    ensures IsDigit(c) && c as int - '0' as int == d
  {
    ('0' as int + d) as char
  }

  /** The value of a string of decimal digits; leading zeros are allowed. */
  function DigitsValue(s: string): (v: int)
  {
    if s == [] then 0
    else 10 * DigitsValue(s[..|s| - 1]) + (s[|s| - 1] as int - '0' as int)
  }

  /** The decimal representation of n, without leading zeros. */
  function Decimal(n: nat): (s: string)
    ensures |s| >= 1
    ensures n > 0 ==> s[0] != '0'
    decreases n
  {
    if n < 10 then [DigitChar(n)] else Decimal(n / 10) + [DigitChar(n % 10)]
  }

  /** Python's "{:0<width>d}" on a digit string: zeros in front up to the width. */
  function ZeroPad(s: string, width: nat): (p: string)
    ensures |p| == if |s| >= width then |s| else width
    decreases width - |s|
  {
    if |s| >= width then s else ZeroPad(['0'] + s, width)
  }

  const Prefix: string := "Asset_"

  /** The id of the asset created at 0-based position i, f"Asset_{i+1:03d}". */
  function AssetId(i: nat): (id: string)
    ensures |id| == |Prefix| + (if |Decimal(i + 1)| >= 3 then |Decimal(i + 1)| else 3)
    ensures id[..|Prefix|] == Prefix
  {
    Prefix + ZeroPad(Decimal(i + 1), 3)
  }

  /** Reading back the digits of n's representation gives n. */
  lemma {:induction false} DecimalRoundTrip(n: nat)
    ensures DigitsValue(Decimal(n)) == n
    decreases n
  {
    if n >= 10 {
      DecimalRoundTrip(n / 10);
      var s := Decimal(n);
      assert s[..|s| - 1] == Decimal(n / 10);
    }
  }

  /** A leading zero does not change the value of a digit string. */
  lemma {:induction false} LeadingZeroValue(s: string)
    ensures DigitsValue(['0'] + s) == DigitsValue(s)
    decreases |s|
  {
    if s != [] {
      var t := ['0'] + s;
      assert t[..|t| - 1] == ['0'] + s[..|s| - 1];
      LeadingZeroValue(s[..|s| - 1]);
    } else {
      assert (['0'] + s)[..0] == [];
    }
  }

  /** Padding does not change the value, nor that the string is all digits. */
  lemma {:induction false} ZeroPadValue(s: string, width: nat)
    ensures DigitsValue(ZeroPad(s, width)) == DigitsValue(s)
    ensures AllDigits(s) ==> AllDigits(ZeroPad(s, width))
    decreases width - |s|
  {
    if |s| < width {
      LeadingZeroValue(s);
      ZeroPadValue(['0'] + s, width);
    }
  }

  lemma {:induction false} DecimalDigits(n: nat)
    ensures AllDigits(Decimal(n))
    decreases n
  {
    if n >= 10 {
      DecimalDigits(n / 10);
    }
  }

  /** An id is "Asset_" followed by at least three decimal digits. */
  lemma AssetIdShape(i: nat)
    ensures |AssetId(i)| >= |Prefix| + 3 && AssetId(i)[..|Prefix|] == Prefix
    ensures AllDigits(AssetId(i)[|Prefix|..])
    ensures |AssetId(i)| == |Prefix| + (if |Decimal(i + 1)| >= 3 then |Decimal(i + 1)| else 3)
  {
    DecimalDigits(i + 1);
    ZeroPadValue(Decimal(i + 1), 3);
    assert AssetId(i)[|Prefix|..] == ZeroPad(Decimal(i + 1), 3);
  }

  /** The digits of an asset's id read back as its 1-based number. */
  lemma AssetIdNumber(i: nat)
    ensures DigitsValue(AssetId(i)[|Prefix|..]) == i + 1
  {
    assert AssetId(i)[|Prefix|..] == ZeroPad(Decimal(i + 1), 3);
    DecimalRoundTrip(i + 1);
    ZeroPadValue(Decimal(i + 1), 3);
  }

  /** Assets at different positions get different ids. */
  lemma AssetIdInjective(i: nat, j: nat)
    ensures AssetId(i) == AssetId(j) <==> i == j
  {
    if AssetId(i) == AssetId(j) {
      AssetIdNumber(i);
      AssetIdNumber(j);
    }
  }

  /** The padding is a minimum width, not a maximum. */
  lemma AssetIdExamples()
    ensures AssetId(0) == "Asset_001"
    ensures AssetId(41) == "Asset_042"
    ensures AssetId(999) == "Asset_1000"
  {
    assert Decimal(1) == "1";
    assert ZeroPad("1", 3) == "001";
    assert Decimal(42) == "42";
    assert ZeroPad("42", 3) == "042";
    assert Decimal(1000) == "1000" by {
      assert Decimal(1) == "1";
      assert Decimal(10) == "10";
      assert Decimal(100) == "100";
    }
  }
}
