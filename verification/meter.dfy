/**
 Time signatures. A signature is stored as the string "N/M"; only the
 numerator N (beats per bar) enters the timing arithmetic, read with
 `parseInt(signature.split("/")[0], 10)`.
 */
module Meter {
  import opened Maybe

  /** The signatures the wizard offers. */
  const TimeSignatures: seq<string> := ["4/4", "3/4", "6/8", "2/4"]

  /** `s.split("/")[0]`: everything before the first slash. */
  function BeforeSlash(s: string): (r: string)
    ensures |r| <= |s| && r == s[..|r|]
    ensures '/' !in r
    ensures |r| == |s| || s[|r|] == '/'
  {
    if |s| == 0 || s[0] == '/' then "" else [s[0]] + BeforeSlash(s[1..])
  }

  predicate IsDigit(c: char)
  {
    '0' <= c <= '9'
  }

  /** The longest prefix of decimal digits. */
  function LeadingDigits(s: string): (r: string)
    ensures |r| <= |s| && r == s[..|r|]
    ensures forall k :: 0 <= k < |r| ==> IsDigit(r[k])
    ensures |r| == |s| || !IsDigit(s[|r|])
  {
    if |s| == 0 || !IsDigit(s[0]) then "" else [s[0]] + LeadingDigits(s[1..])
  }

  /** Value of a string of decimal digits, most significant first. */
  function DigitsValue(ds: string): nat
    requires forall k :: 0 <= k < |ds| ==> IsDigit(ds[k])
  {
    if |ds| == 0 then 0
    else
      assert IsDigit(ds[|ds| - 1]);
      10 * DigitsValue(ds[..|ds| - 1]) + (ds[|ds| - 1] as int - '0' as int)
  }

  /**
   `parseInt(s, 10)` on an unsigned numeral: the value of the leading
   digits, or `None` (NaN) when `s` does not start with a digit.
   */
  function ParseLeadingInt(s: string): (r: Option<nat>)
    ensures r.None? <==> |s| == 0 || !IsDigit(s[0])
  {
    var ds := LeadingDigits(s);
    if |ds| == 0 then None else Some(DigitsValue(ds))
  }

  /** Beats per bar of a signature string. */
  function BeatsPerBar(signature: string): (r: Option<nat>)
    ensures r.None? <==> |signature| == 0 || !IsDigit(signature[0])
  {
    ParseLeadingInt(BeforeSlash(signature))
  }

  /** A signature whose numerator reads as a positive number of beats. */
  predicate WellFormed(signature: string)
  {
    BeatsPerBar(signature).Some? && BeatsPerBar(signature).value > 0
  }

  lemma {:induction false} LeadingDigitsOfDigits(ds: string, rest: string)
    requires forall k :: 0 <= k < |ds| ==> IsDigit(ds[k])
    requires |rest| == 0 || !IsDigit(rest[0])
    ensures LeadingDigits(ds + rest) == ds
    decreases |ds|
  {
    if |ds| == 0 {
      assert ds + rest == rest;
    } else {
      assert (ds + rest)[1..] == ds[1..] + rest;
      LeadingDigitsOfDigits(ds[1..], rest);
    }
  }

  lemma {:induction false} BeforeSlashOf(ds: string, rest: string)
    requires '/' !in ds
    ensures BeforeSlash(ds + "/" + rest) == ds
    decreases |ds|
  {
    if |ds| == 0 {
      assert ds + "/" + rest == "/" + rest;
    } else {
      assert (ds + "/" + rest)[1..] == ds[1..] + "/" + rest;
      assert ds[0] != '/';
      BeforeSlashOf(ds[1..], rest);
    }
  }

  /** A numerator written in digits reads back as its value, whatever the denominator. */
  lemma NumeratorRoundTrip(ds: string, rest: string)
    requires |ds| > 0
    requires forall k :: 0 <= k < |ds| ==> IsDigit(ds[k])
    ensures BeatsPerBar(ds + "/" + rest) == Some(DigitsValue(ds))
  {
    assert '/' !in ds by {
      forall k | 0 <= k < |ds|
        ensures ds[k] != '/'
      {
        assert IsDigit(ds[k]);
      }
    }
    BeforeSlashOf(ds, rest);
    LeadingDigitsOfDigits(ds, "");
    assert ds + "" == ds;
  }

  /** The four offered signatures have 4, 3, 6 and 2 beats per bar. */
  lemma OfferedSignatures()
    ensures BeatsPerBar("4/4") == Some(4)
    ensures BeatsPerBar("3/4") == Some(3)
    ensures BeatsPerBar("6/8") == Some(6)
    ensures BeatsPerBar("2/4") == Some(2)
    ensures forall sig :: sig in TimeSignatures ==> WellFormed(sig)
  {
    NumeratorRoundTrip("4", "4");
    NumeratorRoundTrip("3", "4");
    NumeratorRoundTrip("6", "8");
    NumeratorRoundTrip("2", "4");
    assert "4" + "/" + "4" == "4/4";
    assert "3" + "/" + "4" == "3/4";
    assert "6" + "/" + "8" == "6/8";
    assert "2" + "/" + "4" == "2/4";
    assert DigitsValue("4") == 4 by { assert "4"[..0] == ""; }
    assert DigitsValue("3") == 3 by { assert "3"[..0] == ""; }
    assert DigitsValue("6") == 6 by { assert "6"[..0] == ""; }
    assert DigitsValue("2") == 2 by { assert "2"[..0] == ""; }
  }
}
