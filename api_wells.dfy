/**
 * Well ids in the HDF expression tables: the table writer names each column
 * `"well_id_" + str(n)` (`alleninf/utils.py`) and the reader recovers `n`
 * with `int(col[len("well_id_"):])` (`alleninf/api.py`).
 */
module ApiWells {
  import opened Wrappers

  const WellPrefix: string := "well_id_"

  predicate IsDigit(c: char)
  {
    '0' <= c <= '9'
  }

  function DigitChar(d: nat): (c: char)
    requires d < 10
    ensures IsDigit(c) && (c as int) - ('0' as int) == d
  {
    ('0' as int + d) as char
  }

  /** `str(n)` for a non-negative integer: decimal digits, no leading zeros. */
  function NatToString(n: nat): (s: string)
    ensures |s| > 0 && forall i :: 0 <= i < |s| ==> IsDigit(s[i])
    ensures |s| > 1 ==> s[0] != '0'
  {
    if n < 10 then [DigitChar(n)] else NatToString(n / 10) + [DigitChar(n % 10)]
  }

  /** `str(n)`. */
  function IntToString(n: int): (s: string)
    ensures |s| > 0
    ensures n < 0 <==> s[0] == '-'
  {
    if n < 0 then "-" + NatToString(-n) else NatToString(n)
  }

  /** The value of a run of decimal digits. */
  function DigitsValue(s: string): nat
    requires forall i :: 0 <= i < |s| ==> IsDigit(s[i])
  {
    if s == [] then 0
    else
      assert IsDigit(s[|s| - 1]);
      DigitsValue(s[..|s| - 1]) * 10 + ((s[|s| - 1] as int) - ('0' as int))
  }

  /** `int(s)` on a string of digits with an optional sign; anything else is a `ValueError` (`None`). */
  function ParseInt(s: string): (r: Option<int>)
    ensures r.Some? ==> |s| > 0
  {
    var signed := |s| > 0 && (s[0] == '-' || s[0] == '+');
    var digits := if signed then s[1..] else s;
    if |digits| == 0 || exists i :: 0 <= i < |digits| && !IsDigit(digits[i]) then None
    else if |s| > 0 && s[0] == '-' then Some(-(DigitsValue(digits) as int))
    else Some(DigitsValue(digits))
  }

  /** The column name the table writer gives to well `n`. */
  function WellColumnName(n: int): (col: string)
    ensures |col| > |WellPrefix| && col[..|WellPrefix|] == WellPrefix
  {
    WellPrefix + IntToString(n)
  }

  /** `int(col[len("well_id_"):])`; a name shorter than the prefix slices to "" and fails. */
  function WellIdFromColumn(col: string): Option<int>
  {
    ParseInt(if |col| <= |WellPrefix| then "" else col[|WellPrefix|..])
  }

  lemma {:induction false} DigitsOfNat(n: nat)
    ensures DigitsValue(NatToString(n)) == n
  {
    var s := NatToString(n);
    if n >= 10 {
      DigitsOfNat(n / 10);
      assert s[..|s| - 1] == NatToString(n / 10);
    } else {
      assert s[..0] == [];
    }
  }

  /** `int(str(n)) == n` for every integer. */
  lemma IntStringRoundTrip(n: int)
    ensures ParseInt(IntToString(n)) == Some(n)
  {
    var s := IntToString(n);
    if n < 0 {
      DigitsOfNat(-n);
      assert s[1..] == NatToString(-n);
    } else {
      DigitsOfNat(n);
    }
  }

  /** Reading back the column the writer named for well `n` gives `n`. */
  lemma WellColumnRoundTrip(n: int)
    ensures WellIdFromColumn(WellColumnName(n)) == Some(n)
  {
    assert WellColumnName(n)[|WellPrefix|..] == IntToString(n);
    IntStringRoundTrip(n);
  }

  /** Distinct wells get distinct column names. */
  lemma WellColumnNamesDistinct(m: int, n: int)
    requires m != n
    ensures WellColumnName(m) != WellColumnName(n)
  {
    WellColumnRoundTrip(m);
    WellColumnRoundTrip(n);
  }

  /** A column whose name is only the prefix, or shorter, does not parse. */
  lemma BareColumnFails(col: string)
    requires |col| <= |WellPrefix|
    ensures WellIdFromColumn(col) == None
  {
  }
}
