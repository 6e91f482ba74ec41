/** Text produced by the overview report: Python's `str` of an integer, the
    two-digit padding of `pprocess`, and the per-station flag string. */
module Report {

  predicate IsDigits(s: string)
  {
    forall k | 0 <= k < |s| :: '0' <= s[k] <= '9'
  }

  function DigitChar(d: nat): (c: char)
    requires d < 10
  {
    (48 + d) as char
  }

  function DigitValue(c: char): nat
    requires '0' <= c <= '9'
  {
    c as int - 48
  }

  /** The number a string of decimal digits denotes (leading zeros allowed). */
  function DecimalValue(s: string): nat
    requires IsDigits(s)
  {
    if s == [] then 0 else 10 * DecimalValue(s[..|s| - 1]) + DigitValue(s[|s| - 1])
  }

  /** Decimal rendering of a natural number, without leading zeros. */
  function NatToDecimal(n: nat): (s: string)
    ensures |s| >= 1 && IsDigits(s)
    ensures s[0] == '0' <==> n == 0
    ensures |s| == 1 <==> n < 10
    ensures 10 <= n < 100 ==> |s| == 2
  {
    if n < 10 then [DigitChar(n)] else NatToDecimal(n / 10) + [DigitChar(n % 10)]
  }

  /** Reading back the rendering of `n` gives `n`. */
  lemma {:induction false} DecimalRoundTrip(n: nat)
    ensures DecimalValue(NatToDecimal(n)) == n
  {
    if n >= 10 {
      var s := NatToDecimal(n);
      assert s[..|s| - 1] == NatToDecimal(n / 10);
      DecimalRoundTrip(n / 10);
    }
  }

  /** Python's `str(n)` for an integer. */
  function Str(n: int): (s: string)
    ensures n >= 0 ==> |s| >= 1 && IsDigits(s) && DecimalValue(s) == n && (s[0] == '0' ==> n == 0)
    ensures n < 0 ==> |s| >= 2 && s[0] == '-' && IsDigits(s[1..]) && DecimalValue(s[1..]) == -n
    ensures n >= 0 ==> (|s| == 1 <==> n < 10)
    ensures n < 0 ==> s[1] != '0'
  {
    if n < 0 then
      var d := NatToDecimal(-n);
      DecimalRoundTrip(-n);
      assert ("-" + d)[1..] == d;
      "-" + d
    else
      DecimalRoundTrip(n);
      NatToDecimal(n)
  }

  /** `pprocess(N)` for an integer `N`: a leading '0' is added exactly when
      `N` has one digit and is positive; the value shown is always `N`. */
  function PProcess(n: int): (r: string)
    ensures r == Str(n) || r == "0" + Str(n)
    ensures r != Str(n) <==> 0 < n < 10
    ensures n >= 0 ==> IsDigits(r) && DecimalValue(r) == n
    ensures n > 0 ==> (r[0] == '0' <==> n < 10)
    ensures 0 < n < 100 ==> |r| == 2
    ensures n == 0 ==> r == "0"
  {
    if 0 < n < 10 then
      var s := Str(n);
      assert |s| == 1;
      assert DecimalValue("0" + s) == DecimalValue(s) by {
        assert ("0" + s)[..1] == "0";
      }
      "0" + s
    else
      Str(n)
  }

  /** `t` occurs in `s` as a contiguous piece. */
  predicate Contains(s: string, t: string)
  {
    exists k | 0 <= k <= |s| - |t| :: s[k..][..|t|] == t
  }

  lemma ContainsMiddle(a: string, t: string, b: string)
    ensures Contains(a + t + b, t)
  {
    var s := a + t + b;
    assert s[|a|..][..|t|] == t;
  }

  /** A piece of `s` uses only characters of `s`. */
  lemma ContainsChar(s: string, t: string, c: char)
    requires Contains(s, t) && c in t
    ensures c in s
  {
  }

  const NoFlasks: string := "no flasks, "
  const Under3: string := "under 3, "
  const Overdue: string := "N < weeks, "

  /** The flag string `overview` builds for a station holding `n` pairs,
      tested against the value `weeks` has at that point. */
  function StationFlag(n: nat, weeks: real): (flag: string)
    ensures |flag| > 0 && (flag[0] == ' ' <==> n > 0)
  {
    (if n > 0 then " " else NoFlasks)
    + (if n < 3 then Under3 else "")
    + (if (n as real) < weeks then Overdue else "")
  }

  /** The flag starts with "no flasks, " for an empty station, and that
      flag appears exactly then. */
  lemma FlagNoFlasks(n: nat, weeks: real)
    ensures Contains(StationFlag(n, weeks), NoFlasks) <==> n == 0
    ensures n == 0 ==> StationFlag(n, weeks)[..|NoFlasks|] == NoFlasks
  {
    var rest := (if n < 3 then Under3 else "") + (if (n as real) < weeks then Overdue else "");
    var flag := StationFlag(n, weeks);
    if n == 0 {
      assert flag == [] + NoFlasks + rest;
      ContainsMiddle([], NoFlasks, rest);
    } else {
      assert flag == " " + rest;
      assert 'f' !in flag;
      if Contains(flag, NoFlasks) {
        ContainsChar(flag, NoFlasks, 'f');
      }
    }
  }

  /** "under 3, " appears in the flag exactly when fewer than three pairs
      are out. */
  lemma FlagUnder3(n: nat, weeks: real)
    ensures Contains(StationFlag(n, weeks), Under3) <==> n < 3
  {
    var head := if n > 0 then " " else NoFlasks;
    var tail := if (n as real) < weeks then Overdue else "";
    var flag := StationFlag(n, weeks);
    if n < 3 {
      assert flag == head + Under3 + tail;
      ContainsMiddle(head, Under3, tail);
    } else {
      assert flag == head + tail;
      assert 'u' !in flag;
      if Contains(flag, Under3) {
        ContainsChar(flag, Under3, 'u');
      }
    }
  }

  /** "N < weeks, " appears in the flag exactly when the pair count is
      below the week count, and it is then the last flag. */
  lemma FlagOverdue(n: nat, weeks: real)
    ensures Contains(StationFlag(n, weeks), Overdue) <==> (n as real) < weeks
    ensures (n as real) < weeks ==> StationFlag(n, weeks)[|StationFlag(n, weeks)| - |Overdue|..] == Overdue
  {
    var head := (if n > 0 then " " else NoFlasks) + (if n < 3 then Under3 else "");
    var flag := StationFlag(n, weeks);
    if (n as real) < weeks {
      assert flag == head + Overdue + [];
      ContainsMiddle(head, Overdue, []);
    } else {
      assert flag == head;
      assert 'N' !in flag;
      if Contains(flag, Overdue) {
        ContainsChar(flag, Overdue, 'N');
      }
    }
  }

  /** For a station with shipments, `weeks` is `days / 7.0` for the whole
      number of days since the newest shipment; the overdue flag is then
      set exactly when seven times the pair count is below that day count. */
  lemma OverdueInDays(n: nat, days: int)
    ensures Contains(StationFlag(n, (days as real) / 7.0), Overdue) <==> 7 * n < days
  {
    FlagOverdue(n, (days as real) / 7.0);
    assert (n as real) < (days as real) / 7.0 <==> ((7 * n) as real) < (days as real);
  }
}
