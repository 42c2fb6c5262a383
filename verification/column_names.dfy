/** Names of signal columns: a moving-average column for window w is called
    "MA" followed by w written in decimal, the way Python formats an int. */
module ColumnNames {

  function DigitChar(d: nat): (c: char)
    requires d < 10
    ensures '0' <= c <= '9'
  {
    ('0' as int + d) as char
  }

  function DigitValue(c: char): nat
  {
    if '0' <= c <= '9' then c as int - '0' as int else 0
  }

  /** Decimal digits of n, most significant first, without leading zeros. */
  function Decimal(n: nat): (s: string)
    ensures |s| >= 1
    ensures forall i :: 0 <= i < |s| ==> '0' <= s[i] <= '9'
  {
    if n < 10 then [DigitChar(n)] else Decimal(n / 10) + [DigitChar(n % 10)]
  }

  /** Reading decimal digits back as a number. */
  function DecimalValue(s: string): nat
  {
    if |s| == 0 then 0 else 10 * DecimalValue(s[..|s| - 1]) + DigitValue(s[|s| - 1])
  }

  /** Writing a number in decimal and reading it back gives the number. */
  lemma {:induction false} DecimalRoundTrip(n: nat)
    ensures DecimalValue(Decimal(n)) == n
  {
    if n >= 10 {
      DecimalRoundTrip(n / 10);
      var s := Decimal(n);
      assert s[..|s| - 1] == Decimal(n / 10);
    }
  }

  /** The first digit is a zero only for the number zero itself, so the
      digits carry no leading zeros. */
  lemma {:induction false} DecimalLeadingDigit(n: nat)
    ensures Decimal(n)[0] == '0' <==> n == 0
  {
    if n >= 10 {
      DecimalLeadingDigit(n / 10);
      assert Decimal(n)[0] == Decimal(n / 10)[0];
    }
  }

  /** Python's `str` of an int: a minus sign before the digits of a negative. */
  function IntText(i: int): (s: string)
    ensures |s| >= 1
    ensures s[0] == '-' <==> i < 0
  {
    if i < 0 then "-" + Decimal(-i) else Decimal(i)
  }

  /** `get_column_name`. */
  function ColumnName(window: int): (name: string)
    ensures |name| >= 3 && name[..2] == "MA"
  {
    "MA" + IntText(window)
  }

  /** Reading Python's `str` of an int back. */
  function IntValue(s: string): int
  {
    if |s| > 0 && s[0] == '-' then -(DecimalValue(s[1..]) as int) else DecimalValue(s)
  }

  /** Formatting an int and reading it back gives the int. */
  lemma IntTextRoundTrip(i: int)
    ensures IntValue(IntText(i)) == i
  {
    var s := IntText(i);
    if i < 0 {
      assert s == "-" + Decimal(-i);
      assert s[0] == '-' && s[1..] == Decimal(-i);
      DecimalRoundTrip(-i);
      assert IntValue(s) == -(DecimalValue(s[1..]) as int);
    } else {
      assert s == Decimal(i) && s[0] != '-';
      DecimalRoundTrip(i);
    }
  }

  /** Distinct windows give distinct column names, and equal windows equal ones. */
  lemma ColumnNameInjective(a: int, b: int)
    ensures ColumnName(a) == ColumnName(b) <==> a == b
  {
    if ColumnName(a) == ColumnName(b) {
      assert ColumnName(a)[2..] == IntText(a);
      assert ColumnName(b)[2..] == IntText(b);
      IntTextRoundTrip(a);
      IntTextRoundTrip(b);
    }
  }

  /** A signal column never shares its name with a column the strategy
      itself reads or writes. */
  lemma ColumnNameNotReserved(window: int)
    ensures ColumnName(window) !in {"Close", "Shares", "CloseTomorrow", "Profit", "Wealth"}
  {
    var name := ColumnName(window);
    assert name[0] == 'M';
    assert "Close"[0] == 'C' && "Shares"[0] == 'S' && "CloseTomorrow"[0] == 'C';
    assert "Profit"[0] == 'P' && "Wealth"[0] == 'W';
  }
}
