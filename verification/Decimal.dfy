/** Decimal text of Go's 64-bit integers: fmt's %d and strconv.ParseInt(value, 10, 64). */
module Decimal {
  import opened Text
  import opened Wrappers

  const MAX_INT64: int := 0x7fff_ffff_ffff_ffff
  const MIN_INT64: int := -0x8000_0000_0000_0000

  predicate IsInt64(n: int) { MIN_INT64 <= n <= MAX_INT64 }

  /** Two's-complement wrap-around of adding one to a 64-bit counter. */
  function Next64(n: int): (r: int)
    ensures IsInt64(n) ==> IsInt64(r)
  {
    if n == MAX_INT64 then MIN_INT64 else n + 1
  }

  predicate IsDigit(c: char) { '0' <= c <= '9' }

  predicate AllDigits(s: string) { forall i :: 0 <= i < |s| ==> IsDigit(s[i]) }

  function DigitValue(c: char): nat
    requires IsDigit(c)
  {
    c as int - '0' as int
  }

  /** The number a digit string spells, most significant digit first; the empty string spells 0. */
  function Value(s: string): nat
    requires AllDigits(s)
  {
    if s == "" then 0 else 10 * Value(s[..|s| - 1]) + DigitValue(s[|s| - 1])
  }

  function PrintNat(n: nat): (s: string)
    ensures s != "" && AllDigits(s)
  {
    var d := [('0' as int + n % 10) as char];
    if n < 10 then d else PrintNat(n / 10) + d
  }

  function PrintInt(n: int): string {
    if n < 0 then "-" + PrintNat(-n) else PrintNat(n)
  }

  /** strconv.ParseInt: an optional sign, at least one digit, and a value that fits; None is its error. */
  function ParseInt64(s: string): (r: Option<int>)
    ensures r.Some? ==> IsInt64(r.value)
  {
    var negative := s != "" && s[0] == '-';
    var digits := if s != "" && (s[0] == '-' || s[0] == '+') then s[1..] else s;
    if digits == "" || !AllDigits(digits) then None
    else
      var v: int := Value(digits);
      var n: int := if negative then -v else v;
      if IsInt64(n) then Some(n) else None
  }

  lemma {:induction false} ValueOfPrint(n: nat)
    ensures Value(PrintNat(n)) == n
  {
    var d := [('0' as int + n % 10) as char];
    if n >= 10 {
      ValueOfPrint(n / 10);
      var s := PrintNat(n / 10) + d;
      assert s[..|s| - 1] == PrintNat(n / 10);
    } else {
      assert Value(d[..0]) == 0;
    }
  }

  /** Reading back what %d printed gives the number, for every 64-bit value. */
  lemma ParsePrint(n: int)
    requires IsInt64(n)
    ensures ParseInt64(PrintInt(n)) == Some(n)
  {
    var m := if n < 0 then -n else n;
    ValueOfPrint(m);
    var s := PrintInt(n);
    if n < 0 {
      assert s[1..] == PrintNat(m);
    } else {
      assert IsDigit(s[0]);
    }
  }

  /** Printed numbers hold only digits and a sign. */
  lemma PrintIntChars(n: int)
    ensures PrintInt(n) != "" && forall i :: 0 <= i < |PrintInt(n)| ==> IsDigit(PrintInt(n)[i]) || PrintInt(n)[i] == '-'
  {
  }

  /** The state files hold "%d\n", and are read back through strings.TrimSpace. */
  lemma FileTextRoundTrip(n: int)
    requires IsInt64(n)
    ensures ParseInt64(TrimSpace(PrintInt(n) + "\n")) == Some(n)
  {
    var p := PrintInt(n);
    PrintIntChars(n);
    var s := p + "\n";
    assert TrimLeft(s) == s by { assert s[0] == p[0]; }
    assert s[..|s| - 1] == p;
    assert TrimRight(s) == TrimRight(p) == p;
    ParsePrint(n);
  }

  // ---------------------------------------------------------------- which texts are numbers

  /** A digit string with an optional sign, and the number it stands for. */
  ghost predicate Spells(s: string, digits: string, n: int) {
    && digits != "" && AllDigits(digits)
    && ((s == digits && n == Value(digits)) || (s == "+" + digits && n == Value(digits))
        || (s == "-" + digits && n + Value(digits) == 0))
  }

  /** ParseInt64 accepts exactly signed digit strings whose number fits 64 bits. */
  lemma ParseInt64Iff(s: string, n: int)
    ensures ParseInt64(s) == Some(n)
       <==> -0x8000_0000_0000_0000 <= n < 0x8000_0000_0000_0000 && exists digits :: Spells(s, digits, n)
  {
    var digits := if s != "" && (s[0] == '-' || s[0] == '+') then s[1..] else s;
    if ParseInt64(s) == Some(n) {
      assert s != digits ==> s == [s[0]] + digits;
      assert Spells(s, digits, n);
    }
    if d :| Spells(s, d, n) {
      assert IsDigit(d[0]);
      assert d == digits;
    }
  }

  /** A printed number has no leading zero, so it is the only digit string of its value that has none. */
  lemma {:induction false} PrintNatCanonical(n: nat)
    ensures n > 0 ==> PrintNat(n)[0] != '0'
    ensures PrintNat(0) == "0"
  {
    if n >= 10 { PrintNatCanonical(n / 10); }
  }

  lemma {:induction false} CanonicalIsPrinted(s: string)
    requires s != "" && AllDigits(s) && (s[0] != '0' || |s| == 1)
    ensures PrintNat(Value(s)) == s
  {
    var m := |s| - 1;
    if m == 0 {
      assert s[..0] == "" && Value(s) == DigitValue(s[0]);
      assert PrintNat(Value(s)) == [s[0]];
    } else {
      CanonicalIsPrinted(s[..m]);
      PrintNatCanonical(0);
      assert s[..m][0] == s[0] && PrintNat(0)[0] == '0';
      assert Value(s) / 10 == Value(s[..m]) && Value(s) % 10 == DigitValue(s[m]);
      assert s == s[..m] + [s[m]];
    }
  }
}
