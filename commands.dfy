/** How the paging loop reads one line typed at its navigation prompt: the first
    character selects quit, previous or next, and any other line is handed to
    java.lang.Integer.parseInt as a page number. */
module Commands {
  import opened Wrappers

  /** The range of a Java `int`. */
  const MinInt: int := -0x8000_0000
  const MaxInt: int := 0x7fff_ffff

  predicate IsDigit(c: char) { '0' <= c <= '9' }

  predicate AllDigits(s: string) { forall i :: 0 <= i < |s| ==> IsDigit(s[i]) }

  function DigitValue(c: char): nat
    requires IsDigit(c)
  {
    c as int - '0' as int
  }

  function DigitChar(d: nat): (c: char)
    requires d < 10
    ensures IsDigit(c) && DigitValue(c) == d
  {
    ('0' as int + d) as char
  }

  /** The value of a string of decimal digits, most significant digit first. */
  function DigitsValue(s: string): nat
    requires AllDigits(s)
  {
    if s == [] then 0 else 10 * DigitsValue(s[..|s| - 1]) + DigitValue(s[|s| - 1])
  }

  /** The digits of a signed literal: everything after a leading '-' or '+'. */
  function Unsigned(s: string): string
    requires 0 < |s|
  {
    if s[0] == '-' || s[0] == '+' then s[1..] else s
  }

  /** An optional sign followed by at least one decimal digit. */
  predicate SignedDigits(s: string)
  {
    0 < |s| && 0 < |Unsigned(s)| && AllDigits(Unsigned(s))
  }

  /** The mathematical value of a signed literal. */
  function SignedValue(s: string): int
    requires SignedDigits(s)
  {
    if s[0] == '-' then -(DigitsValue(Unsigned(s)) as int) else DigitsValue(Unsigned(s))
  }

  /** Java's `limit / radix`, which truncates toward zero. */
  function MultMin(limit: int): int
    requires limit < 0
  {
    -((-limit) / 10)
  }

  /** The digit loop of Integer.parseInt: digits are folded left to right into a
      non-positive accumulator, failing at a non-digit or as soon as the
      accumulator would pass `limit`. */
  function Accumulate(digits: string, i: nat, result: int, limit: int): Option<int>
    requires i <= |digits| && limit < 0
    decreases |digits| - i
  {
    if i == |digits| then Some(result)
    else if !IsDigit(digits[i]) || result < MultMin(limit) then None
    else if result * 10 < limit + DigitValue(digits[i]) then None
    else Accumulate(digits, i + 1, result * 10 - DigitValue(digits[i]), limit)
  }

  /** Integer.parseInt(s) in radix 10, following its algorithm: a first character
      below '0' must be a sign and not stand alone; the accumulator is bounded by
      Integer.MIN_VALUE for a negative literal and by -Integer.MAX_VALUE otherwise.
      None stands for the NumberFormatException it throws. */
  function ParseInt(s: string): (r: Option<int>)
    ensures r.Some? <==> SignedDigits(s) && MinInt <= SignedValue(s) <= MaxInt
    ensures r.Some? ==> r.value == SignedValue(s)
  {
    if |s| == 0 then None
    else if s[0] < '0' && s[0] != '-' && s[0] != '+' then None
    else if s[0] < '0' && |s| == 1 then None
    else
      var negative := s[0] == '-';
      var limit := if negative then MinInt else -MaxInt;
      AccumulateValue(Unsigned(s), 0, limit);
      match Accumulate(Unsigned(s), 0, 0, limit)
      case None => None
      case Some(result) => Some(if negative then result else -result)
  }

  /** A longer prefix of a digit string never has a smaller value. */
  lemma {:induction false} PrefixValueBelow(d: string, j: nat)
    requires AllDigits(d) && j <= |d|
    ensures DigitsValue(d[..j]) <= DigitsValue(d)
    decreases |d|
  {
    if j < |d| {
      var d' := d[..|d| - 1];
      PrefixValueBelow(d', j);
      assert d'[..j] == d[..j];
      assert DigitsValue(d) == 10 * DigitsValue(d') + DigitValue(d[|d| - 1]);
    } else {
      assert d[..j] == d;
    }
  }

  /** The digit loop computes minus the value of the digits exactly when they are
      all digits and their value stays within minus `limit`. */
  lemma {:induction false} AccumulateValue(d: string, i: nat, limit: int)
    requires i <= |d| && AllDigits(d[..i])
    requires limit == MinInt || limit == -MaxInt
    requires DigitsValue(d[..i]) <= -limit
    ensures Accumulate(d, i, -(DigitsValue(d[..i]) as int), limit) ==
      if AllDigits(d) && DigitsValue(d) <= -limit then Some(-(DigitsValue(d) as int)) else None
    decreases |d| - i
  {
    var v := DigitsValue(d[..i]);
    if i == |d| {
      assert d[..i] == d;
    } else if IsDigit(d[i]) {
      var d1 := d[..i + 1];
      assert d1[..i] == d[..i];
      assert AllDigits(d1);
      var v1 := DigitsValue(d1);
      assert v1 == 10 * v + DigitValue(d[i]);
      assert -(v as int) * 10 == -(10 * v);
      if AllDigits(d) {
        PrefixValueBelow(d, i + 1);
      }
      if -(v as int) >= MultMin(limit) && v1 <= -limit {
        AccumulateValue(d, i + 1, limit);
      }
    }
  }

  /** parseInt accepts a '+' sign and leading zeros, and rejects a lone sign, an
      empty line and trailing garbage. */
  lemma ParseIntSignsAndZeros()
    ensures ParseInt("+5") == Some(5)
    ensures ParseInt("007") == Some(7)
    ensures ParseInt("-") == None && ParseInt("") == None && ParseInt("1a") == None
  {
    assert SignedDigits("+5") && SignedValue("+5") == 5 by {
      assert Unsigned("+5") == "5";
    }
    assert SignedDigits("007") && SignedValue("007") == 7 by {
      assert "007"[..2] == "00" && "00"[..1] == "0";
    }
    assert !AllDigits("1a") by { assert !IsDigit("1a"[1]); }
  }

  /** parseInt reads both ends of the `int` range. */
  lemma ParseIntBounds()
    ensures ParseInt("-2147483648") == Some(MinInt)
    ensures ParseInt("2147483647") == Some(MaxInt)
  {
    UnsignedOfLiterals();
    DigitsValueOfLiteral();
    assert SignedValue("-2147483648") == MinInt;
    assert SignedValue("2147483647") == MaxInt;
  }

  /** parseInt rejects the first values past either end of the `int` range. */
  lemma ParseIntOverflow()
    ensures ParseInt("2147483648") == None
    ensures ParseInt("-2147483649") == None
  {
    UnsignedOfLiterals();
    DigitsValueOfLiteral();
    assert SignedValue("2147483648") == MaxInt + 1;
    assert SignedValue("-2147483649") == MinInt - 1;
  }

  lemma UnsignedOfLiterals()
    ensures Unsigned("-2147483648") == "2147483648"
    ensures Unsigned("-2147483649") == "2147483649"
  {
    assert "-2147483648"[1..] == "2147483648";
    assert "-2147483649"[1..] == "2147483649";
  }

  lemma DigitsValueOfLiteral()
    ensures AllDigits("2147483647") && AllDigits("2147483648") && AllDigits("2147483649")
    ensures DigitsValue("2147483647") == 2147483647
    ensures DigitsValue("2147483648") == 2147483648
    ensures DigitsValue("2147483649") == 2147483649
  {
    DigitsValueOfCommonPrefix();
    assert "2147483647"[..9] == "214748364";
    assert "2147483648"[..9] == "214748364";
    assert "2147483649"[..9] == "214748364";
  }

  lemma DigitsValueOfCommonPrefix()
    ensures AllDigits("214748364") && DigitsValue("214748364") == 214748364
  {
    assert "214748364"[..8] == "21474836";
    assert "21474836"[..7] == "2147483";
    assert "2147483"[..6] == "214748";
    assert "214748"[..5] == "21474";
    assert "21474"[..4] == "2147";
    assert "2147"[..3] == "214";
    assert "214"[..2] == "21";
    assert "21"[..1] == "2";
  }

  /** Decimal rendering of a natural number, without leading zeros. */
  function ShowNat(n: nat): (s: string)
    ensures 0 < |s| && AllDigits(s)
    decreases n
  {
    if n < 10 then [DigitChar(n)] else ShowNat(n / 10) + [DigitChar(n % 10)]
  }

  /** Decimal rendering of an integer, as Integer.toString writes it. */
  function ShowInt(n: int): string
  {
    if n < 0 then "-" + ShowNat(-n) else ShowNat(n)
  }

  lemma {:induction false} ShowNatValue(n: nat)
    ensures DigitsValue(ShowNat(n)) == n
    decreases n
  {
    var s := ShowNat(n);
    if n >= 10 {
      ShowNatValue(n / 10);
      assert s[..|s| - 1] == ShowNat(n / 10);
    }
  }

  /** parseInt reads back every `int` that Integer.toString writes. */
  lemma ParseShowInt(n: int)
    requires MinInt <= n <= MaxInt
    ensures ParseInt(ShowInt(n)) == Some(n)
  {
    var s := ShowInt(n);
    if n < 0 {
      ShowNatValue(-n);
      assert s[0] == '-' && s[1..] == ShowNat(-n);
      assert Unsigned(s) == ShowNat(-n);
      assert SignedValue(s) == n;
    } else {
      ShowNatValue(n);
      assert IsDigit(s[0]) && Unsigned(s) == s;
      assert SignedValue(s) == n;
    }
  }

  /** A line typed at the navigation prompt. */
  datatype Command = Quit | Previous | Next | Jump(page: int) | Malformed

  /** The reading of lines 151-164: an empty line or one starting with 'q' quits,
      'p' and 'n' are decided by the first character alone, and any other line
      must parse as a whole as an `int`. */
  function ClassifyNavigation(line: string): (c: Command)
    ensures c == Quit <==> |line| == 0 || line[0] == 'q'
    ensures c == Previous <==> |line| > 0 && line[0] == 'p'
    ensures c == Next <==> |line| > 0 && line[0] == 'n'
    ensures c.Jump? ==> ParseInt(line) == Some(c.page)
    ensures c == Malformed <==> |line| > 0 && line[0] !in "qpn" && ParseInt(line).None?
  {
    if |line| == 0 || line[0] == 'q' then Quit
    else if line[0] == 'p' then Previous
    else if line[0] == 'n' then Next
    else
      match ParseInt(line)
      case Some(page) => Jump(page)
      case None => Malformed
  }

  /** Typing any page number in its usual decimal form is read as a jump to it,
      including zero and negative numbers. */
  lemma TypedPageNumberIsJump(page: int)
    requires MinInt <= page <= MaxInt
    ensures ClassifyNavigation(ShowInt(page)) == Jump(page)
  {
    ParseShowInt(page);
    var s := ShowInt(page);
    if page >= 0 {
      assert IsDigit(ShowNat(page)[0]);
    } else {
      assert s[0] == '-';
    }
  }

  /** The reading of line 105 at the "Collect more (y/n) ?" prompt: an empty line
      or one starting with 'n' declines; every other line accepts. */
  predicate DeclinesCollect(line: string)
  {
    |line| == 0 || line[0] == 'n'
  }

  /** A line that the navigation prompt reads as a jump to page zero or below. */
  predicate IsNonPositiveJump(line: string)
  {
    ClassifyNavigation(line).Jump? && ClassifyNavigation(line).page <= 0
  }
}
