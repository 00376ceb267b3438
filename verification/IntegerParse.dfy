/**
 Integers from text in folly's Conv: digits_to and str_to_integral for every width, with unsigned arithmetic
 that wraps around, and the 128-bit printer that str_to_integral inverts.
 */
module IntegerParse {
  import opened Decimal

  datatype ConversionCode =
    | EmptyInputString | NoDigits | NonDigitChar | InvalidLeadingChar | PositiveOverflow | NegativeOverflow

  /** `Beyond` is a read outside a lookup table, after which nothing is promised. */
  datatype Result = Ok(value: int) | Err(error: ConversionCode) | Beyond

  predicate Width(w: nat) {
    w == 8 || w == 16 || w == 32 || w == 64 || w == 128
  }

  /** 2^w. */
  function Limit(w: nat): (l: nat)
    requires Width(w)
    ensures l > 0
  {
    if w == 8 then 0x100
    else if w == 16 then 0x1_0000
    else if w == 32 then 0x1_0000_0000
    else if w == 64 then 0x1_0000_0000_0000_0000
    else 0x1_0000_0000_0000_0000_0000_0000_0000_0000
  }

  /** numeric_limits<UT>::digits10. */
  function Digits10(w: nat): (d: nat)
    requires Width(w)
  {
    if w == 8 then 2 else if w == 16 then 4 else if w == 32 then 9 else if w == 64 then 19 else 38
  }

  /** MaxString<UT>::value, its digits in groups of four. */
  function MaxString(w: nat): (s: string)
    requires Width(w)
  {
    if w == 8 then "255"
    else if w == 16 then "6" + "5535"
    else if w == 32 then "42" + "9496" + "7295"
    else if w == 64 then "1844" + "6744" + "0737" + "0955" + "1615"
    else "340" + "2823" + "6692" + "0938" + "4634" + "6337" + "4607" + "4317" + "6821" + "1455"
  }

  // -------------------------------------------------------------------- the largest value as a string

  function FourDigits(t: string): (v: nat)
    requires |t| == 4 && AllDigits(t)
  {
    1000 * DigitValue(t[0]) + 100 * DigitValue(t[1]) + 10 * DigitValue(t[2]) + DigitValue(t[3])
  }

  lemma FourValue(t: string)
    requires |t| == 4 && AllDigits(t)
    ensures Value(t) == FourDigits(t)
  {
    var t1, t2, t3 := t[..1], t[..2], t[..3];
    assert t1[..0] == "" && t2[..1] == t1 && t3[..2] == t2;
    assert Value(t1) == DigitValue(t[0]) && Value(t2) == 10 * Value(t1) + DigitValue(t[1]);
    assert Value(t3) == 10 * Value(t2) + DigitValue(t[2]);
  }

  /** Four more digits. */
  lemma FourMore(s: string, t: string)
    requires AllDigits(s) && AllDigits(t) && |t| == 4
    ensures AllDigits(s + t) && |s + t| == |s| + 4 && (s != "" ==> (s + t)[0] == s[0])
    ensures Value(s + t) == 10000 * Value(s) + FourDigits(t)
  {
    ValueConcat(s, t);
    FourValue(t);
    assert Pow10(4) == 10000 by {
      assert Pow10(1) == 10 && Pow10(2) == 100 && Pow10(3) == 1000;
    }
  }

  /** `s` is the numeral of `v`, with `n` digits and no leading zero. */
  predicate Denotes(s: string, n: nat, v: nat) {
    AllDigits(s) && |s| == n > 0 && s[0] != '0' && Value(s) == v
  }

  lemma Denotes4(s: string, n: nat, v: nat, t: string, d: nat)
    requires Denotes(s, n, v) && AllDigits(t) && |t| == 4 && FourDigits(t) == d
    ensures Denotes(s + t, n + 4, 10000 * v + d)
  {
    hide Value, AllDigits;
    FourMore(s, t);
  }

  lemma SmallNumerals()
    ensures Denotes("255", 3, 255) && Denotes("6", 1, 6) && Denotes("42", 2, 42)
    ensures Denotes("1844", 4, 1844) && Denotes("340", 3, 340)
  {
    assert "255"[..2] == "25" && "25"[..1] == "2" && "2"[..0] == "" && "6"[..0] == "";
    assert "42"[..1] == "4" && "4"[..0] == "" && "340"[..2] == "34" && "34"[..1] == "3" && "3"[..0] == "";
    FourValue("1844");
  }

  lemma MaxString32()
    ensures Denotes("42" + "9496" + "7295", 10, 0xFFFF_FFFF)
  {
    hide Denotes;
    SmallNumerals();
    Denotes4("42", 2, 42, "9496", 9496);
    Denotes4("42" + "9496", 6, 429496, "7295", 7295);
  }

  lemma MaxString64()
    ensures Denotes("1844" + "6744" + "0737" + "0955" + "1615", 20, 0xFFFF_FFFF_FFFF_FFFF)
  {
    hide Denotes;
    SmallNumerals();
    var s := "1844" + "6744";
    Denotes4("1844", 4, 1844, "6744", 6744);
    Denotes4(s, 8, 18446744, "0737", 737);
    Denotes4(s + "0737", 12, 184467440737, "0955", 955);
    Denotes4(s + "0737" + "0955", 16, 1844674407370955, "1615", 1615);
  }

  lemma MaxString128()
    ensures Denotes("340" + "2823" + "6692" + "0938" + "4634" + "6337" + "4607" + "4317" + "6821" + "1455",
                    39, 0xFFFF_FFFF_FFFF_FFFF_FFFF_FFFF_FFFF_FFFF)
  {
    hide Denotes;
    SmallNumerals();
    var s := "340" + "2823" + "6692" + "0938";
    Denotes4("340", 3, 340, "2823", 2823);
    Denotes4("340" + "2823", 7, 3402823, "6692", 6692);
    Denotes4("340" + "2823" + "6692", 11, 34028236692, "0938", 938);
    Denotes4(s, 15, 340282366920938, "4634", 4634);
    Denotes4(s + "4634", 19, 3402823669209384634, "6337", 6337);
    MaxString128Rest(s + "4634" + "6337");
  }

  lemma MaxString128Rest(s: string)
    requires Denotes(s, 23, 34028236692093846346337)
    ensures Denotes(s + "4607" + "4317" + "6821" + "1455", 39, 0xFFFF_FFFF_FFFF_FFFF_FFFF_FFFF_FFFF_FFFF)
  {
    hide Denotes;
    Denotes4(s, 23, 34028236692093846346337, "4607", 4607);
    Denotes4(s + "4607", 27, 340282366920938463463374607, "4317", 4317);
    Denotes4(s + "4607" + "4317", 31, 3402823669209384634633746074317, "6821", 6821);
    Denotes4(s + "4607" + "4317" + "6821", 35, 34028236692093846346337460743176821, "1455", 1455);
  }

  /** Each MaxString is the decimal form of the largest value of its width. */
  lemma MaxStringIsMax(w: nat)
    requires Width(w)
    ensures Denotes(MaxString(w), Digits10(w) + 1, Limit(w) - 1)
  {
    hide Denotes;
    SmallNumerals();
    if w == 16 {
      Denotes4("6", 1, 6, "5535", 5535);
    } else if w == 32 {
      MaxString32();
    } else if w == 64 {
      MaxString64();
    } else if w == 128 {
      MaxString128();
    }
  }

  // -------------------------------------------------------------------- digits_to

  const OOR: nat := 10000

  const TABLE_SIZE: nat := 256

  const SIZE_T: nat := 0x1_0000_0000_0000_0000

  /** static_cast<size_t>(c): char is signed, so a byte from 0x80 up is extended by its sign. */
  function TableIndex(c: char): (i: nat)
    ensures i < TABLE_SIZE <==> !IsHigh(c)
  {
    if IsHigh(c) then SIZE_T - 256 + c as int else c as int
  }

  predicate IsHigh(c: char) {
    c as int >= 0x80
  }

  predicate AllLow(t: string) {
    forall i | 0 <= i < |t| :: !IsHigh(t[i])
  }

  /** The entry at `i` of the tables shift1, shift10, shift100 and shift1000. */
  function Entry(i: nat, m: nat): (r: nat)
    requires i < TABLE_SIZE
  {
    if '0' as int <= i <= '9' as int then m * (i - '0' as int) else OOR
  }

  function Shift(c: char, m: nat): (r: nat)
    requires TableIndex(c) < TABLE_SIZE
    ensures IsDigit(c) ==> r == m * DigitValue(c)
    ensures !IsDigit(c) ==> r == OOR
  {
    Entry(TableIndex(c), m)
  }

  /** The sum of the table entries of one to four characters. */
  function ShiftSum(t: string): (r: nat)
    requires 1 <= |t| <= 4 && AllLow(t)
  {
    if |t| == 4 then Shift(t[0], 1000) + Shift(t[1], 100) + Shift(t[2], 10) + Shift(t[3], 1)
    else if |t| == 3 then Shift(t[0], 100) + Shift(t[1], 10) + Shift(t[2], 1)
    else if |t| == 2 then Shift(t[0], 10) + Shift(t[1], 1)
    else Shift(t[0], 1)
  }

  /** The sum is out of range exactly when some character is not a digit; else it is the value. */
  lemma ShiftSumTells(t: string)
    requires 1 <= |t| <= 4 && AllLow(t)
    ensures ShiftSum(t) < OOR <==> AllDigits(t)
    ensures AllDigits(t) ==> ShiftSum(t) == Value(t)
  {
    if AllDigits(t) {
      if |t| == 4 {
        FourValue(t);
      } else {
        ShortValue(t);
      }
    }
  }

  lemma ShortValue(t: string)
    requires 1 <= |t| <= 3 && AllDigits(t) && AllLow(t)
    ensures Value(t) == ShiftSum(t)
  {
    var t1 := t[..1];
    assert t1[..0] == "" && Value(t1) == DigitValue(t[0]);
    if |t| == 1 {
      assert t1 == t;
    } else {
      var t2 := t[..2];
      assert t2[..1] == t1 && Value(t2) == 10 * Value(t1) + DigitValue(t[1]);
      if |t| == 2 {
        assert t2 == t;
      }
    }
  }

  /** What remains after the overflow test: too short to overflow, or one digit longer and not above the
      largest value as strings compare. */
  predicate Passed(w: nat, t: string)
    requires Width(w)
  {
    |t| <= Digits10(w) || (|t| == Digits10(w) + 1 == |MaxString(w)| && !ComparesGreater(t, MaxString(w)))
  }

  /** No prefix that consists of digits overflows. */
  lemma PassedFits(w: nat, t: string, n: nat)
    requires Width(w) && Passed(w, t) && n <= |t| && AllDigits(t[..n])
    ensures Value(t[..n]) < Limit(w)
  {
    MaxStringIsMax(w);
    if n < |t| || |t| <= Digits10(w) {
      LongerIsLarger(MaxString(w), t[..n]);
    } else {
      assert t[..n] == t;
      ComparesByValue(t, MaxString(w));
    }
  }

  /** A numeral without a leading zero that fails the test is too large. */
  lemma FailedOverflows(w: nat, t: string)
    requires Width(w) && !Passed(w, t) && t != "" && t[0] != '0' && AllDigits(t)
    ensures Value(t) >= Limit(w)
  {
    MaxStringIsMax(w);
    if |t| > Digits10(w) + 1 {
      LongerIsLarger(t, MaxString(w));
    } else {
      ComparesByValue(t, MaxString(w));
    }
  }

  lemma DigitsSplit(s: string, t: string)
    ensures AllDigits(s + t) <==> AllDigits(s) && AllDigits(t)
  {
    assert forall i | 0 <= i < |s| :: (s + t)[i] == s[i];
    assert forall i | 0 <= i < |t| :: (s + t)[|s| + i] == t[i];
  }

  /** One more group of characters: the wrapped result is exact. */
  lemma GroupIsExact(w: nat, t: string, b: nat, n: nat, result: nat)
    requires Width(w) && Passed(w, t) && 1 <= n <= 4 && b + n <= |t| && AllDigits(t[..b]) && result == Value(t[..b])
    requires AllLow(t[b..b + n])
    ensures ShiftSum(t[b..b + n]) < OOR <==> AllDigits(t[..b + n])
    ensures AllDigits(t[..b + n]) ==>
              && Pow10(n) * result + ShiftSum(t[b..b + n]) == Value(t[..b + n]) < Limit(w)
  {
    hide Value, ShiftSum, Passed, Pow10, Limit;
    var group := t[b..b + n];
    assert t[..b + n] == t[..b] + group;
    ShiftSumTells(group);
    DigitsSplit(t[..b], group);
    if AllDigits(t[..b + n]) {
      ValueConcat(t[..b], group);
      PassedFits(w, t, b + n);
    }
  }

  lemma SmallPowers()
    ensures Pow10(1) == 10 && Pow10(2) == 100 && Pow10(3) == 1000 && Pow10(4) == 10000
  {
  }

  /** Products and sums below the limit do not wrap. */
  lemma NoWrap(result: nat, sum: nat, l: nat)
    requires 10000 * result + sum < l && 10000 < l
    ensures (result * (10000 % l) % l + sum) % l == 10000 * result + sum
  {
    SmallMod(10000, l);
    var product := result * (10000 % l);
    assert product == 10000 * result;
    SmallMod(product, l);
    SmallMod(product + sum, l);
  }

  lemma SmallMod(x: nat, l: nat)
    requires x < l
    ensures x % l == x
  {
  }

  /** What became of one group of lookups: all were digits, one was not, or one was outside its table. */
  datatype Group = Digits | NoDigit | Outside

  /** One round of the loop over groups of four.  All four lookups come before the test of their sum. */
  method AddFour(w: nat, t: string, b: nat, before: nat) returns (g: Group, result: nat)
    requires Width(w) && Passed(w, t) && b + 4 <= |t| && AllDigits(t[..b]) && before == Value(t[..b])
    ensures g.Outside? <==> !AllLow(t[b..b + 4])
    ensures !g.Outside? ==> (g.Digits? <==> AllDigits(t[..b + 4]))
    ensures g.Digits? ==> result == Value(t[..b + 4])
  {
    hide Value, MaxString, Passed, ShiftSum, Pow10, AllDigits;
    var l := Limit(w);
    result := before * (10000 % l) % l;
    if !AllLow(t[b..b + 4]) {
      return Outside, result;
    }
    SmallPowers();
    FourFit(w, t);
    GroupIsExact(w, t, b, 4, before);
    var sum := ShiftSum(t[b..b + 4]);
    if sum >= OOR {
      return NoDigit, result;
    }
    NoWrap(before, sum, l);
    result := (result + sum) % l;
    g := Digits;
  }

  /** The one to three characters after the last group of four. */
  method AddRest(w: nat, t: string, b: nat, before: nat) returns (g: Group, result: nat)
    requires Width(w) && Passed(w, t) && b < |t| < b + 4 && AllDigits(t[..b]) && before == Value(t[..b])
    ensures g.Outside? <==> !AllLow(t[b..])
    ensures !g.Outside? ==> (g.Digits? <==> AllDigits(t))
    ensures g.Digits? ==> result == Value(t) < Limit(w)
  {
    hide Value, MaxString, Passed, ShiftSum, Pow10, AllDigits, Limit;
    var n := |t| - b;
    assert t[b..b + n] == t[b..];
    if !AllLow(t[b..b + n]) {
      return Outside, 0;
    }
    SmallPowers();
    GroupIsExact(w, t, b, n, before);
    assert t[..b + n] == t;
    var sum := ShiftSum(t[b..b + n]);
    if sum >= OOR {
      return NoDigit, 0;
    }
    result := if n == 3 then 1000 * before + sum else if n == 2 then 100 * before + sum else 10 * before + sum;
    SmallMod(result, Limit(w));
    result := result % Limit(w);
    g := Digits;
  }

  /** Some byte from 0x80 up has only digits in the groups of four before its own. */
  predicate LeavesTable(t: string) {
    exists i | 0 <= i < |t| :: IsHigh(t[i]) && AllDigits(t[..4 * (i / 4)])
  }

  lemma LeavesInGroup(t: string, b: nat, n: nat)
    requires b % 4 == 0 && n <= 4 && b + n <= |t| && AllDigits(t[..b]) && !AllLow(t[b..b + n])
    ensures LeavesTable(t)
  {
    var j :| 0 <= j < n && IsHigh(t[b..b + n][j]);
    assert IsHigh(t[b + j]) && 4 * ((b + j) / 4) == b;
  }

  /** Digits, then a group within the table that holds something else: no later group is looked up. */
  lemma StaysInTable(t: string, b: nat, n: nat)
    requires b % 4 == 0 && n <= 4 && b + n <= |t| && (n == 4 || b + n == |t|)
    requires AllDigits(t[..b]) && AllLow(t[b..b + n]) && (b + n == |t| || !AllDigits(t[..b + n]))
    ensures !LeavesTable(t)
  {
    assert forall i | 0 <= i < b :: IsDigit(t[..b][i]) && t[..b][i] == t[i];
    assert forall i | b <= i < b + n :: !IsHigh(t[b..b + n][i - b]) && t[b..b + n][i - b] == t[i];
    forall i | 0 <= i < |t| && IsHigh(t[i])
      ensures !AllDigits(t[..4 * (i / 4)])
    {
      assert b + n <= i;
      var j :| 0 <= j < b + n && !IsDigit(t[..b + n][j]);
      assert !IsDigit(t[..4 * (i / 4)][j]);
    }
  }

  /** Digits are below 0x80. */
  lemma LowStays(t: string)
    ensures AllDigits(t) ==> AllLow(t)
    ensures AllLow(t) ==> !LeavesTable(t)
  {
  }

  /** The unchecked conversion: four characters at a time, then the rest, in w-bit unsigned arithmetic.  A lookup
      leaves its table exactly for a byte from 0x80 up that is preceded by whole groups of digits. */
  method Accumulate(w: nat, t: string) returns (r: Result)
    requires Width(w) && Passed(w, t) && t != ""
    ensures r.Beyond? <==> LeavesTable(t)
    ensures !r.Beyond? ==> r == if AllDigits(t) then Ok(Value(t)) else Err(NonDigitChar)
    ensures AllDigits(t) ==> Value(t) < Limit(w)
  {
    hide Value, MaxString, Passed, AllDigits, AllLow, LeavesTable;
    var result: nat := 0;
    var b: nat := 0;
    var g := Digits;
    EmptyValue(t);
    LowStays(t);
    while |t| - b >= 4
      invariant b <= |t| && b % 4 == 0 && AllDigits(t[..b]) && result == Value(t[..b])
      decreases |t| - b
    {
      g, result := AddFour(w, t, b, result);
      if g.Outside? {
        LeavesInGroup(t, b, 4);
        return Beyond;
      }
      if g.NoDigit? {
        NotAll(t, b + 4);
        StaysInTable(t, b, 4);
        return Err(NonDigitChar);
      }
      b := b + 4;
    }
    if b < |t| {
      assert t[b..] == t[b..b + (|t| - b)];
      g, result := AddRest(w, t, b, result);
      if g.Outside? {
        LeavesInGroup(t, b, |t| - b);
        return Beyond;
      }
      if g.NoDigit? {
        StaysInTable(t, b, |t| - b);
        return Err(NonDigitChar);
      }
    } else {
      assert t[..b] == t;
      PassedFits(w, t, b);
    }
    r := Ok(result);
  }

  lemma EmptyValue(t: string)
    ensures AllDigits(t[..0]) && Value(t[..0]) == 0
  {
  }

  lemma NotAll(t: string, n: nat)
    requires n <= |t| && !AllDigits(t[..n])
    ensures !AllDigits(t)
  {
    var i :| 0 <= i < n && !IsDigit(t[..n][i]);
    assert t[i] == t[..n][i];
  }

  /** Groups of four occur only for widths that 10000 fits. */
  lemma FourFit(w: nat, t: string)
    requires Width(w) && Passed(w, t) && |t| >= 4
    ensures 10000 < Limit(w)
  {
  }

  /** The first position from `i` on that does not hold a zero, or the end. */
  function ZeroEnd(s: string, i: nat): (j: nat)
    requires i <= |s|
    ensures i <= j <= |s| && (forall k | i <= k < j :: s[k] == '0') && (j < |s| ==> s[j] != '0')
    decreases |s| - i
  {
    if i < |s| && s[i] == '0' then ZeroEnd(s, i + 1) else i
  }

  /** The text the overflow test looks at: leading zeros are dropped only where there are enough characters to
      overflow. */
  function Tested(w: nat, s: string): (t: string)
    requires Width(w)
  {
    if |s| > Digits10(w) then s[ZeroEnd(s, 0)..] else s
  }

  /** The answer of digits_to for an unsigned type, as a function of the characters. */
  function UnsignedAnswer(w: nat, s: string): (r: Result)
    requires Width(w)
  {
    var t := Tested(w, s);
    if s == "" then Err(NoDigits)
    else if t == "" then Ok(0)
    else if !Passed(w, t) then Err(PositiveOverflow)
    else if LeavesTable(t) then Beyond
    else if AllDigits(t) then Ok(Value(t))
    else Err(NonDigitChar)
  }

  /** The characters pass the overflow test, and their conversion reads outside a table. */
  predicate LookupLeaves(w: nat, s: string)
    requires Width(w)
  {
    Passed(w, Tested(w, s)) && LeavesTable(Tested(w, s))
  }

  lemma LowSuffix(s: string, z: nat)
    requires z <= |s|
    ensures AllLow(s) ==> AllLow(s[z..])
  {
  }

  lemma LimitIsEven(w: nat)
    requires Width(w)
    ensures Limit(w) == 2 * (Limit(w) / 2) >= 2
  {
  }

  /** What the answer means: the value of the digits, exactly when it fits. */
  lemma UnsignedAnswerMeans(w: nat, s: string)
    requires Width(w)
    ensures var r := UnsignedAnswer(w, s);
            && (r.Ok? <==> s != "" && AllDigits(s) && Value(s) < Limit(w))
            && (r.Ok? ==> r.value == Value(s))
            && (s != "" && AllDigits(s) && Value(s) >= Limit(w) ==> r == Err(PositiveOverflow))
            && (!AllDigits(s) ==> r == Err(PositiveOverflow) || r == Err(NonDigitChar) || r == Beyond)
            && (r.Beyond? <==> LookupLeaves(w, s))
            && (AllLow(s) ==> !r.Beyond?)
  {
    hide Value, Passed, AllDigits, AllLow, LeavesTable, Limit, Digits10;
    LimitIsEven(w);
    var z := if |s| > Digits10(w) then ZeroEnd(s, 0) else 0;
    var t := s[z..];
    assert t == Tested(w, s);
    ZerosDropped(s, z);
    LowSuffix(s, z);
    LowStays(t);
    if t == "" {
      OnlyZeros(s);
    } else if !Passed(w, t) {
      if |s| <= Digits10(w) {
        ShortPasses(w, t);
      } else if AllDigits(s) {
        FailedOverflows(w, t);
      }
    } else if AllDigits(t) {
      assert t[..|t|] == t;
      PassedFits(w, t, |t|);
    }
  }

  lemma ShortPasses(w: nat, t: string)
    requires Width(w) && |t| <= Digits10(w)
    ensures Passed(w, t)
  {
  }

  /** size_t(e - b): a negative distance wraps around. */
  function SizeT(distance: int): (n: int)
    requires SIZE_T + distance >= 0
  {
    if distance < 0 then distance + SIZE_T else distance
  }

  /** Skips zeros from `b` on; `e` if there is nothing else. */
  method SkipZeros(mem: string, b: nat, e: nat) returns (from: nat)
    requires b < e <= |mem| && mem[b] == '0'
    ensures b <= from <= e && from - b == ZeroEnd(mem[b..e], 0)
  {
    from := b + 1;
    while from < e && mem[from] == '0'
      invariant b < from <= e && ZeroEnd(mem[b..e], 0) == ZeroEnd(mem[b..e], from - b)
    {
      assert mem[b..e][from - b] == mem[from];
      from := from + 1;
    }
  }

  /** digits_to after the sign, on the bytes of `mem` from `b` to `e`: the value of the digits, exactly when it
      fits.  Where the sign was read one past an empty range, `b` is beyond `e`, the size wraps around, and the
      answer is an overflow. */
  method DigitsTo(w: nat, mem: string, b: nat, e: nat) returns (r: Result)
    requires Width(w) && b <= e + 1 && e <= |mem|
    ensures b > e ==> r == Err(PositiveOverflow)
    ensures b <= e ==> r == UnsignedAnswer(w, mem[b..e])
    ensures b <= e ==>
              var s := mem[b..e];
              && (r.Ok? <==> s != "" && AllDigits(s) && Value(s) < Limit(w))
              && (r.Ok? ==> r.value == Value(s))
              && (s == "" ==> r == Err(NoDigits))
              && (s != "" && AllDigits(s) && Value(s) >= Limit(w) ==> r == Err(PositiveOverflow))
              && (!AllDigits(s) ==> r == Err(PositiveOverflow) || r == Err(NonDigitChar) || r == Beyond)
              && (r.Beyond? <==> LookupLeaves(w, s))
              && (AllLow(s) ==> !r.Beyond?)
  {
    hide Value, MaxString, ComparesGreater, Denotes, AllDigits, AllLow, LeavesTable, Limit;
    MaxStringIsMax(w);
    DenotesMeans(MaxString(w), Digits10(w) + 1, Limit(w) - 1);
    var size := SizeT(e - b);
    var from := b;
    if b <= e {
      UnsignedAnswerMeans(w, mem[b..e]);
    }
    if size > Digits10(w) {
      if from < e && mem[from] == '0' {
        from := SkipZeros(mem, b, e);
        if from == e {
          return Ok(0);
        }
        size := SizeT(e - from);
      }
      if size > Digits10(w) && (size != Digits10(w) + 1 || ComparesGreater(mem[from..e], MaxString(w))) {
        return Err(PositiveOverflow);
      }
    }
    if size == 0 {
      return Err(NoDigits);
    }
    assert mem[from..e] == Tested(w, mem[b..e]);
    r := Accumulate(w, mem[from..e]);
  }

  lemma DenotesMeans(s: string, n: nat, v: nat)
    requires Denotes(s, n, v)
    ensures AllDigits(s) && |s| == n
  {
  }

  lemma OnlyZeros(s: string)
    requires forall i | 0 <= i < |s| :: s[i] == '0'
    ensures AllDigits(s) && Value(s) == 0
  {
    LeadingZeros(s, |s|);
    assert s[|s|..] == "";
  }

  lemma ZerosDropped(s: string, b: nat)
    requires b <= |s| && forall i | 0 <= i < b :: s[i] == '0'
    ensures AllDigits(s) <==> AllDigits(s[b..])
    ensures AllDigits(s) ==> Value(s[b..]) == Value(s)
  {
    if AllDigits(s[b..]) {
      forall i | 0 <= i < |s|
        ensures IsDigit(s[i])
      {
        if i >= b {
          assert s[i] == s[b..][i - b];
        }
      }
    }
    if AllDigits(s) {
      LeadingZeros(s, b);
    }
  }

  // -------------------------------------------------------------------- SignedValueHandler

  predicate InRange(w: nat, signed: bool, v: int)
    requires Width(w)
  {
    if signed then -(Limit(w) / 2) <= v < Limit(w) / 2 else 0 <= v < Limit(w)
  }

  /** The values of the type, as limits of their own. */
  predicate Accepted(w: nat, signed: bool, v: int)
    requires Width(w)
  {
    match (w, signed)
    case (8, true) => -128 <= v <= 127
    case (16, true) => -32768 <= v <= 32767
    case (32, true) => -2147483648 <= v <= 2147483647
    case (64, true) => -9223372036854775808 <= v <= 9223372036854775807
    case (128, true) =>
      -170141183460469231731687303715884105728 <= v <= 170141183460469231731687303715884105727
    case (8, false) => 0 <= v <= 255
    case (16, false) => 0 <= v <= 65535
    case (32, false) => 0 <= v <= 4294967295
    case (64, false) => 0 <= v <= 18446744073709551615
    case (128, false) => 0 <= v <= 340282366920938463463374607431768211455
    case _ => false
  }

  /** The least and the greatest value of each type. */
  lemma TypeBounds(v: int)
    ensures InRange(8, true, v) <==> -128 <= v <= 127
    ensures InRange(16, true, v) <==> -32768 <= v <= 32767
    ensures InRange(32, true, v) <==> -2147483648 <= v <= 2147483647
    ensures InRange(64, true, v) <==> -9223372036854775808 <= v <= 9223372036854775807
    ensures InRange(128, true, v) <==>
              -170141183460469231731687303715884105728 <= v <= 170141183460469231731687303715884105727
    ensures InRange(8, false, v) <==> 0 <= v <= 255
    ensures InRange(16, false, v) <==> 0 <= v <= 65535
    ensures InRange(32, false, v) <==> 0 <= v <= 4294967295
    ensures InRange(64, false, v) <==> 0 <= v <= 18446744073709551615
    ensures InRange(128, false, v) <==> 0 <= v <= 340282366920938463463374607431768211455
    ensures forall w: nat, signed | Width(w) :: Accepted(w, signed, v) <==> InRange(w, signed, v)
  {
  }

  /** The value of a numeral, or the overflow on its side. */
  function Ranged(w: nat, signed: bool, v: int): (r: Result)
    requires Width(w)
  {
    if InRange(w, signed, v) then Ok(v) else Err(if v < 0 then NegativeOverflow else PositiveOverflow)
  }

  /** T(u): an unsigned value reinterpreted as a signed one. */
  function AsSigned(w: nat, u: nat): (v: int)
    requires Width(w)
  {
    if u >= Limit(w) / 2 then u - Limit(w) else u
  }

  function WithSign(negative: bool, v: int): (r: int) {
    if negative then -v else v
  }

  /** The sign applied to the answer for the digits. */
  function Finished(w: nat, signed: bool, negative: bool, t: Result): (r: Result)
    requires Width(w)
  {
    match t
    case Ok(v) => Ranged(w, signed, WithSign(negative, v))
    case Err(c) => Err(if negative && c == PositiveOverflow then NegativeOverflow else c)
    case Beyond => Beyond
  }

  predicate IsSign(c: char) {
    c == '-' || c == '+'
  }

  /** Negation in unsigned arithmetic. */
  lemma NegatedIs(value: nat, l: nat)
    requires value < l
    ensures (l - value) % l == if value == 0 then 0 else l - value
  {
    if value > 0 {
      SmallMod(l - value, l);
    }
  }

  class SignedValueHandler {
    const w: nat
    const signed: bool
    var negative: bool

    constructor (w: nat, signed: bool)
      ensures this.w == w && this.signed == signed && !negative
    {
      this.w, this.signed, negative := w, signed, false;
    }

    /** Consume a sign; false for a signed type if the first character is neither sign nor digit. */
    method Init(s: string, b: nat) returns (ok: bool, next: nat)
      requires b < |s|
      modifies this
      ensures ok <==> !signed || IsDigit(s[b]) || IsSign(s[b])
      ensures next == if signed && IsSign(s[b]) then b + 1 else b
      ensures negative <==> signed && s[b] == '-'
    {
      negative := false;
      if !signed {
        return true, b;
      }
      next := b;
      if !IsDigit(s[b]) {
        if s[b] == '-' {
          negative := true;
        } else if s[b] != '+' {
          return false, b;
        }
        next := next + 1;
      }
      ok := true;
    }

    function Overflow(): (c: ConversionCode)
      reads this
    {
      if signed && negative then NegativeOverflow else PositiveOverflow
    }

    /** The sign test by wraparound accepts exactly the values of the type. */
    method Finalize(value: nat) returns (r: Result)
      requires Width(w) && value < Limit(w) && (negative ==> signed)
      ensures r == Ranged(w, signed, WithSign(negative, value))
    {
      hide Limit;
      LimitIsEven(w);
      NegatedIs(value, Limit(w));
      if !signed {
        return Ok(value);
      }
      if negative {
        var rv := AsSigned(w, (Limit(w) - value) % Limit(w));
        if rv > 0 {
          return Err(NegativeOverflow);
        }
        r := Ok(rv);
      } else {
        var rv := AsSigned(w, value);
        if rv < 0 {
          return Err(PositiveOverflow);
        }
        r := Ok(rv);
      }
    }
  }

  /** What follows the sign. */
  function AfterSign(s: string): (t: string) {
    if s != "" && IsSign(s[0]) then s[1..] else s
  }

  /** The answer for a signed type on a range that is not empty: the sign belongs to the range. */
  function SignedAnswer(w: nat, s: string): (r: Result)
    requires Width(w) && s != ""
  {
    if !IsDigit(s[0]) && !IsSign(s[0]) then Err(InvalidLeadingChar)
    else Finished(w, true, s[0] == '-', UnsignedAnswer(w, AfterSign(s)))
  }

  /** The answer for a signed type on an empty range: it depends on the byte behind the range. */
  function EmptyRangeAnswer(behind: char): (r: Result) {
    if IsDigit(behind) then Err(NoDigits)
    else if behind == '-' then Err(NegativeOverflow)
    else if behind == '+' then Err(PositiveOverflow)
    else Err(InvalidLeadingChar)
  }

  function TargetAnswer(w: nat, signed: bool, mem: string, b: nat, e: nat): (r: Result)
    requires Width(w) && b <= e <= |mem| && (signed && b == e ==> e < |mem|)
  {
    if !signed then UnsignedAnswer(w, mem[b..e])
    else if b == e then EmptyRangeAnswer(mem[e])
    else SignedAnswer(w, mem[b..e])
  }

  /** Converting the range reads outside a table. */
  predicate TargetLeaves(w: nat, signed: bool, s: string)
    requires Width(w)
  {
    if !signed then LookupLeaves(w, s)
    else s != "" && (IsDigit(s[0]) || IsSign(s[0])) && LookupLeaves(w, AfterSign(s))
  }

  lemma TargetLeavesExactly(w: nat, signed: bool, mem: string, b: nat, e: nat)
    requires Width(w) && b <= e <= |mem| && (signed && b == e ==> e < |mem|)
    ensures TargetAnswer(w, signed, mem, b, e).Beyond? <==> TargetLeaves(w, signed, mem[b..e])
  {
    hide UnsignedAnswer, LookupLeaves, Limit;
    var s := mem[b..e];
    UnsignedAnswerMeans(w, s);
    UnsignedAnswerMeans(w, AfterSign(s));
  }

  /** What the answer means on a range that is not empty, and for unsigned types on any. */
  ghost predicate Converts(w: nat, signed: bool, s: string, r: Result)
    requires Width(w) && (signed ==> s != "")
  {
    var n := if signed && IsSign(s[0]) then 1 else 0;
    var digits := s[n..];
    && (signed && !IsDigit(s[0]) && !IsSign(s[0]) ==> r == Err(InvalidLeadingChar))
    && (digits == "" ==> r == Err(NoDigits))
    && (digits != "" && AllDigits(digits) ==>
          r == Ranged(w, signed, WithSign(n == 1 && s[0] == '-', Value(digits))))
    && (!AllDigits(digits) ==> !r.Ok?)
  }

  lemma UnsignedConverts(w: nat, s: string)
    requires Width(w)
    ensures Converts(w, false, s, UnsignedAnswer(w, s))
  {
    hide Value, UnsignedAnswer, LookupLeaves, AllLow, Limit;
    UnsignedAnswerMeans(w, s);
    assert s[0..] == s;
    NothingToConvert(w);
  }

  lemma NothingToConvert(w: nat)
    requires Width(w)
    ensures UnsignedAnswer(w, "") == Err(NoDigits)
  {
  }

  lemma SignedConverts(w: nat, s: string)
    requires Width(w) && s != ""
    ensures Converts(w, true, s, SignedAnswer(w, s))
  {
    hide Value, UnsignedAnswer, LookupLeaves, AllLow, Limit;
    UnsignedAnswerMeans(w, AfterSign(s));
    assert s[0..] == s;
    NothingToConvert(w);
    if !IsDigit(s[0]) && !IsSign(s[0]) {
      assert !AllDigits(s);
    } else if AllDigits(AfterSign(s)) {
      LargeOverflows(w, Value(AfterSign(s)));
    }
  }

  /** A value that does not even fit the unsigned type overflows on the side of its sign. */
  lemma LargeOverflows(w: nat, v: nat)
    requires Width(w)
    ensures v >= Limit(w) ==> forall signed ::
              && Ranged(w, signed, v) == Err(PositiveOverflow)
              && Ranged(w, signed, WithSign(true, v)) == Err(NegativeOverflow)
  {
  }

  /** What is answered where the first byte is a sign or the type has none. */
  lemma TargetIsFinished(w: nat, signed: bool, mem: string, b: nat, e: nat, from: nat)
    requires Width(w) && b <= e <= |mem| && (signed && b == e ==> e < |mem|)
    requires signed ==> IsDigit(mem[b]) || IsSign(mem[b])
    requires from == if signed && IsSign(mem[b]) then b + 1 else b
    ensures TargetAnswer(w, signed, mem, b, e) ==
              Finished(w, signed, signed && mem[b] == '-',
                       if from <= e then UnsignedAnswer(w, mem[from..e]) else Err(PositiveOverflow))
  {
    hide UnsignedAnswer, Limit, Value, AllDigits, AllLow, LookupLeaves;
    NothingToConvert(w);
    if !signed {
      UnsignedAnswerMeans(w, mem[b..e]);
    } else if b < e {
      assert mem[from..e] == AfterSign(mem[b..e]);
    } else {
      assert mem[b..e] == "";
    }
  }

  /** What the answers mean; on an empty range they depend on the byte behind it. */
  lemma TargetAnswerMeans(w: nat, signed: bool, mem: string, b: nat, e: nat)
    requires Width(w) && b <= e <= |mem| && (signed && b == e ==> e < |mem|)
    ensures var r := TargetAnswer(w, signed, mem, b, e);
            && (r.Beyond? <==> TargetLeaves(w, signed, mem[b..e]))
            && (!signed || b < e ==> Converts(w, signed, mem[b..e], r))
            && (signed && b == e ==>
                  && (IsDigit(mem[e]) ==> r == Err(NoDigits))
                  && (mem[e] == '-' ==> r == Err(NegativeOverflow))
                  && (mem[e] == '+' ==> r == Err(PositiveOverflow))
                  && (!IsDigit(mem[e]) && !IsSign(mem[e]) ==> r == Err(InvalidLeadingChar)))
  {
    hide UnsignedAnswer, SignedAnswer, Converts, TargetLeaves;
    TargetLeavesExactly(w, signed, mem, b, e);
    if !signed {
      UnsignedConverts(w, mem[b..e]);
    } else if b < e {
      SignedConverts(w, mem[b..e]);
    }
  }

  /** digits_to for any type, on a sign (for signed types) and digits.  The first byte is read without a look at
      the end, so for a signed type and an empty range the byte behind the range must be there to read. */
  method DigitsToTarget(w: nat, signed: bool, mem: string, b: nat, e: nat) returns (r: Result)
    requires Width(w) && b <= e <= |mem| && (signed && b == e ==> e < |mem|)
    ensures r == TargetAnswer(w, signed, mem, b, e)
    ensures r.Beyond? <==> TargetLeaves(w, signed, mem[b..e])
    ensures !signed || b < e ==> Converts(w, signed, mem[b..e], r)
    ensures signed && b == e ==>
              && (IsDigit(mem[e]) ==> r == Err(NoDigits))
              && (mem[e] == '-' ==> r == Err(NegativeOverflow))
              && (mem[e] == '+' ==> r == Err(PositiveOverflow))
              && (!IsDigit(mem[e]) && !IsSign(mem[e]) ==> r == Err(InvalidLeadingChar))
  {
    hide Value, AllDigits, AllLow, UnsignedAnswer, LookupLeaves, TargetLeaves, TargetAnswer, Limit, Ranged, Converts;
    TargetAnswerMeans(w, signed, mem, b, e);
    var sgn := new SignedValueHandler(w, signed);
    var from := b;
    if signed {
      var ok;
      ok, from := sgn.Init(mem, b);
      if !ok {
        RefusedFirst(w, mem, b, e);
        return Err(InvalidLeadingChar);
      }
    }
    TargetIsFinished(w, signed, mem, b, e, from);
    var t := DigitsTo(w, mem, from, e);
    match t
    case Beyond => r := Beyond;
    case Err(c) => r := Err(if c == PositiveOverflow then sgn.Overflow() else c);
    case Ok(v) => r := sgn.Finalize(v);
  }

  lemma RefusedFirst(w: nat, mem: string, b: nat, e: nat)
    requires Width(w) && b <= e <= |mem| && b < |mem| && !IsDigit(mem[b]) && !IsSign(mem[b])
    ensures TargetAnswer(w, true, mem, b, e) == Err(InvalidLeadingChar)
  {
  }

  /** What the code may answer: anything after a read outside a table. */
  ghost predicate MayAnswer(w: nat, signed: bool, mem: string, b: nat, e: nat, r: Result)
    requires Width(w) && b <= e <= |mem| && (signed && b == e ==> e < |mem|)
  {
    TargetAnswer(w, signed, mem, b, e).Beyond? || r == TargetAnswer(w, signed, mem, b, e)
  }

  /** There is one answer, and every buffer that agrees on the range gives it. */
  ghost predicate RangeDecides(w: nat, signed: bool, mem: string, b: nat, e: nat)
    requires Width(w) && b <= e <= |mem| && (signed && b == e ==> e < |mem|)
  {
    forall mem': string, r
      | && e <= |mem'| && (signed && b == e ==> e < |mem'|) && mem'[b..e] == mem[b..e]
        && MayAnswer(w, signed, mem', b, e, r) ::
      r == TargetAnswer(w, signed, mem, b, e)
  }

  /** The range alone decides the answer exactly where the type is unsigned or the range is not empty, and no lookup
      leaves its table. */
  lemma RangeDecidesExactly(w: nat, signed: bool, mem: string, b: nat, e: nat)
    requires Width(w) && b <= e <= |mem| && (signed && b == e ==> e < |mem|)
    ensures RangeDecides(w, signed, mem, b, e) <==>
              (!signed || b < e) && !TargetLeaves(w, signed, mem[b..e])
  {
    hide UnsignedAnswer, SignedAnswer, TargetLeaves;
    TargetLeavesExactly(w, signed, mem, b, e);
    var a := TargetAnswer(w, signed, mem, b, e);
    if signed && b == e {
      var minus, plus := mem[e := '-'], mem[e := '+'];
      assert minus[b..e] == mem[b..e] == plus[b..e];
      assert MayAnswer(w, signed, minus, b, e, TargetAnswer(w, signed, minus, b, e));
      assert MayAnswer(w, signed, plus, b, e, TargetAnswer(w, signed, plus, b, e));
    } else if a.Beyond? {
      assert MayAnswer(w, signed, mem, b, e, Ok(0));
    }
  }

  /** Bytes below 0x80, and so every text in ASCII, never leave a table. */
  lemma LowBytesStay(w: nat, signed: bool, s: string)
    requires Width(w) && AllLow(s)
    ensures !TargetLeaves(w, signed, s)
  {
    hide UnsignedAnswer, LookupLeaves, Limit;
    UnsignedAnswerMeans(w, s);
    UnsignedAnswerMeans(w, AfterSign(s));
  }

  /** An empty range before a minus sign: an overflow is reported where there is nothing to convert. */
  lemma EmptyRangeBeforeMinus()
    ensures TargetAnswer(32, true, "-", 0, 0) == Err(NegativeOverflow)
    ensures TargetAnswer(32, true, "\0", 0, 0) == Err(InvalidLeadingChar)
    ensures TargetAnswer(32, true, "7", 0, 0) == Err(NoDigits)
  {
    assert "-"[0] == '-' && "\0"[0] == '\0' && "7"[0] == '7';
  }

  /** The one byte 0xFF, for an unsigned type: the index wraps around to one entry before the table. */
  lemma HighByteLeaves()
    ensures TargetLeaves(32, false, [0xFF as char]) && TableIndex(0xFF as char) == SIZE_T - 1
    ensures TargetAnswer(32, false, [0xFF as char], 0, 1) == Beyond
  {
    var s := [0xFF as char];
    assert s[0..1] == s == Tested(32, s);
    assert IsHigh(s[0]) && AllDigits(s[..4 * (0 / 4)]);
  }

  // -------------------------------------------------------------------- str_to_integral

  predicate IsSpace(c: char) {
    '\t' <= c <= '\r' || c == ' '
  }

  /** The whitespace characters are these six: tab, line feed, vertical tab, form feed, carriage return and space. */
  lemma SpacesAre(c: char)
    ensures IsSpace(c) <==> c as int in {9, 10, 11, 12, 13, 32}
  {
    assert '\t' as int == 9 && '\r' as int == 13 && ' ' as int == 32;
  }

  /** The first position that does not hold whitespace, or the end. */
  function SpaceEnd(s: string, i: nat): (j: nat)
    requires i <= |s|
    ensures i <= j <= |s| && (forall k | i <= k < j :: IsSpace(s[k])) && (j < |s| ==> !IsSpace(s[j]))
    decreases |s| - i
  {
    if i < |s| && IsSpace(s[i]) then SpaceEnd(s, i + 1) else i
  }

  /** The end of the run of digits that begins at `i`. */
  function DigitEnd(s: string, i: nat): (j: nat)
    requires i <= |s|
    ensures i <= j <= |s| && AllDigits(s[i..j]) && (j < |s| ==> !IsDigit(s[j]))
    decreases |s| - i
  {
    if i < |s| && IsDigit(s[i]) then
      var j := DigitEnd(s, i + 1);
      assert s[i..j] == [s[i]] + s[i + 1..j];
      j
    else i
  }

  method FindFirstNonDigit(s: string, from: nat) returns (b: nat)
    requires from <= |s|
    ensures b == DigitEnd(s, from)
  {
    b := from;
    while b < |s| && IsDigit(s[b])
      invariant b <= |s| && DigitEnd(s, from) == DigitEnd(s, b)
    {
      b := b + 1;
    }
  }

  /** Where the digits should begin: after the whitespace and, for a signed type, after one sign. */
  function NumeralStart(s: string, signed: bool): (j: nat)
    ensures j <= |s|
  {
    var i := SpaceEnd(s, 0);
    if signed && i < |s| && IsSign(s[i]) then i + 1 else i
  }

  predicate IsNegative(s: string, signed: bool) {
    var i := SpaceEnd(s, 0);
    signed && i < |s| && s[i] == '-'
  }

  /** The input holds a numeral where one is expected. */
  predicate HasNumeral(s: string, signed: bool) {
    var j := NumeralStart(s, signed);
    j < |s| && IsDigit(s[j])
  }

  /** The signed number of the maximal run of digits. */
  function NumeralValue(s: string, signed: bool): (v: int) {
    var j := NumeralStart(s, signed);
    WithSign(IsNegative(s, signed), Value(s[j..DigitEnd(s, j)]))
  }

  /** The error for an input without a numeral. */
  function NumeralError(s: string, signed: bool): (c: ConversionCode) {
    var i, j := SpaceEnd(s, 0), NumeralStart(s, signed);
    if i == |s| then EmptyInputString
    else if signed && j == i && !IsDigit(s[i]) then InvalidLeadingChar
    else if j == |s| then NoDigits
    else NonDigitChar
  }

  /** The answer for an input. */
  function StringAnswer(w: nat, signed: bool, s: string): (r: Result)
    requires Width(w)
  {
    if HasNumeral(s, signed) then Ranged(w, signed, NumeralValue(s, signed)) else Err(NumeralError(s, signed))
  }

  /** The answer in terms of the position `i` of the first character that is not whitespace. */
  lemma StringAnswerIs(w: nat, signed: bool, s: string, i: nat)
    requires Width(w) && i == SpaceEnd(s, 0)
    ensures i <= |s|
    ensures i == |s| ==> StringAnswer(w, signed, s) == Err(EmptyInputString)
    ensures i < |s| ==>
              var j := if signed && IsSign(s[i]) then i + 1 else i;
              && j == NumeralStart(s, signed)
              && StringAnswer(w, signed, s) ==
                 if signed && j == i && !IsDigit(s[i]) then Err(InvalidLeadingChar)
                 else if j == |s| then Err(NoDigits)
                 else if !IsDigit(s[j]) then Err(NonDigitChar)
                 else Ranged(w, signed, WithSign(signed && s[i] == '-', Value(s[j..DigitEnd(s, j)])))
  {
    hide SpaceEnd, DigitEnd, Value, Ranged;
  }

  lemma {:induction false} SpaceEndShifts(c: char, s: string, i: nat)
    requires i <= |s|
    ensures SpaceEnd([c] + s, i + 1) == SpaceEnd(s, i) + 1
    decreases |s| - i
  {
    if i < |s| {
      assert ([c] + s)[i + 1] == s[i];
      if IsSpace(s[i]) {
        SpaceEndShifts(c, s, i + 1);
      }
    }
  }

  lemma {:induction false} DigitEndShifts(c: char, s: string, i: nat)
    requires i <= |s|
    ensures DigitEnd([c] + s, i + 1) == DigitEnd(s, i) + 1
    decreases |s| - i
  {
    if i < |s| {
      assert ([c] + s)[i + 1] == s[i];
      if IsDigit(s[i]) {
        DigitEndShifts(c, s, i + 1);
      }
    }
  }

  /** A whitespace character in front changes nothing. */
  lemma SpaceIsSkipped(w: nat, signed: bool, c: char, s: string)
    requires Width(w) && c as int in {9, 10, 11, 12, 13, 32}
    ensures StringAnswer(w, signed, [c] + s) == StringAnswer(w, signed, s)
  {
    hide Ranged, Value, SpaceEnd, DigitEnd, StringAnswer, NumeralStart, Limit, AllDigits, WithSign;
    var t, i := [c] + s, SpaceEnd(s, 0);
    SpacesAre(c);
    SpaceStep(t, 0);
    SpaceEndShifts(c, s, 0);
    StringAnswerIs(w, signed, s, i);
    StringAnswerIs(w, signed, t, i + 1);
    if i < |s| {
      var j := if signed && IsSign(s[i]) then i + 1 else i;
      assert t[i + 1] == s[i] && (j < |s| ==> t[j + 1] == s[j]);
      DigitEndShifts(c, s, j);
      assert t[j + 1..DigitEnd(s, j) + 1] == s[j..DigitEnd(s, j)];
    }
  }

  lemma SpaceStep(s: string, b: nat)
    requires b <= |s|
    ensures SpaceEnd(s, b) == if b < |s| && IsSpace(s[b]) then SpaceEnd(s, b + 1) else b
  {
  }

  /** str_to_integral: the signed value of the maximal run of digits after leading whitespace if it is in range,
      the overflow on its side if not, and what is wrong if there is no numeral.  Exactly the numeral and what
      precedes it is consumed, and nothing on an error. */
  method StrToIntegral(w: nat, signed: bool, src: string) returns (r: Result, rest: string)
    requires Width(w)
    ensures r == StringAnswer(w, signed, src)
    ensures rest == if r.Ok? then src[DigitEnd(src, NumeralStart(src, signed))..] else src
  {
    hide Value, AllDigits, AllLow, Limit, UnsignedAnswer, LookupLeaves, Ranged, StringAnswer, NumeralStart, SpaceEnd,
         DigitEnd;
    rest := src;
    var b: nat := 0;
    while true
      invariant b <= |src| && SpaceEnd(src, 0) == SpaceEnd(src, b)
      decreases |src| - b
    {
      SpaceStep(src, b);
      if b >= |src| {
        StringAnswerIs(w, signed, src, b);
        return Err(EmptyInputString), src;
      }
      if (src[b] < '\t' || src[b] > '\r') && src[b] != ' ' {
        break;
      }
      b := b + 1;
    }
    StringAnswerIs(w, signed, src, b);
    var sgn := new SignedValueHandler(w, signed);
    var ok;
    ok, b := sgn.Init(src, b);
    if !ok {
      return Err(InvalidLeadingChar), src;
    }
    if signed && b >= |src| {
      return Err(NoDigits), src;
    }
    if !IsDigit(src[b]) {
      return Err(NonDigitChar), src;
    }
    var m := FindFirstNonDigit(src, b + 1);
    var t := DigitsTo(w, src, b, m);
    if t.Err? {
      var code := if t.error == PositiveOverflow then sgn.Overflow() else t.error;
      RunFacts(w, signed, src, b, m);
      return Err(code), src;
    }
    RunFacts(w, signed, src, b, m);
    r := sgn.Finalize(t.value);
    if r.Ok? {
      rest := src[m..];
    }
  }

  /** A value that does not even fit the unsigned type overflows on the side of its sign. */
  lemma RunFacts(w: nat, signed: bool, s: string, b: nat, m: nat)
    requires Width(w) && b < |s| && IsDigit(s[b]) && m == DigitEnd(s, b + 1)
    ensures m == DigitEnd(s, b) && s[b..m] != "" && AllDigits(s[b..m])
    ensures var v := Value(s[b..m]);
            v >= Limit(w) ==>
              && Ranged(w, signed, v) == Err(PositiveOverflow)
              && Ranged(w, signed, WithSign(true, v)) == Err(NegativeOverflow)
  {
  }

  // -------------------------------------------------------------------- the 128-bit printer

  const BASE: nat := 10_000_000_000_000_000_000   // the largest power of ten in 64 bits
  const BASE_DIGITS: nat := 19

  lemma BaseIsPow10()
    ensures Pow10(19) == BASE
  {
    assert Pow10(4) == 10000 && Pow10(8) == 100000000;
    assert Pow10(12) == 1_000_000_000_000;
    assert Pow10(16) == 10_000_000_000_000_000;
  }

  /** The numeral of `high * BASE + low`, from the numeral of `high`. */
  lemma Appended(s: string, high: nat, low: nat)
    requires AllDigits(s) && s != "" && Value(s) == high && low < BASE
    ensures var r := s + Padded(low, BASE_DIGITS);
            AllDigits(r) && Value(r) == high * BASE + low && r[0] == s[0]
  {
    BaseIsPow10();
    PaddedValue(low, BASE_DIGITS);
    ValueConcat(s, Padded(low, BASE_DIGITS));
  }

  /** unsafeTelescope128: at most three parts of 64 bits; the leading one shortest, the others with all their
      digits. */
  method Telescope128(x: nat) returns (s: string)
    requires x < Limit(128)
    ensures AllDigits(s) && Value(s) == x && 0 < |s| <= Digits10(128) + 1 && (s[0] == '0' ==> s == "0")
  {
    var word := Limit(64);
    if x >= word {
      var rem, q := x % BASE, x / BASE;
      if q >= word {
        var rem2, q2 := q % BASE, q / BASE;
        assert 0 < q2 < word;
        ShortestValue(q2);
        Appended(Shortest(q2), q2, rem2);
        Appended(Shortest(q2) + Padded(rem2, BASE_DIGITS), q, rem);
        s := Shortest(q2) + Padded(rem2, BASE_DIGITS) + Padded(rem, BASE_DIGITS);
      } else {
        assert 0 < q;
        ShortestValue(q);
        Appended(Shortest(q), q, rem);
        s := Shortest(q) + Padded(rem, BASE_DIGITS);
      }
    } else {
      ShortestValue(x);
      s := Shortest(x);
      assert x == 0 ==> s == "0";
    }
    FitsBuffer(s, x);
  }

  /** A numeral of a 128-bit number without a leading zero fits the buffer. */
  lemma FitsBuffer(s: string, x: nat)
    requires AllDigits(s) && s != "" && Value(s) == x < Limit(128) && (s[0] == '0' ==> |s| == 1)
    ensures |s| <= Digits10(128) + 1
  {
    MaxStringIsMax(128);
    if |s| > Digits10(128) + 1 {
      LongerIsLarger(s, MaxString(128));
    }
  }

  /** toAppend(__int128): the magnitude is taken by unsigned negation. */
  method PrintSigned128(v: int) returns (s: string)
    requires InRange(128, true, v)
    ensures s != "" && (s[0] == '-' <==> v < 0)
    ensures v >= 0 ==> AllDigits(s) && Value(s) == v
    ensures v < 0 ==> |s| > 1 && AllDigits(s[1..]) && Value(s[1..]) == -v
  {
    if v < 0 {
      var unsigned := v + Limit(128);
      var digits := Telescope128((Limit(128) - unsigned) % Limit(128));
      s := "-" + digits;
      assert s[1..] == digits;
    } else {
      s := Telescope128(v);
      assert IsDigit(s[0]);
    }
  }

  /** A string of digits, with or without a minus sign, is one numeral. */
  lemma WholeNumeral(s: string, signed: bool, n: nat)
    requires n < |s| && AllDigits(s[n..]) && (n == 0 || (n == 1 && signed && s[0] == '-'))
    ensures HasNumeral(s, signed) && NumeralStart(s, signed) == n && DigitEnd(s, n) == |s|
    ensures NumeralValue(s, signed) == WithSign(n == 1, Value(s[n..]))
  {
    assert s[n] == s[n..][0];
    assert !IsSpace(s[0]);
    AllToTheEnd(s, n);
    assert s[n..|s|] == s[n..];
  }

  lemma {:induction false} AllToTheEnd(s: string, n: nat)
    requires n <= |s| && AllDigits(s[n..])
    ensures DigitEnd(s, n) == |s|
    decreases |s| - n
  {
    if n < |s| {
      assert s[n] == s[n..][0] && s[n..][1..] == s[n + 1..];
      AllToTheEnd(s, n + 1);
    }
  }

  /** The shortest numeral of a number. */
  function Numeral(v: int): (s: string)
    ensures s != ""
  {
    if v < 0 then "-" + Shortest(-v) else Shortest(v)
  }

  /** The numeral of any number: a value of the type is given back and nothing is left; a number outside is an overflow
      on its side; and a minus sign is refused for an unsigned type. */
  method ParseNumeral(w: nat, signed: bool, v: int) returns (r: Result, rest: string)
    requires Width(w)
    ensures Accepted(w, signed, v) ==> r == Ok(v) && rest == ""
    ensures !Accepted(w, signed, v) && v >= 0 ==> r == Err(PositiveOverflow) && rest == Numeral(v)
    ensures !Accepted(w, signed, v) && v < 0 ==>
              r == Err(if signed then NegativeOverflow else NonDigitChar) && rest == Numeral(v)
  {
    hide Decimal.Value, Limit, Accepted, InRange, DigitEnd, NumeralStart, NumeralValue, HasNumeral;
    TypeBounds(v);
    NumeralMeans(v, signed);
    var s := Numeral(v);
    r, rest := StrToIntegral(w, signed, s);
    assert s[|s|..] == "";
  }

  lemma NumeralMeans(v: int, signed: bool)
    ensures var s := Numeral(v);
            && (v >= 0 || signed ==>
                  HasNumeral(s, signed) && NumeralValue(s, signed) == v && DigitEnd(s, NumeralStart(s, signed)) == |s|)
            && (v < 0 && !signed ==> !HasNumeral(s, signed) && NumeralError(s, signed) == NonDigitChar)
  {
    hide Decimal.Value, DigitEnd;
    var s, n := Numeral(v), if v < 0 then 1 else 0;
    var digits := Shortest(if v < 0 then -v else v);
    ShortestValue(if v < 0 then -v else v);
    assert s[n..] == digits;
    if v >= 0 || signed {
      WholeNumeral(s, signed, n);
    } else {
      assert s[0] == '-' && SpaceEnd(s, 0) == 0;
    }
  }

  /** Parsing what the signed 128-bit printer wrote gives back the number and leaves nothing. */
  method PrintThenParseSigned(v: int) returns (r: Result, rest: string)
    requires -170141183460469231731687303715884105728 <= v <= 170141183460469231731687303715884105727
    ensures r == Ok(v) && rest == ""
  {
    hide Value;
    TypeBounds(v);
    var s := PrintSigned128(v);
    assert s[0..] == s;
    WholeNumeral(s, true, if v < 0 then 1 else 0);
    r, rest := StrToIntegral(128, true, s);
  }

  /** The same for the unsigned printer. */
  method PrintThenParseUnsigned(x: nat) returns (r: Result, rest: string)
    requires x <= 340282366920938463463374607431768211455
    ensures r == Ok(x) && rest == ""
  {
    hide Value;
    TypeBounds(x);
    var s := Telescope128(x);
    assert s[0..] == s;
    WholeNumeral(s, false, 0);
    r, rest := StrToIntegral(128, false, s);
  }
}
