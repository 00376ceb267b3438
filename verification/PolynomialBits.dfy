/**
 Arithmetic of polynomials over GF(2).

 A fingerprint of k bits is a sequence of k coefficients, the highest first.  It stands for a residue modulo
 P(X) = X^k + p, where p is given by its own k coefficients.  Feeding message bits one at a time, by
 Horner's rule, defines what the fingerprint of a message is; the table-driven updates are proved equal to
 it, and it is proved to be the remainder of the message polynomial.
 */
module PolynomialBits {

  type Bits = seq<bool>

  function Zeros(n: nat): (z: Bits)
    ensures |z| == n
  {
    seq(n, _ => false)
  }

  function Xor(a: Bits, b: Bits): (r: Bits)
    requires |a| == |b|
    ensures |r| == |a|
  {
    seq(|a|, i requires 0 <= i < |a| => a[i] != b[i])
  }

  // -------------------------------------------------------------------- multiplication by X modulo P

  /** A(X) * X mod P(X). */
  function MulX(a: Bits, p: Bits): (r: Bits)
    requires |a| == |p| > 0
    ensures |r| == |a|
  {
    var shifted := a[1..] + [false];
    if a[0] then Xor(shifted, p) else shifted
  }

  function MulXn(a: Bits, n: nat, p: Bits): (r: Bits)
    requires |a| == |p| > 0
    ensures |r| == |a|
  {
    if n == 0 then a else MulX(MulXn(a, n - 1, p), p)
  }

  /** Append one message bit: A(X) * X + b mod P(X). */
  function Step(a: Bits, b: bool, p: Bits): (r: Bits)
    requires |a| == |p| > 0
    ensures |r| == |a|
  {
    Xor(MulX(a, p), Low([b], |a|))
  }

  /** Append message bits, the first one first. */
  function Feed(a: Bits, bits: Bits, p: Bits): (r: Bits)
    requires |a| == |p| > 0
    ensures |r| == |a|
    decreases |bits|
  {
    if bits == [] then a
    else Step(Feed(a, bits[..|bits| - 1], p), bits[|bits| - 1], p)
  }

  // -------------------------------------------------------------------- linearity

  lemma XorLaws(a: Bits, b: Bits, c: Bits)
    requires |a| == |b| == |c|
    ensures Xor(a, b) == Xor(b, a) && Xor(Xor(a, b), c) == Xor(a, Xor(b, c))
    ensures Xor(a, Zeros(|a|)) == a && Xor(a, a) == Zeros(|a|)
  {
  }

  lemma MulXLinear(a: Bits, b: Bits, p: Bits)
    requires |a| == |b| == |p| > 0
    ensures MulX(Xor(a, b), p) == Xor(MulX(a, p), MulX(b, p))
  {
    assert Xor(a, b)[1..] == Xor(a[1..], b[1..]);
  }

  lemma {:induction false} MulXnLinear(a: Bits, b: Bits, n: nat, p: Bits)
    requires |a| == |b| == |p| > 0
    ensures MulXn(Xor(a, b), n, p) == Xor(MulXn(a, n, p), MulXn(b, n, p))
  {
    if n > 0 {
      MulXnLinear(a, b, n - 1, p);
      MulXLinear(MulXn(a, n - 1, p), MulXn(b, n - 1, p), p);
    }
  }

  lemma {:induction false} MulXnAdds(a: Bits, m: nat, n: nat, p: Bits)
    requires |a| == |p| > 0
    ensures MulXn(MulXn(a, m, p), n, p) == MulXn(a, m + n, p)
  {
    if n > 0 {
      MulXnAdds(a, m, n - 1, p);
    }
  }

  /** While the high bits are zero, multiplying by X is a shift. */
  lemma {:induction false} MulXnShifts(low: Bits, n: nat, p: Bits)
    requires n + |low| == |p| > 0
    ensures MulXn(Zeros(n) + low, n, p) == low + Zeros(n)
    decreases n
  {
    if n == 0 {
      assert Zeros(0) + low == low && low + Zeros(0) == low;
    } else {
      var a := Zeros(n) + low;
      assert a == Zeros(n - 1) + ([false] + low);
      MulXnShifts([false] + low, n - 1, p);
      assert ([false] + low + Zeros(n - 1))[1..] + [false] == low + Zeros(n);
    }
  }

  /** `bits` as the low coefficients of k. */
  function Low(bits: Bits, k: nat): (r: Bits)
    requires |bits| <= k
    ensures |r| == k
  {
    Zeros(k - |bits|) + bits
  }

  /** The low part of a product with X, and a bit added to it. */
  lemma LowStep(bits: Bits, p: Bits)
    requires 0 < |bits| <= |p|
    ensures Xor(MulX(Low(bits[..|bits| - 1], |p|), p), Low([bits[|bits| - 1]], |p|)) == Low(bits, |p|)
  {
    var init := bits[..|bits| - 1];
    assert Low(init, |p|)[1..] + [false] == Zeros(|p| - |bits|) + init + [false];
  }

  lemma XorAssoc(a: Bits, b: Bits, c: Bits)
    requires |a| == |b| == |c|
    ensures Xor(Xor(a, b), c) == Xor(a, Xor(b, c)) && Xor(a, b) == Xor(b, a)
  {
    XorLaws(a, b, c);
  }

  lemma StepOfSum(m: Bits, low: Bits, bit: Bits, p: Bits)
    requires |m| == |low| == |bit| == |p| > 0
    ensures Xor(MulX(Xor(m, low), p), bit) == Xor(MulX(m, p), Xor(MulX(low, p), bit))
  {
    hide Xor, MulX;
    MulXLinear(m, low, p);
    XorAssoc(MulX(m, p), MulX(low, p), bit);
  }

  /** Feeding is multiplying by a power of X and adding. */
  lemma {:induction false} FeedIs(a: Bits, bits: Bits, p: Bits)
    requires |a| == |p| > 0 && |bits| <= |a|
    ensures Feed(a, bits, p) == Xor(MulXn(a, |bits|, p), Low(bits, |p|))
    decreases |bits|
  {
    hide Xor, MulX, Low;
    if bits == [] {
      NothingFed(a, bits, p);
    } else {
      var n := |bits| - 1;
      FeedIs(a, bits[..n], p);
      StepOfSum(MulXn(a, n, p), Low(bits[..n], |p|), Low([bits[n]], |p|), p);
      LowStep(bits, p);
    }
  }

  lemma NothingFed(a: Bits, bits: Bits, p: Bits)
    requires |a| == |p| > 0 && bits == []
    ensures a == Xor(a, Low(bits, |p|))
  {
    XorLaws(a, a, a);
    assert Low(bits, |p|) == Zeros(|p|);
  }

  /** The `n` highest coefficients alone. */
  function High(a: Bits, n: nat): (r: Bits)
    requires n <= |a|
    ensures |r| == |a|
  {
    a[..n] + Zeros(|a| - n)
  }

  /** Shifted left by |bits| places, with `bits` entering on the right. */
  function ShiftIn(a: Bits, bits: Bits): (r: Bits)
    requires |bits| <= |a|
    ensures |r| == |a|
  {
    a[|bits|..] + bits
  }

  lemma SplitHighLow(a: Bits, n: nat)
    requires n <= |a|
    ensures a == Xor(High(a, n), Low(a[n..], |a|))
  {
  }

  lemma LowShifts(a: Bits, n: nat, p: Bits)
    requires n <= |a| == |p| && 0 < |p|
    ensures MulXn(Low(a[n..], |a|), n, p) == ShiftIn(a, Zeros(n))
  {
    MulXnShifts(a[n..], n, p);
  }

  lemma JoinLow(a: Bits, bits: Bits)
    requires |bits| <= |a|
    ensures Xor(ShiftIn(a, Zeros(|bits|)), Low(bits, |a|)) == ShiftIn(a, bits)
  {
  }

  /** Shifting in `bits` and adding the residue of what was shifted out. */
  lemma ShiftAndReduce(a: Bits, bits: Bits, p: Bits)
    requires |a| == |p| > 0 && |bits| <= |a|
    ensures Feed(a, bits, p) == Xor(ShiftIn(a, bits), MulXn(High(a, |bits|), |bits|, p))
  {
    hide Xor, MulX, MulXn, Zeros, Low, High, ShiftIn, Feed;
    var n := |bits|;
    var high, low := High(a, n), Low(a[n..], |a|);
    FeedIs(a, bits, p);
    SplitHighLow(a, n);
    MulXnLinear(high, low, n, p);
    LowShifts(a, n, p);
    var h, s, b := MulXn(high, n, p), ShiftIn(a, Zeros(n)), Low(bits, |a|);
    XorAssoc(h, s, b);
    JoinLow(a, bits);
    XorAssoc(h, ShiftIn(a, bits), b);
  }

  lemma InitOfConcat(first: Bits, second: Bits)
    requires second != []
    ensures (first + second)[..|first + second| - 1] == first + second[..|second| - 1]
    ensures (first + second)[|first + second| - 1] == second[|second| - 1]
  {
  }

  lemma {:induction false} FeedAppends(a: Bits, first: Bits, second: Bits, p: Bits)
    requires |a| == |p| > 0
    ensures Feed(Feed(a, first, p), second, p) == Feed(a, first + second, p)
    decreases |second|
  {
    hide Step;
    if second == [] {
      assert first + second == first;
    } else {
      FeedAppends(a, first, second[..|second| - 1], p);
      InitOfConcat(first, second);
    }
  }

  // -------------------------------------------------------------------- the tables

  /** A byte as the highest coefficients of k. */
  function Top(q: Bits, k: nat): (r: Bits)
    requires |q| <= k
    ensures |r| == k
  {
    q + Zeros(k - |q|)
  }

  /** The entry for a byte `q` that leaves the register with `i` bytes still to be shifted in behind it. */
  function TableEntry(i: nat, q: Bits, p: Bits): (r: Bits)
    requires |q| == 8 <= |p|
    ensures |r| == |p|
  {
    MulXn(Top(q, |p|), 8 * (i + 1), p)
  }

  /** The sum of the table entries of the `n` bytes of `out`, the last byte with table 0. */
  function TableSum(out: Bits, n: nat, p: Bits): (r: Bits)
    requires |out| == 8 * n <= |p| && 8 <= |p|
    ensures |r| == |p|
    decreases n
  {
    if n == 0 then Zeros(|p|)
    else Xor(TableEntry(n - 1, out[..8], p), TableSum(out[8..], n - 1, p))
  }

  lemma {:induction false} TableSumReduces(out: Bits, n: nat, p: Bits)
    requires |out| == 8 * n <= |p| && 8 <= |p|
    ensures MulXn(Top(out, |p|), |out|, p) == TableSum(out, n, p)
    decreases n
  {
    hide Xor, MulXn, Top, Zeros;
    if n == 0 {
      NothingOut(out, p);
    } else {
      var rest := out[8..];
      HeadAndRest(out, |p|);
      MulXnLinear(Top(out[..8], |p|), Behind(rest, |p|), |out|, p);
      MulXnAdds(Behind(rest, |p|), 8, |rest|, p);
      BehindShifts(rest, p);
      TableSumReduces(rest, n - 1, p);
    }
  }

  /** `rest` as the coefficients after the eight highest. */
  function Behind(rest: Bits, k: nat): (r: Bits)
    requires |rest| + 8 <= k
    ensures |r| == k
  {
    Zeros(8) + rest + Zeros(k - 8 - |rest|)
  }

  lemma NothingOut(out: Bits, p: Bits)
    requires out == [] && |p| > 0
    ensures MulXn(Top(out, |p|), 0, p) == Zeros(|p|)
  {
    assert Top(out, |p|) == Zeros(|p|);
  }

  lemma HeadAndRest(out: Bits, k: nat)
    requires 8 <= |out| <= k
    ensures Top(out, k) == Xor(Top(out[..8], k), Behind(out[8..], k))
  {
  }

  lemma BehindShifts(rest: Bits, p: Bits)
    requires |rest| + 8 <= |p|
    ensures MulXn(Behind(rest, |p|), 8, p) == Top(rest, |p|)
  {
    hide MulXn, MulX, Behind, Top;
    BehindIs(rest, |p|);
    MulXnShifts(rest + Zeros(|p| - 8 - |rest|), 8, p);
  }

  lemma BehindIs(rest: Bits, k: nat)
    requires |rest| + 8 <= k
    ensures var low := rest + Zeros(k - 8 - |rest|);
            Behind(rest, k) == Zeros(8) + low && low + Zeros(8) == Top(rest, k)
  {
  }

  /** What an update by whole bytes computes: shift, and add one table entry per byte shifted out. */
  lemma UpdateFeeds(a: Bits, bits: Bits, n: nat, p: Bits)
    requires |a| == |p| && |bits| == 8 * n <= |a| && 8 <= |a|
    ensures Xor(a[|bits|..] + bits, TableSum(a[..|bits|], n, p)) == Feed(a, bits, p)
  {
    hide Xor, MulXn, TableSum, Feed, Zeros;
    ShiftAndReduce(a, bits, p);
    TableSumReduces(a[..|bits|], n, p);
  }

  // -------------------------------------------------------------------- remainders

  /** The coefficient of X^i of a polynomial whose coefficients are listed from X^0 up. */
  predicate Coef(f: Bits, i: int) {
    0 <= i < |f| && f[i]
  }

  function Reversed(a: Bits): (r: Bits)
    ensures |r| == |a| && forall i | 0 <= i < |a| :: r[i] == a[|a| - 1 - i]
  {
    seq(|a|, i requires 0 <= i < |a| => a[|a| - 1 - i])
  }

  /** P(X) with its leading term, from X^0 up. */
  function Modulus(p: Bits): (m: Bits)
    ensures |m| == |p| + 1
  {
    Reversed(p) + [true]
  }

  /** The coefficient of X^i in q * f. */
  predicate ProductCoef(q: Bits, f: Bits, i: int)
    decreases |q|
  {
    if q == [] then false
    else (q[0] && Coef(f, i)) != ProductCoef(q[1..], f, i - 1)
  }

  /** a = q * P + r, coefficient by coefficient; `a` and `r` are listed from the highest coefficient down. */
  ghost predicate Divides(a: Bits, q: Bits, r: Bits, p: Bits) {
    forall i: int :: Coef(Reversed(a), i) == (ProductCoef(q, Modulus(p), i) != Coef(Reversed(r), i))
  }

  lemma AppendCoef(a: Bits, b: bool, i: int)
    ensures Coef(Reversed(a + [b]), i) == if i == 0 then b else Coef(Reversed(a), i - 1)
  {
  }

  lemma ModulusCoef(p: Bits, i: int)
    ensures Coef(Modulus(p), i) == (i == |p| || Coef(Reversed(p), i))
  {
  }

  lemma StepCoef(r: Bits, b: bool, p: Bits, i: int)
    requires |r| == |p| > 0
    ensures Coef(Reversed(r), |p| - 1) == r[0] && (i >= |p| ==> !Coef(Reversed(r), i) && !Coef(Reversed(p), i))
    ensures i > |p| ==> !Coef(Reversed(r), i - 1)
    ensures Coef(Reversed(Step(r, b, p)), i) ==
            (i < |p| && ((if i == 0 then b else Coef(Reversed(r), i - 1)) != (r[0] && Coef(Reversed(p), i))))
  {
  }

  lemma StepDividesAt(a: Bits, q: Bits, r: Bits, b: bool, p: Bits, i: int)
    requires Coef(Reversed(a), i - 1) == (ProductCoef(q, Modulus(p), i - 1) != Coef(Reversed(r), i - 1))
             && |r| == |p| > 0
    ensures Coef(Reversed(a + [b]), i) == (ProductCoef([r[0]] + q, Modulus(p), i) != Coef(Reversed(Step(r, b, p)), i))
  {
    hide Coef, Modulus, Reversed, Step;
    assert ([r[0]] + q)[1..] == q;
    AppendCoef(a, b, i);
    ModulusCoef(p, i);
    StepCoef(r, b, p, i);
    NoCoefBelow(r, p, i);
    ProductLow(q, Modulus(p), i - 1);
  }

  lemma NoCoefBelow(r: Bits, p: Bits, i: int)
    ensures i < 0 ==> !Coef(Reversed(r), i) && !Coef(Reversed(p), i) && !Coef(Reversed(r), i - 1)
    ensures i == 0 ==> !Coef(Reversed(r), i - 1)
  {
  }

  /** Below X^0 there is nothing. */
  lemma {:induction false} ProductLow(q: Bits, f: Bits, i: int)
    ensures i < 0 ==> !ProductCoef(q, f, i)
    decreases |q|
  {
    if q != [] {
      ProductLow(q[1..], f, i - 1);
    }
  }

  /** One step of Horner's rule keeps the division: the bit that was shifted out extends the quotient. */
  lemma StepDivides(a: Bits, q: Bits, r: Bits, b: bool, p: Bits)
    requires Divides(a, q, r, p) && |r| == |p| > 0
    ensures Divides(a + [b], [r[0]] + q, Step(r, b, p), p)
  {
    hide Divides, Step, Coef, ProductCoef;
    forall i: int
      ensures Coef(Reversed(a + [b]), i) == (ProductCoef([r[0]] + q, Modulus(p), i) != Coef(Reversed(Step(r, b, p)), i))
    {
      DividesAt(a, q, r, p, i - 1);
      StepDividesAt(a, q, r, b, p, i);
    }
    DividesFrom(a + [b], [r[0]] + q, Step(r, b, p), p);
  }

  lemma DividesAt(a: Bits, q: Bits, r: Bits, p: Bits, i: int)
    requires Divides(a, q, r, p)
    ensures Coef(Reversed(a), i) == (ProductCoef(q, Modulus(p), i) != Coef(Reversed(r), i))
  {
  }

  lemma DividesFrom(a: Bits, q: Bits, r: Bits, p: Bits)
    requires forall i: int :: Coef(Reversed(a), i) == (ProductCoef(q, Modulus(p), i) != Coef(Reversed(r), i))
    ensures Divides(a, q, r, p)
  {
  }

  /** The fingerprint of a message, started from `start`, is the remainder of the message with `start` in front
      of it. */
  lemma {:induction false} FeedIsRemainder(start: Bits, bits: Bits, p: Bits) returns (q: Bits)
    requires |start| == |p| > 0
    ensures Divides(start + bits, q, Feed(start, bits, p), p) && |Feed(start, bits, p)| == |p|
    decreases |bits|
  {
    hide Step, Xor;
    if bits == [] {
      q := [];
      assert start + bits == start;
    } else {
      var n := |bits| - 1;
      var q' := FeedIsRemainder(start, bits[..n], p);
      var r := Feed(start, bits[..n], p);
      StepDivides(start + bits[..n], q', r, bits[n], p);
      assert start + bits[..n] + [bits[n]] == start + bits;
      q := [r[0]] + q';
    }
  }

  // -------------------------------------------------------------------- the remainder is unique

  lemma {:induction false} ProductPads(q: Bits, n: nat, f: Bits, i: int)
    ensures ProductCoef(q + Zeros(n), f, i) == ProductCoef(q, f, i)
    decreases |q|
  {
    if q == [] {
      assert q + Zeros(n) == Zeros(n);
      ProductOfZeros(n, f, i);
    } else {
      assert (q + Zeros(n))[1..] == q[1..] + Zeros(n);
      ProductPads(q[1..], n, f, i - 1);
    }
  }

  lemma {:induction false} ProductOfZeros(n: nat, f: Bits, i: int)
    ensures !ProductCoef(Zeros(n), f, i)
  {
    if n > 0 {
      assert Zeros(n)[1..] == Zeros(n - 1);
      ProductOfZeros(n - 1, f, i - 1);
    }
  }

  lemma {:induction false} ProductLinear(a: Bits, b: Bits, f: Bits, i: int)
    requires |a| == |b|
    ensures ProductCoef(Xor(a, b), f, i) == (ProductCoef(a, f, i) != ProductCoef(b, f, i))
    decreases |a|
  {
    if a != [] {
      assert Xor(a, b)[1..] == Xor(a[1..], b[1..]);
      ProductLinear(a[1..], b[1..], f, i - 1);
    }
  }

  /** The product with a monic polynomial has the leading term of the other factor. */
  lemma {:induction false} ProductTop(d: Bits, p: Bits)
    requires d != [] && d[|d| - 1]
    ensures ProductCoef(d, Modulus(p), |p| + |d| - 1)
    decreases |d|
  {
    if |d| > 1 {
      ProductTop(d[1..], p);
    } else {
      assert d[1..] == [];
    }
  }

  /** A multiple of P of degree below P's is zero. */
  lemma {:induction false} SmallMultipleIsZero(d: Bits, p: Bits)
    requires forall i | i >= |p| :: !ProductCoef(d, Modulus(p), i)
    ensures d == Zeros(|d|)
    decreases |d|
  {
    if d != [] {
      var n := |d| - 1;
      if d[n] {
        ProductTop(d, p);
      }
      assert d == d[..n] + Zeros(1);
      forall i | i >= |p|
        ensures !ProductCoef(d[..n], Modulus(p), i)
      {
        ProductPads(d[..n], 1, Modulus(p), i);
      }
      SmallMultipleIsZero(d[..n], p);
    }
  }

  /** No other polynomial of degree below P's is congruent to the same polynomial. */
  lemma RemainderIsUnique(a: Bits, q: Bits, r: Bits, q': Bits, r': Bits, p: Bits)
    requires Divides(a, q, r, p) && Divides(a, q', r', p) && |r| == |r'| == |p|
    ensures r == r'
  {
    var m := Modulus(p);
    var x, y := q + Zeros(|q'|), q' + Zeros(|q|);
    var d := Xor(x, y);
    forall i: int
      ensures ProductCoef(d, m, i) == (Coef(Reversed(r), i) != Coef(Reversed(r'), i))
    {
      ProductPads(q, |q'|, m, i);
      ProductPads(q', |q|, m, i);
      ProductLinear(x, y, m, i);
      assert Coef(Reversed(a), i) == (ProductCoef(q, m, i) != Coef(Reversed(r), i));
    }
    SmallMultipleIsZero(d, p);
    forall i | 0 <= i < |p|
      ensures r[i] == r'[i]
    {
      ProductOfZeros(|d|, m, |p| - 1 - i);
      assert Reversed(r)[|p| - 1 - i] == r[i] && Reversed(r')[|p| - 1 - i] == r'[i];
    }
  }
}
