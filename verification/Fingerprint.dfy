/**
 Fingerprint<BITS>: Rabin fingerprints of 64, 96 and 128 bits, kept in 64-bit words and updated 8, 32 or 64
 bits at a time from tables that are filled by repeated multiplication by X.

 A word is its 64 bits, the highest first; the word operations are those of uint64_t.
 */
module Fingerprints {
  import opened PolynomialBits

  type Word = w: Bits | |w| == 64 witness seq(64, _ => false)

  // -------------------------------------------------------------------- words

  function Shl(w: Word, n: nat): (r: Word)
    requires n <= 64
  {
    w[n..] + Zeros(n)
  }

  function Shr(w: Word, n: nat): (r: Word)
    requires n <= 64
  {
    Zeros(n) + w[..64 - n]
  }

  function Or(a: Word, b: Word): (r: Word)
    ensures forall i | 0 <= i < 64 :: r[i] == (a[i] || b[i])
  {
    seq(64, i requires 0 <= i < 64 => a[i] || b[i])
  }

  /** (uint64_t)v. */
  function Widen(v: Bits): (r: Word)
    requires |v| <= 64
  {
    Zeros(64 - |v|) + v
  }

  /** The conversion to an unsigned type of `n` bits. */
  function Narrow(w: Word, n: nat): (r: Bits)
    requires n <= 64
    ensures |r| == n
  {
    w[64 - n..]
  }

  function Join(a: Bits, b: Bits): (r: Bits) {
    a + b
  }

  function ZeroWord(): (w: Word) {
    Zeros(64)
  }

  /** All bits of some words. */
  function Flat(ws: seq<Word>): (r: Bits)
    ensures |r| == 64 * |ws|
    decreases |ws|
  {
    if ws == [] then [] else ws[0] + Flat(ws[1..])
  }

  /** The words that hold `k` bits; the unused low bits of the last word are zero. */
  predicate Holds(ws: seq<Word>, k: nat) {
    && 0 < k <= 64 * |ws| < k + 64
    && forall i | k <= i < 64 * |ws| :: !Flat(ws)[i]
  }

  function View(ws: seq<Word>, k: nat): (r: Bits)
    requires Holds(ws, k)
    ensures |r| == k
  {
    Flat(ws)[..k]
  }

  lemma OneWord(ws: seq<Word>)
    requires |ws| == 1
    ensures Flat(ws) == ws[0]
  {
    assert ws[1..] == [];
  }

  lemma TwoWords(ws: seq<Word>)
    requires |ws| == 2
    ensures Flat(ws) == Join(ws[0], ws[1])
  {
    OneWord(ws[1..]);
  }

  function XorWord(a: Word, b: Word): (r: Word) {
    Xor(a, b)
  }

  function XorWords(a: seq<Word>, b: seq<Word>): (r: seq<Word>)
    requires |a| == |b|
    ensures |r| == |a| && forall i | 0 <= i < |a| :: r[i] == Xor(a[i], b[i])
  {
    seq(|a|, i requires 0 <= i < |a| => XorWord(a[i], b[i]))
  }

  lemma {:induction false} XorFlat(a: seq<Word>, b: seq<Word>)
    requires |a| == |b|
    ensures Flat(XorWords(a, b)) == Xor(Flat(a), Flat(b))
    decreases |a|
  {
    if a != [] {
      assert XorWords(a, b)[1..] == XorWords(a[1..], b[1..]);
      XorFlat(a[1..], b[1..]);
    }
  }

  lemma XorView(a: seq<Word>, b: seq<Word>, k: nat)
    requires |a| == |b| && Holds(a, k) && Holds(b, k)
    ensures Holds(XorWords(a, b), k) && View(XorWords(a, b), k) == Xor(View(a, k), View(b, k))
  {
    XorFlat(a, b);
  }

  // -------------------------------------------------------------------- bytes

  function ToBits(x: nat, n: nat): (r: Bits)
    ensures |r| == n
  {
    if n == 0 then [] else ToBits(x / 2, n - 1) + [x % 2 == 1]
  }

  function FromBits(b: Bits): (x: nat)
    decreases |b|
  {
    if b == [] then 0 else 2 * FromBits(b[..|b| - 1]) + (if b[|b| - 1] then 1 else 0)
  }

  lemma {:induction false} BitsRoundTrip(b: Bits)
    ensures ToBits(FromBits(b), |b|) == b
    decreases |b|
  {
    if b != [] {
      BitsRoundTrip(b[..|b| - 1]);
    }
  }

  lemma ByteRange(b: Bits)
    requires |b| == 8
    ensures FromBits(b) < 256 && ToBits(FromBits(b), 8) == b
  {
    BitsRoundTrip(b);
    var c := b[..7];
    var d := c[..6];
    var e := d[..5];
    var f := e[..4];
    var g := f[..3];
    var h := g[..2];
    var i := h[..1];
    assert FromBits(i) <= 1 && FromBits(h) <= 3 && FromBits(g) <= 7 && FromBits(f) <= 15;
    assert FromBits(e) <= 31 && FromBits(d) <= 63 && FromBits(c) <= 127;
  }

  // -------------------------------------------------------------------- FingerprintPolynomial

  class Polynomial {
    const k: nat   // DEG + 1
    var val: seq<Word>

    ghost predicate Valid()
      reads this
    {
      Holds(val, k) && 8 <= k
    }

    ghost function Value(): (r: Bits)
      reads this
      requires Valid()
      ensures |r| == k
    {
      View(val, k)
    }

    constructor (k: nat, n: nat)
      requires 8 <= k <= 64 * n < k + 64
      ensures Valid() && this.k == k && |val| == n
    {
      this.k := k;
      val := seq(n, _ => ZeroWord());
      new;
      FlatZeros(val);
    }

    /** Multiply by X as a plain shift through the words. */
    method MulX()
      requires val != []
      modifies this
      ensures |val| == old(|val|) && Flat(val) == Flat(old(val))[1..] + [false]
    {
      var b := false;
      var i := |val|;
      while i > 0
        invariant 0 <= i <= |val| == old(|val|)
        invariant i > 0 ==> b == CarryInto(old(val), i - 1)
        invariant val[..i] == old(val)[..i]
        invariant forall j | i <= j < |val| :: val[j] == ShiftWord(old(val)[j], CarryInto(old(val), j))
      {
        assert val[i - 1] == val[..i][i - 1] == old(val)[..i][i - 1];
        i := i - 1;
        var nb := val[i][0];               // val_[i] >> 63
        assert Or(Shl(val[i], 1), Widen([b])) == ShiftWord(val[i], b);
        val := val[i := Or(Shl(val[i], 1), Widen([b]))];
        b := nb;
      }
      ShiftedFlat(old(val), val);
    }

    method Add(other: seq<Word>)
      requires |other| == |val|
      modifies this
      ensures val == XorWords(old(val), other)
    {
      var i := 0;
      while i < |val|
        invariant 0 <= i <= |val| == old(|val|)
        invariant forall j | 0 <= j < i :: val[j] == Xor(old(val)[j], other[j])
        invariant val[i..] == old(val)[i..]
      {
        val := val[i := XorWord(val[i], other[i])];
        i := i + 1;
      }
    }

    /** this * X mod P. */
    method MulXmod(p: seq<Word>)
      requires Valid() && |p| == |val| && Holds(p, k)
      modifies this
      ensures Valid() && |val| == old(|val|) && Value() == PolynomialBits.MulX(old(Value()), View(p, k))
    {
      var needXor := val[0][0];
      ghost var before := val;
      val := val[0 := ClearTop(val[0])];
      ClearedFlat(before, val);
      MulX();
      ReducedView(before, val, k);
      if needXor {
        XorView(val, p, k);
        Add(p);
      }
    }

    method MulXkmod(n: nat, p: seq<Word>)
      requires Valid() && |p| == |val| && Holds(p, k)
      modifies this
      ensures Valid() && |val| == old(|val|) && Value() == MulXn(old(Value()), n, View(p, k))
    {
      var i := 0;
      while i < n
        invariant 0 <= i <= n && Valid() && |val| == old(|val|) && Value() == MulXn(old(Value()), i, View(p, k))
      {
        MulXmod(p);
        i := i + 1;
      }
    }

    method SetHigh8Bits(v: Bits)
      requires Valid() && |v| == 8
      modifies this
      ensures Valid() && |val| == old(|val|) && Value() == v + Zeros(k - 8)
    {
      val := val[0 := Shl(Widen(v), 56)];
      var i := 1;
      while i < |val|
        invariant 1 <= i <= |val| == old(|val|) && val[0] == Shl(Widen(v), 56)
        invariant forall j | 1 <= j < i :: val[j] == ZeroWord()
      {
        val := val[i := ZeroWord()];
        i := i + 1;
      }
      High8Flat(val, v);
    }
  }

  function ShiftWord(w: Word, b: bool): (r: Word) {
    w[1..] + [b]
  }

  /** The bit that enters word `j` when all words are shifted left by one. */
  function CarryInto(ws: seq<Word>, j: nat): (b: bool) {
    j + 1 < |ws| && ws[j + 1][0]
  }

  function ClearTop(w: Word): (r: Word) {
    w[0 := false]
  }

  lemma {:induction false} FlatZeros(ws: seq<Word>)
    requires forall i | 0 <= i < |ws| :: ws[i] == ZeroWord()
    ensures Flat(ws) == Zeros(64 * |ws|)
    decreases |ws|
  {
    if ws != [] {
      FlatZeros(ws[1..]);
    }
  }

  lemma {:induction false} ShiftedFlat(a: seq<Word>, b: seq<Word>)
    requires |a| == |b| > 0
    requires forall j | 0 <= j < |a| :: b[j] == ShiftWord(a[j], CarryInto(a, j))
    ensures Flat(b) == Flat(a)[1..] + [false]
    decreases |a|
  {
    if |a| == 1 {
      OneWord(a);
      OneWord(b);
    } else {
      var a', b' := a[1..], b[1..];
      forall j | 0 <= j < |a'|
        ensures b'[j] == ShiftWord(a'[j], CarryInto(a', j))
      {
        assert b'[j] == b[j + 1] && a'[j] == a[j + 1];
      }
      ShiftedFlat(a', b');
      assert Flat(a)[1..] == a[0][1..] + Flat(a[1..]);
      assert Flat(a[1..])[0] == a[1][0];
      assert Flat(a[1..]) == [a[1][0]] + Flat(a[1..])[1..];
    }
  }

  lemma ClearedFlat(a: seq<Word>, b: seq<Word>)
    requires a != [] && b == a[0 := ClearTop(a[0])]
    ensures Flat(b) == Flat(a)[0 := false]
  {
    assert b[1..] == a[1..];
  }

  lemma ReducedView(a: seq<Word>, b: seq<Word>, k: nat)
    requires Holds(a, k) && |a| == |b| && Flat(b) == Flat(a)[0 := false][1..] + [false]
    ensures Holds(b, k) && View(b, k) == View(a, k)[1..] + [false]
  {
  }

  lemma HighWord(v: Bits)
    requires |v| == 8
    ensures Shl(Widen(v), 56) == v + Zeros(56)
  {
  }

  lemma JoinZeros(v: Bits, m: nat, n: nat)
    ensures (v + Zeros(m)) + Zeros(n) == v + Zeros(m + n)
  {
  }

  /** A word in front of zero words. */
  lemma FirstWord(ws: seq<Word>, w: Bits)
    requires ws != [] && ws[0] == w && forall i | 1 <= i < |ws| :: ws[i] == ZeroWord()
    ensures Flat(ws) == w + Zeros(64 * (|ws| - 1))
  {
    hide Zeros, ZeroWord;
    FlatZeros(ws[1..]);
  }

  lemma High8Flat(ws: seq<Word>, v: Bits)
    requires |v| == 8 && ws != [] && ws[0] == Shl(Widen(v), 56) && forall i | 1 <= i < |ws| :: ws[i] == ZeroWord()
    ensures Flat(ws) == v + Zeros(56 + 64 * (|ws| - 1))
  {
    hide *;
    HighWord(v);
    FirstWord(ws, v + Zeros(56));
    JoinZeros(v, 56, 64 * (|ws| - 1));
  }

  // -------------------------------------------------------------------- make_poly_table

  ghost predicate EntryOk(words: seq<Word>, i: nat, x: nat, p: seq<Word>, k: nat)
    requires 8 <= k && Holds(p, k)
  {
    |words| == |p| && Holds(words, k) && View(words, k) == TableEntry(i, ToBits(x, 8), View(p, k))
  }

  /** table[i][x] is X^(k + 8 i) times the polynomial of the bits of x, modulo P. */
  method MakePolyTable(k: nat, p: seq<Word>) returns (table: array2<seq<Word>>)
    requires 8 <= k && Holds(p, k)
    ensures fresh(table) && table.Length0 == 8 && table.Length1 == 256
    ensures forall i, x | 0 <= i < 8 && 0 <= x < 256 :: EntryOk(table[i, x], i, x, p, k)
  {
    table := new seq<Word>[8, 256];
    var t := new Polynomial(k, |p|);
    var x := 0;
    while x < 256
      invariant 0 <= x <= 256 && t.Valid() && t.k == k && |t.val| == |p|
      invariant forall i, y | 0 <= i < 8 && 0 <= y < x :: EntryOk(table[i, y], i, y, p, k)
    {
      t.SetHigh8Bits(ToBits(x, 8));
      ghost var start := t.Value();
      var i := 0;
      while i < 8
        invariant 0 <= i <= 8 && t.Valid() && t.k == k && |t.val| == |p|
        invariant t.Value() == MulXn(start, 8 * i, View(p, k))
        invariant forall j, y | 0 <= j < 8 && 0 <= y < x :: EntryOk(table[j, y], j, y, p, k)
        invariant forall j | 0 <= j < i :: EntryOk(table[j, x], j, x, p, k)
      {
        MulXnAdds(start, 8 * i, 8, View(p, k));
        t.MulXkmod(8, p);
        table[i, x] := t.val;
        i := i + 1;
      }
      x := x + 1;
    }
  }

  // -------------------------------------------------------------------- Fingerprint

  predicate Width(k: nat) {
    k == 64 || k == 96 || k == 128
  }

  /** `after` is `before` shifted left by |v| bits with `v` entering on the right. */
  ghost predicate Shifted(before: seq<Word>, after: seq<Word>, v: Bits, out: Bits, k: nat) {
    && Holds(before, k) && Holds(after, k) && |v| == |out| <= k && |after| == |before|
    && out == View(before, k)[..|v|] && View(after, k) == View(before, k)[|v|..] + v
  }

  lemma Shifted64(w: Word, w': Word, v: Bits, out: Bits)
    requires |v| <= 64 && out == Narrow(Shr(w, 64 - |v|), |v|) && w' == Or(Shl(w, |v|), Widen(v))
    ensures Shifted([w], [w'], v, out, 64)
  {
    OneWord([w]);
    OneWord([w']);
    assert w' == w[|v|..] + v;
  }

  /** Bits leaving the second word enter the first. */
  lemma Shifted128(a: Word, b: Word, a': Word, b': Word, v: Bits, out: Bits)
    requires |v| <= 64 && out == Narrow(Shr(a, 64 - |v|), |v|)
    requires a' == Or(Shl(a, |v|), Shr(b, 64 - |v|)) && b' == Or(Shl(b, |v|), Widen(v))
    ensures Shifted([a, b], [a', b'], v, out, 128)
  {
    TwoWords([a, b]);
    TwoWords([a', b']);
    assert a' == a[|v|..] + b[..|v|];
    assert b' == b[|v|..] + v;
    assert Join(a, b)[..|v|] == out;
    assert Join(a', b') == Join(a, b)[|v|..] + v;
  }

  /** 96 bits: the second word is used down to bit 32. */
  lemma Shifted96(a: Word, b: Word, a': Word, b': Word, v: Bits, out: Bits)
    requires |v| <= 32 && Holds([a, b], 96) && out == Narrow(Shr(a, 64 - |v|), |v|)
    requires a' == Or(Shl(a, |v|), Shr(b, 64 - |v|)) && b' == Or(Shl(b, |v|), Shl(Widen(v), 32))
    ensures Shifted([a, b], [a', b'], v, out, 96)
  {
    TwoWords([a, b]);
    TwoWords([a', b']);
    LowZero(a, b);
    assert a' == a[|v|..] + b[..|v|];
    assert Shl(Widen(v), 32) == Zeros(32 - |v|) + v + Zeros(32);
    assert b' == b[|v|..32] + v + Zeros(32);
    Shifted96View(a, b, a', b', v, out);
  }

  lemma LowZero(a: Word, b: Word)
    requires Holds([a, b], 96)
    ensures b[32..] == Zeros(32)
  {
    TwoWords([a, b]);
    forall i | 32 <= i < 64
      ensures !b[i]
    {
      assert !Flat([a, b])[64 + i];
    }
  }

  lemma Shifted96View(a: Word, b: Word, a': Word, b': Word, v: Bits, out: Bits)
    requires |v| <= 32 && Holds([a, b], 96) && out == a[..|v|]
    requires a' == a[|v|..] + b[..|v|] && b' == b[|v|..32] + v + Zeros(32)
    ensures Shifted([a, b], [a', b'], v, out, 96)
  {
    TwoWords([a, b]);
    TwoWords([a', b']);
    assert Join(a, b)[..96][|v|..] + v == a[|v|..] + b[..32] + v;
    assert Join(a', b')[..96] == a[|v|..] + b[..32] + v;
  }

  lemma Shifted96By64(a: Word, b: Word, a': Word, b': Word, v: Word)
    requires Holds([a, b], 96) && a' == Or(b, Shr(v, 32)) && b' == Shl(v, 32)
    ensures Shifted([a, b], [a', b'], v, a, 96)
  {
    TwoWords([a, b]);
    TwoWords([a', b']);
    LowZero(a, b);
    assert a' == b[..32] + v[..32];
    assert Join(a, b)[..96][64..] + v == b[..32] + v;
    assert Join(a', b')[..96] == b[..32] + v;
  }

  class Fingerprint {
    const k: nat                        // BITS
    const poly: seq<Word>
    const table: array2<seq<Word>>
    var fp: seq<Word>
    ghost var message: Bits             // what has been fed so far

    /** The starting value: X^(k-1). */
    ghost function Start(): (r: Bits)
      requires k > 0
      ensures |r| == k
    {
      [true] + Zeros(k - 1)
    }

    ghost predicate TablesOk()
      reads table
    {
      && Width(k) && Holds(poly, k) && table.Length0 == 8 && table.Length1 == 256
      && forall i, x | 0 <= i < 8 && 0 <= x < 256 :: EntryOk(table[i, x], i, x, poly, k)
    }

    ghost function P(): (p: Bits)
      reads table
      requires TablesOk()
      ensures |p| == k
    {
      View(poly, k)
    }

    ghost function Value(): (r: Bits)
      reads this, table
      requires TablesOk() && Holds(fp, k)
      ensures |r| == k
    {
      View(fp, k)
    }

    ghost predicate Valid()
      reads this, table
    {
      TablesOk() && Holds(fp, k) && |fp| == |poly| && Value() == Feed(Start(), message, P())
    }

    constructor (k: nat, poly: seq<Word>)
      requires Width(k) && Holds(poly, k)
      ensures Valid() && this.k == k && this.poly == poly && message == [] && fresh(table)
      ensures fp[0] == [true] + Zeros(63) && forall i | 1 <= i < |fp| :: fp[i] == Zeros(64)
    {
      this.k, this.poly, message := k, poly, [];
      var t := MakePolyTable(k, poly);
      table := t;
      fp := [TopBit()] + seq(|poly| - 1, _ => ZeroWord());
      new;
      StartFlat(fp);
    }

    /** fp_ ^= a table entry. */
    method XorTab(words: seq<Word>)
      requires TablesOk() && Holds(fp, k) && |words| == |fp| && Holds(words, k)
      modifies this`fp
      ensures Holds(fp, k) && |fp| == |old(fp)| && Value() == Xor(old(Value()), View(words, k))
    {
      XorView(fp, words, k);
      ghost var before := fp;
      var i := 0;
      while i < |fp|
        invariant 0 <= i <= |fp| == |before|
        invariant forall j | 0 <= j < i :: fp[j] == Xor(before[j], words[j])
        invariant fp[i..] == before[i..]
      {
        fp := fp[i := XorWord(fp[i], words[i])];
        i := i + 1;
      }
      assert fp == XorWords(before, words);
    }

    method ShlOr8(v: Bits) returns (out: Bits)
      requires TablesOk() && Holds(fp, k) && |fp| == |poly| && |v| == 8
      modifies this`fp
      ensures Shifted(old(fp), fp, v, out, k)
    {
      out := Narrow(Shr(fp[0], 56), 8);
      if k == 64 {
        Shifted64(fp[0], Or(Shl(fp[0], 8), Widen(v)), v, out);
        assert fp == [fp[0]];
        fp := [Or(Shl(fp[0], 8), Widen(v))];
      } else if k == 96 {
        assert fp == [fp[0], fp[1]];
        var a, b := Or(Shl(fp[0], 8), Shr(fp[1], 56)), Or(Shl(fp[1], 8), Shl(Widen(v), 32));
        Shifted96(fp[0], fp[1], a, b, v, out);
        fp := [a, b];
      } else {
        assert fp == [fp[0], fp[1]];
        var a, b := Or(Shl(fp[0], 8), Shr(fp[1], 56)), Or(Shl(fp[1], 8), Widen(v));
        Shifted128(fp[0], fp[1], a, b, v, out);
        fp := [a, b];
      }
    }

    method ShlOr32(v: Bits) returns (out: Bits)
      requires TablesOk() && Holds(fp, k) && |fp| == |poly| && |v| == 32
      modifies this`fp
      ensures Shifted(old(fp), fp, v, out, k)
    {
      out := Narrow(Shr(fp[0], 32), 32);
      if k == 64 {
        Shifted64(fp[0], Or(Shl(fp[0], 32), Widen(v)), v, out);
        assert fp == [fp[0]];
        fp := [Or(Shl(fp[0], 32), Widen(v))];
      } else if k == 96 {
        assert fp == [fp[0], fp[1]];
        var a, b := Or(Shl(fp[0], 32), Shr(fp[1], 32)), Shl(Widen(v), 32);
        LowZero(fp[0], fp[1]);
        assert Or(Shl(fp[1], 32), b) == b;
        Shifted96(fp[0], fp[1], a, b, v, out);
        fp := [a, b];
      } else {
        assert fp == [fp[0], fp[1]];
        var a, b := Or(Shl(fp[0], 32), Shr(fp[1], 32)), Or(Shl(fp[1], 32), Widen(v));
        Shifted128(fp[0], fp[1], a, b, v, out);
        fp := [a, b];
      }
    }

    method ShlOr64(v: Word) returns (out: Bits)
      requires TablesOk() && Holds(fp, k) && |fp| == |poly|
      modifies this`fp
      ensures Shifted(old(fp), fp, v, out, k)
    {
      out := fp[0];
      if k == 64 {
        assert fp == [fp[0]];
        assert Narrow(Shr(fp[0], 0), 64) == fp[0] && Or(Shl(fp[0], 64), Widen(v)) == v;
        Shifted64(fp[0], v, v, out);
        fp := [v];
      } else if k == 96 {
        assert fp == [fp[0], fp[1]];
        var a, b := Or(fp[1], Shr(v, 32)), Shl(v, 32);
        Shifted96By64(fp[0], fp[1], a, b, v);
        fp := [a, b];
      } else {
        assert fp == [fp[0], fp[1]];
        var a, b := fp[1], v;
        assert Narrow(Shr(fp[0], 0), 64) == fp[0] && Or(Shl(fp[0], 64), Shr(fp[1], 0)) == fp[1];
        assert Or(Shl(fp[1], 64), Widen(v)) == v;
        Shifted128(fp[0], fp[1], a, b, v, out);
        fp := [a, b];
      }
    }

    /** The loop of the updates: one table entry for each byte shifted out, from the last byte to the first. */
    method XorTables(out: Bits, n: nat)
      requires TablesOk() && Holds(fp, k) && |fp| == |poly| && |out| == 8 * n <= 64
      modifies this`fp
      ensures Holds(fp, k) && |fp| == |poly| && Value() == Xor(old(Value()), TableSum(out, n, P()))
    {
      hide Xor, Holds, TableEntry, TableSum, Zeros, Flat, FromBits, ToBits;
      var width := |out|;
      var rest := out;
      var i: nat := 0;
      ghost var m: nat := width;
      NoneOut(out, P(), Value());
      while i < n
        invariant m + 8 * i == width && Holds(fp, k) && |fp| == |poly| && rest == Zeros(width - m) + out[..m]
        invariant Value() == Xor(old(Value()), TableSum(out[m..], i, P()))
      {
        var byte := rest[width - 8..];                   // out & 0xff
        ByteOut(out, i, m, rest, P(), old(Value()));
        ByteRange(byte);
        var x := FromBits(byte);
        assert EntryOk(table[i, x], i, x, poly, k);
        XorTab(table[i, x]);
        rest := Zeros(8) + rest[..width - 8];            // out >>= 8
        i := i + 1;
        m := m - 8;
      }
      assert out[m..] == out;
    }

    method Update8(v: Bits)
      requires Valid() && |v| == 8
      modifies this
      ensures Valid() && message == old(message) + v && Value() == Feed(old(Value()), v, P())
    {
      ghost var before := fp;
      var out := ShlOr8(v);
      ghost var shifted := Value();
      ByteRange(out);
      var x := FromBits(out);
      assert EntryOk(table[0, x], 0, x, poly, k);
      assert out[..8] == out && out[8..] == [];
      XorLaws(TableEntry(0, out, P()), P(), P());
      assert TableSum(out, 1, P()) == TableEntry(0, out, P());
      UpdateFeeds(View(before, k), v, 1, P());
      XorTab(table[0, x]);
      FeedAppends(Start(), message, v, P());
      message := message + v;
    }

    method Update32(v: Bits)
      requires Valid() && |v| == 32
      modifies this
      ensures Valid() && message == old(message) + v && Value() == Feed(old(Value()), v, P())
    {
      ghost var before := fp;
      var out := ShlOr32(v);
      UpdateFeeds(View(before, k), v, 4, P());
      XorTables(out, 4);
      FeedAppends(Start(), message, v, P());
      message := message + v;
    }

    method Update64(v: Word)
      requires Valid()
      modifies this
      ensures Valid() && message == old(message) + v && Value() == Feed(old(Value()), v, P())
    {
      ghost var before := fp;
      var out := ShlOr64(v);
      UpdateFeeds(View(before, k), v, 8, P());
      XorTables(out, 8);
      FeedAppends(Start(), message, v, P());
      message := message + v;
    }

    /** update(StringPiece): byte after byte. */
    method Update(bytes: seq<Bits>)
      requires Valid() && forall i | 0 <= i < |bytes| :: |bytes[i]| == 8
      modifies this
      ensures Valid() && message == old(message) + Concat(bytes) && Value() == Feed(old(Value()), Concat(bytes), P())
    {
      hide Feed, Concat, TablesOk, Holds;
      var i := 0;
      NoBytes(bytes, Value(), P());
      while i < |bytes|
        invariant 0 <= i <= |bytes| && Valid() && message == old(message) + Concat(bytes[..i])
        invariant Value() == Feed(old(Value()), Concat(bytes[..i]), P())
      {
        NextByte(old(Value()), bytes, i, P(), old(message));
        Update8(bytes[i]);
        i := i + 1;
      }
      assert bytes[..i] == bytes;
    }

    /** The fingerprint is the remainder, and the only one, of the message polynomial with the starting bit in
        front of it. */
    lemma IsRemainder() returns (q: Bits)
      requires Valid()
      ensures Divides([true] + Zeros(k - 1) + message, q, Value(), P())
      ensures forall m, q', r' | m == [true] + Zeros(k - 1) + message && |r'| == k && Divides(m, q', r', P()) ::
                r' == Value()
    {
      q := FeedIsRemainder(Start(), message, P());
      forall q', r' | |r'| == k && Divides(Start() + message, q', r', P())
        ensures r' == Value()
      {
        RemainderIsUnique(Start() + message, q, Value(), q', r', P());
      }
    }

    /** A 96-bit fingerprint keeps the low 32 bits of its second word zero. */
    lemma LowBitsZero()
      requires Valid() && k == 96
      ensures |fp| == 2 && fp[1][32..] == Zeros(32)
    {
      assert fp == [fp[0], fp[1]];
      LowZero(fp[0], fp[1]);
    }
  }

  function TopBit(): (w: Word) {
    [true] + Zeros(63)
  }

  lemma StartFlat(ws: seq<Word>)
    requires ws != [] && ws[0] == TopBit() && forall i | 1 <= i < |ws| :: ws[i] == ZeroWord()
    ensures Flat(ws) == [true] + Zeros(63 + 64 * (|ws| - 1))
  {
    hide Flat, Zeros, ZeroWord;
    FirstWord(ws, [true] + Zeros(63));
    JoinZeros([true], 63, 64 * (|ws| - 1));
  }

  /** The bits of some bytes, in order. */
  function Concat(bytes: seq<Bits>): (r: Bits)
    decreases |bytes|
  {
    if bytes == [] then [] else Concat(bytes[..|bytes| - 1]) + bytes[|bytes| - 1]
  }

  /** The last byte of what is left of `out`, and what a shift by 8 leaves. */
  lemma ByteAt(out: Bits, m: nat, rest: Bits)
    requires 8 <= m <= |out| && rest == Zeros(|out| - m) + out[..m]
    ensures rest[|out| - 8..] == out[m - 8..m]
    ensures Zeros(8) + rest[..|out| - 8] == Zeros(|out| - m + 8) + out[..m - 8]
  {
  }

  lemma NoneOut(out: Bits, p: Bits, a: Bits)
    requires |a| == |p| >= 8
    ensures out == Zeros(0) + out[..|out|] && Xor(a, TableSum(out[|out|..], 0, p)) == a
  {
    assert out[|out|..] == [];
    XorLaws(a, a, a);
  }

  lemma TailSplits(out: Bits, m: nat)
    requires 8 <= m <= |out|
    ensures out[m - 8..][..8] == out[m - 8..m] && out[m - 8..][8..] == out[m..]
  {
  }

  /** One round of the update loop, with `m` bits of `out` left: the byte it looks up, and what remains. */
  lemma ByteOut(out: Bits, i: nat, m: nat, rest: Bits, p: Bits, a: Bits)
    requires 8 <= m && m + 8 * i == |out| <= |p| == |a| && rest == Zeros(|out| - m) + out[..m]
    ensures Zeros(8) + rest[..|out| - 8] == Zeros(|out| - m + 8) + out[..m - 8]
    ensures Xor(Xor(a, TableSum(out[m..], i, p)), TableEntry(i, rest[|out| - 8..], p)) ==
              Xor(a, TableSum(out[m - 8..], i + 1, p))
  {
    hide Xor, Zeros, TableEntry, TableSum;
    ByteAt(out, m, rest);
    TailSplits(out, m);
    NextSum(out[m - 8..], i, p, a);
  }

  lemma NextSum(tail: Bits, i: nat, p: Bits, a: Bits)
    requires |tail| == 8 * (i + 1) <= |p| == |a|
    ensures Xor(Xor(a, TableSum(tail[8..], i, p)), TableEntry(i, tail[..8], p)) == Xor(a, TableSum(tail, i + 1, p))
  {
    hide Xor, TableEntry;
    var e, t := TableEntry(i, tail[..8], p), TableSum(tail[8..], i, p);
    XorAssoc(a, t, e);
    XorAssoc(e, t, a);
  }

  /** The bytes of a big-endian word, the highest first. */
  function Bytes(v: Bits): (r: seq<Bits>)
    requires |v| % 8 == 0
    ensures |r| == |v| / 8 && forall i | 0 <= i < |r| :: |r[i]| == 8
    decreases |v|
  {
    if v == [] then [] else Bytes(v[..|v| - 8]) + [v[|v| - 8..]]
  }

  lemma {:induction false} ByteByByte(a: Bits, bytes: seq<Bits>, p: Bits)
    requires |a| == |p| > 0
    ensures FeedEach(a, bytes, p) == Feed(a, Concat(bytes), p)
    decreases |bytes|
  {
    if bytes != [] {
      var n := |bytes| - 1;
      ByteByByte(a, bytes[..n], p);
      FeedAppends(a, Concat(bytes[..n]), bytes[n], p);
    }
  }

  lemma {:induction false} BytesConcat(v: Bits)
    requires |v| % 8 == 0
    ensures Concat(Bytes(v)) == v
    decreases |v|
  {
    if v != [] {
      BytesConcat(v[..|v| - 8]);
      var r := Bytes(v);
      assert r[..|r| - 1] == Bytes(v[..|v| - 8]);
    }
  }

  /** What update32 and update64 leave is what four or eight calls of update8 leave, the highest byte first. */
  lemma WideUpdateIsByteUpdates(a: Bits, v: Bits, p: Bits)
    requires |a| == |p| > 0 && |v| % 8 == 0
    ensures Feed(a, v, p) == FeedEach(a, Bytes(v), p)
  {
    BytesConcat(v);
    ByteByByte(a, Bytes(v), p);
  }

  lemma NoBytes(bytes: seq<Bits>, a: Bits, p: Bits)
    requires |a| == |p| > 0
    ensures Concat(bytes[..0]) == [] && Feed(a, Concat(bytes[..0]), p) == a
  {
  }

  lemma NextByte(a: Bits, bytes: seq<Bits>, i: nat, p: Bits, m: Bits)
    requires |a| == |p| > 0 && i < |bytes|
    ensures Feed(Feed(a, Concat(bytes[..i]), p), bytes[i], p) == Feed(a, Concat(bytes[..i + 1]), p)
    ensures m + Concat(bytes[..i]) + bytes[i] == m + Concat(bytes[..i + 1])
  {
    hide Feed;
    FeedAppends(a, Concat(bytes[..i]), bytes[i], p);
    assert bytes[..i + 1][..i] == bytes[..i];
  }

  /** One update8 per byte. */
  function FeedEach(a: Bits, bytes: seq<Bits>, p: Bits): (r: Bits)
    requires |a| == |p| > 0
    ensures |r| == |a|
    decreases |bytes|
  {
    if bytes == [] then a else Feed(FeedEach(a, bytes[..|bytes| - 1], p), bytes[|bytes| - 1], p)
  }
}
