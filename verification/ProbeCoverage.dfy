/**
 Which cells a call of AtomicHashArray inspects before it gives up: all of them with linear probing, and with
 triangular probing exactly where the capacity is a power of two.
 */
module ProbeCoverage {
  import opened Common
  import opened HashArray

  /** Every cell is inspected by one of the probes for `k`. */
  ghost predicate Covers(cfg: Config, k: Key)
    requires cfg.Valid()
  {
    forall c: nat | c < cfg.capacity :: Reached(cfg, k, c)
  }

  ghost predicate Reached(cfg: Config, k: Key, c: nat)
    requires cfg.Valid()
  {
    exists j: nat | j < cfg.capacity :: PathAt(cfg, k, j) == c
  }

  predicate IsPowerOfTwo(n: nat) {
    exists f: nat | f < n :: Pow2(f) == n
  }

  // -------------------------------------------------------------------- counting

  function Range(n: nat): (s: set<nat>)
    ensures forall c: nat :: c in s <==> c < n
  {
    if n == 0 then {} else Range(n - 1) + {n - 1}
  }

  lemma {:induction false} RangeSize(n: nat)
    ensures |Range(n)| == n
  {
    if n > 0 {
      RangeSize(n - 1);
    }
  }

  function Elements(s: seq<nat>): (r: set<nat>) {
    set i | 0 <= i < |s| :: s[i]
  }

  lemma {:induction false} ElementsSize(s: seq<nat>)
    ensures |Elements(s)| <= |s| && (|Elements(s)| == |s| <==> Distinct(s))
  {
    if s != [] {
      var n := |s| - 1;
      var front := s[..n];
      ElementsSize(front);
      forall x
        ensures x in Elements(s) <==> x in Elements(front) || x == s[n]
      {
        if x in Elements(front) {
          var i :| 0 <= i < n && front[i] == x;
          assert s[i] == x;
        }
        if x in Elements(s) && x != s[n] {
          var i :| 0 <= i < |s| && s[i] == x;
          assert front[i] == x;
        }
      }
      assert Elements(s) == Elements(front) + {s[n]};
      if s[n] in Elements(front) {
        var i :| 0 <= i < n && front[i] == s[n];
        assert s[i] == s[n] && Elements(s) == Elements(front);
      } else {
        assert forall i | 0 <= i < n :: front[i] in Elements(front) && front[i] == s[i];
      }
    }
  }

  /** As many values below `n` as there are cells: all cells occur exactly if no value is repeated. */
  lemma AllOrRepeated(s: seq<nat>)
    requires forall i | 0 <= i < |s| :: s[i] < |s|
    ensures Range(|s|) <= Elements(s) <==> Distinct(s)
  {
    var n := |s|;
    ElementsSize(s);
    RangeSize(n);
    assert Elements(s) <= Range(n);
    if Range(n) <= Elements(s) {
      assert Range(n) == Elements(s);
    } else {
      var c :| c in Range(n) && c !in Elements(s);
      assert Elements(s) <= Range(n) - {c};
      SubsetSize(Elements(s), Range(n) - {c});
      CardWithout(Range(n), c);
    }
  }

  lemma {:induction false} SubsetSize(a: set<nat>, b: set<nat>)
    requires a <= b
    ensures |a| <= |b|
  {
    if a != {} {
      var x :| x in a;
      SubsetSize(a - {x}, b - {x});
    }
  }

  // -------------------------------------------------------------------- remainders

  lemma SumOfRemainders(r: nat, q: nat, e: nat, q': nat, n: nat)
    requires r < n && e < n
    ensures ((r + q * n) + (e + q' * n)) % n == if r + e < n then r + e else r + e - n
  {
    if r + e < n {
      assert (q + q') * n == q * n + q' * n;
      RemainderBySubtraction((r + q * n) + (e + q' * n), r + e, q + q', n);
    } else {
      assert (q + q' + 1) * n == q * n + q' * n + n;
      RemainderBySubtraction((r + q * n) + (e + q' * n), r + e - n, q + q' + 1, n);
    }
  }

  lemma Division(x: nat, n: nat)
    requires n > 0
    ensures x % n < n && x == x % n + x / n * n
  {
  }

  lemma SameRemainder(x: nat, d: nat, n: nat)
    requires n > 0
    ensures x % n == (x + d) % n <==> d % n == 0
  {
    Division(x, n);
    Division(d, n);
    SumOfRemainders(x % n, x / n, d % n, d / n, n);
  }

  lemma OddProduct(x: nat, y: nat)
    ensures (2 * x + 1) * (2 * y + 1) == 2 * (2 * (x * y) + x + y) + 1
  {
  }

  lemma EvenFactor(a: nat, b: nat, c: nat)
    requires b % 2 == 1 && a * b == 2 * c
    ensures a % 2 == 0
  {
    OddProduct(a / 2, b / 2);
  }

  /** A power of two that divides a product with an odd factor divides the other factor. */
  lemma {:induction false} OddFactor(a: nat, b: nat, q: nat, e: nat) returns (q': nat)
    requires b % 2 == 1 && a * b == q * Pow2(e)
    ensures a == q' * Pow2(e)
    decreases e
  {
    q' := a;
    if e > 0 {
      var c := q * Pow2(e - 1);
      assert q * Pow2(e) == 2 * c;
      EvenFactor(a, b, c);
      var half := a / 2;
      assert a * b == 2 * (half * b);
      q' := OddFactor(half, b, q, e - 1);
      assert q' * Pow2(e) == 2 * (q' * Pow2(e - 1));
    }
  }

  lemma {:induction false} OddPart(n: nat) returns (f: nat, m: nat)
    requires n > 0
    ensures n == Pow2(f) * m && m % 2 == 1
  {
    if n % 2 == 1 {
      f, m := 0, n;
    } else {
      f, m := OddPart(n / 2);
      f := f + 1;
      assert Pow2(f) * m == 2 * (Pow2(f - 1) * m);
    }
  }

  lemma {:induction false} Pow2Above(f: nat)
    ensures f < Pow2(f)
  {
    if f > 0 {
      Pow2Above(f - 1);
    }
  }

  // -------------------------------------------------------------------- triangular distances

  /** Twice the distance between two probes. */
  lemma TriangularGap(cfg: Config, i: nat, j: nat)
    requires cfg.quadratic && i < j
    ensures 2 * (Offset(cfg, j) - Offset(cfg, i)) == (j - i) * (j + i + 1)
    ensures Offset(cfg, j) > Offset(cfg, i)
  {
    hide Offset;
    OffsetIs(cfg, i);
    OffsetIs(cfg, j);
    ProductGap(i, j - i);
  }

  lemma ProductGap(i: nat, d: nat)
    requires d > 0
    ensures (i + d) * (i + d + 1) - i * (i + 1) == d * (i + d + i + 1) > 0
  {
    assert (i + d) * (i + d + 1) == i * (i + d + 1) + d * (i + d + 1);
    assert i * (i + d + 1) == i * (i + 1) + i * d;
    assert d * (i + d + i + 1) == d * (i + d + 1) + d * i;
    AtLeastOneMore(0, d, i + d + i + 1);
  }

  /** Two probes inspect the same cell exactly if the capacity divides their distance. */
  lemma MeetExactly(cfg: Config, k: Key, i: nat, j: nat)
    requires cfg.Valid() && cfg.quadratic && i < j < cfg.capacity
    ensures Offset(cfg, j) > Offset(cfg, i)
    ensures PathAt(cfg, k, i) == PathAt(cfg, k, j) <==> (Offset(cfg, j) - Offset(cfg, i)) % cfg.capacity == 0
  {
    hide Offset, Anchor, PathAt;
    TriangularGap(cfg, i, j);
    PathOffset(cfg, k, i);
    PathOffset(cfg, k, j);
    SameRemainder(Anchor(cfg, k) + Offset(cfg, i), Offset(cfg, j) - Offset(cfg, i), cfg.capacity);
  }

  lemma NeverMeet(cfg: Config, k: Key, f: nat, i: nat, j: nat)
    requires cfg.Valid() && cfg.quadratic && cfg.capacity == Pow2(f) && i < j < cfg.capacity
    ensures PathAt(cfg, k, i) != PathAt(cfg, k, j)
  {
    hide Offset, PathAt, Pow2;
    MeetExactly(cfg, k, i, j);
    TriangularGap(cfg, i, j);
    var n, d := cfg.capacity, Offset(cfg, j) - Offset(cfg, i);
    if d % n == 0 {
      NoMultiple(f, i, j, d / n);
    }
  }

  lemma NoMultiple(f: nat, i: nat, j: nat, q: nat)
    requires i < j < Pow2(f)
    ensures (j - i) * (j + i + 1) != 2 * (q * Pow2(f))
  {
    hide Pow2;
    if (j - i) % 2 == 1 {
      NoProduct(j + i + 1, j - i, f, q);
    } else {
      NoProduct(j - i, j + i + 1, f, q);
    }
  }

  lemma NoProduct(a: nat, b: nat, f: nat, q: nat)
    requires 0 < a < 2 * Pow2(f) && b % 2 == 1
    ensures a * b != 2 * (q * Pow2(f))
  {
    hide Pow2;
    DoubledPower(q, f);
    if a * b == 2 * (q * Pow2(f)) {
      var q' := OddFactor(a, b, q, f + 1);
      SmallMultiple(q', Pow2(f + 1));
    }
  }

  lemma DoubledPower(q: nat, f: nat)
    ensures 2 * (q * Pow2(f)) == q * Pow2(f + 1) && Pow2(f + 1) == 2 * Pow2(f)
  {
  }

  lemma SmallMultiple(q: nat, p: nat)
    ensures q * p == 0 || q * p >= p
  {
  }

  /** Two probes at a distance of one capacity. */
  predicate Meeting(n: nat, i: nat, j: nat) {
    i < j < n && (j - i) * (j + i + 1) == 2 * n
  }

  /** A capacity with an odd factor: two probes that meet. */
  lemma SomeMeet(n: nat, f: nat, m: nat) returns (i: nat, j: nat)
    requires n == Pow2(f) * m && m % 2 == 1 && m > 1
    ensures Meeting(n, i, j)
  {
    hide Pow2;
    var p := 2 * Pow2(f);
    Doubles(Pow2(f), m);
    SumBelowProduct(p, m);
    if p < m {
      i, j := (m - p - 1) / 2, (p + m - 1) / 2;
      assert j - i == p && j + i + 1 == m;
    } else {
      i, j := (p - m - 1) / 2, (p + m - 1) / 2;
      assert j - i == m && j + i + 1 == p;
    }
  }

  lemma Doubles(x: nat, m: nat)
    ensures (2 * x) * m == 2 * (x * m) && m * (2 * x) == 2 * (x * m)
  {
  }

  lemma SumBelowProduct(p: nat, m: nat)
    requires p > 1 && m > 1
    ensures p + m - 1 < p * m
  {
    if p <= m {
      AtLeastOneMore(1, p, m);
    } else {
      AtLeastOneMore(1, m, p);
    }
  }

  lemma {:induction false} PowersDiffer(f: nat, m: nat, g: nat)
    requires m % 2 == 1 && m > 1
    ensures Pow2(f) * m != Pow2(g)
    decreases f
  {
    if f > 0 {
      Doubles(Pow2(f - 1), m);
      if g > 0 {
        PowersDiffer(f - 1, m, g - 1);
      }
    }
  }

  lemma NotPower(n: nat, f: nat, m: nat)
    requires n == Pow2(f) * m && m % 2 == 1 && m > 1
    ensures !IsPowerOfTwo(n)
  {
    hide Pow2;
    forall g: nat
      ensures Pow2(g) != n
    {
      PowersDiffer(f, m, g);
    }
  }

  /** A capacity is a power of two, or two probes meet. */
  lemma PowerOrMeeting(n: nat) returns (f: nat, i: nat, j: nat)
    requires n > 0
    ensures if IsPowerOfTwo(n) then n == Pow2(f) else Meeting(n, i, j)
  {
    hide Pow2, Meeting;
    var m;
    f, m := OddPart(n);
    i, j := 0, 0;
    if m == 1 {
      Pow2Above(f);
    } else {
      i, j := SomeMeet(n, f, m);
      NotPower(n, f, m);
    }
  }

  // -------------------------------------------------------------------- coverage

  function Path(cfg: Config, k: Key): (s: seq<nat>)
    requires cfg.Valid()
    ensures |s| == cfg.capacity && forall j: nat | j < |s| :: s[j] == PathAt(cfg, k, j)
  {
    seq(cfg.capacity, j requires 0 <= j < cfg.capacity => PathAt(cfg, k, j))
  }

  lemma CoversExactly(cfg: Config, k: Key)
    requires cfg.Valid()
    ensures Covers(cfg, k) <==> Distinct(Path(cfg, k))
  {
    hide PathAt;
    var s := Path(cfg, k);
    AllOrRepeated(s);
    forall c: nat | c < cfg.capacity
      ensures Reached(cfg, k, c) <==> c in Elements(s)
    {
      if Reached(cfg, k, c) {
        var j: nat :| j < cfg.capacity && PathAt(cfg, k, j) == c;
        assert s[j] == c;
      }
    }
    if Covers(cfg, k) {
      assert forall c | c in Range(|s|) :: Reached(cfg, k, c);
    }
    if Range(|s|) <= Elements(s) {
      assert forall c: nat | c < cfg.capacity :: c in Range(|s|);
    }
  }

  lemma MeetingRepeats(cfg: Config, k: Key, i: nat, j: nat)
    requires cfg.Valid() && cfg.quadratic && Meeting(cfg.capacity, i, j)
    ensures PathAt(cfg, k, i) == PathAt(cfg, k, j)
  {
    hide PathAt, Offset;
    MeetExactly(cfg, k, i, j);
    TriangularGap(cfg, i, j);
    RemainderBySubtraction(cfg.capacity, 0, 1, cfg.capacity);
  }

  /** Triangular probing inspects every cell before it gives up exactly where the capacity is a power of two. */
  lemma TriangularCoversExactly(cfg: Config, k: Key)
    requires cfg.Valid() && cfg.quadratic
    ensures Covers(cfg, k) <==> IsPowerOfTwo(cfg.capacity)
  {
    hide PathAt, Covers, Pow2, Meeting, IsPowerOfTwo;
    CoversExactly(cfg, k);
    var s, n := Path(cfg, k), cfg.capacity;
    var f, i, j := PowerOrMeeting(n);
    if IsPowerOfTwo(n) {
      forall i, j | 0 <= i < j < n
        ensures s[i] != s[j]
      {
        NeverMeet(cfg, k, f, i, j);
      }
    } else {
      MeetingInRange(n, i, j);
      MeetingRepeats(cfg, k, i, j);
      assert s[i] == s[j];
    }
  }

  lemma MeetingInRange(n: nat, i: nat, j: nat)
    requires Meeting(n, i, j)
    ensures i < j < n
  {
  }

  /** Three cells: the offsets 0, 1 and 3 inspect two of them. */
  lemma ThreeCellsNotCovered(cfg: Config, k: Key)
    requires cfg.quadratic && cfg.capacity == 3
    ensures !Covers(cfg, k)
  {
    hide Covers, PathAt;
    TriangularCoversExactly(cfg, k);
    NotPower(3, 0, 3);
  }

  /** Linear probing inspects every cell whatever the capacity. */
  lemma LinearCovers(cfg: Config, k: Key)
    requires cfg.Valid() && !cfg.quadratic
    ensures Covers(cfg, k)
  {
    hide PathAt;
    forall c: nat | c < cfg.capacity
      ensures Reached(cfg, k, c)
    {
      var j := LinearPathCovers(cfg, k, c);
    }
  }
}
