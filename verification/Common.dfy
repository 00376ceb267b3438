/** What several models share: optional values, counting, and remainders. */
module Common {

  datatype Option<T> = None | Some(value: T)

  predicate Distinct(list: seq<nat>) {
    forall i, j | 0 <= i < j < |list| :: list[i] != list[j]
  }

  function Bit(b: bool): (n: nat) {
    if b then 1 else 0
  }

  lemma CardWithout(a: set<nat>, x: nat)
    ensures |a - {x}| == |a| - Bit(x in a)
  {
    if x in a {
      assert a == (a - {x}) + {x};
    } else {
      assert a == a - {x};
    }
  }

  lemma AtLeastOneMore(a: int, b: int, n: int)
    requires a < b && n > 0
    ensures a * n + n <= b * n
  {
    assert (b - a) * n == b * n - a * n;
    assert (b - a - 1) * n >= 0;
  }

  lemma RemainderBySubtraction(x: nat, r: nat, q: nat, n: nat)
    requires n > 0 && r < n && x == r + q * n
    ensures x % n == r
  {
    var q' := x / n;
    assert x == q' * n + x % n;
    if q' < q {
      AtLeastOneMore(q', q, n);
    } else if q < q' {
      AtLeastOneMore(q, q', n);
    }
  }

  /** Adding at most `n` to a remainder modulo `n` takes at most one subtraction of `n`. */
  lemma RemainderOfSum(x: nat, d: nat, n: nat)
    requires n > 0 && d <= n
    ensures (x + d) % n == if x % n + d < n then x % n + d else x % n + d - n
  {
    var q, r := x / n, x % n;
    assert x == r + q * n;
    if r + d < n {
      RemainderBySubtraction(x + d, r + d, q, n);
    } else {
      assert (q + 1) * n == q * n + n;
      RemainderBySubtraction(x + d, r + d - n, q + 1, n);
    }
  }
}
