/** Definitions shared by every part of the model: status codes, size_t arithmetic,
    the product of a shape's lengths, and the outcome of a lookup that may end the process. */
module Common {

  /** BEO_SUCCESS and BEO_FAIL (src/L0/def.hpp). */
  const SUCCESS: int := 0
  const FAIL: int := 1

  /** 2^64: size_t arithmetic wraps modulo this value. */
  const SIZE_MOD: nat := 0x1_0000_0000_0000_0000

  /** A value of type size_t (also the numeric value of a pointer). */
  type Size = x: nat | x < SIZE_MOD

  datatype Option<T> = None | Some(value: T)

  /** The result of a registry lookup: the stored entry, or the process ended with exit(1). */
  datatype Lookup<T> = Found(value: T) | Terminated

  /** The chunk status enum that both chunk revisions (src/Data and smem_nodes) declare:
      u (unset), f, r, rw and w. */
  datatype Status = U | F | R | RW | W

  /** The product of a shape's lengths, taken from left to right; 1 for no lengths. */
  function Product(s: seq<nat>): nat
  {
    if s == [] then 1 else Product(s[..|s| - 1]) * s[|s| - 1]
  }

  /** The product of a concatenated shape is the product of its two halves. */
  lemma {:induction false} ProductConcat(s: seq<nat>, t: seq<nat>)
    ensures Product(s + t) == Product(s) * Product(t)
    decreases |t|
  {
    if t == [] {
      assert s + t == s;
    } else {
      var t' := t[..|t| - 1];
      assert (s + t)[..|s + t| - 1] == s + t';
      ProductConcat(s, t');
      calc {
        Product(s + t);
        Product(s + t') * t[|t| - 1];
        Product(s) * Product(t') * t[|t| - 1];
        Product(s) * (Product(t') * t[|t| - 1]);
      }
    }
  }

  /** A shape holds no elements exactly when one of its lengths is 0. */
  lemma {:induction false} ProductZeroIff(s: seq<nat>)
    ensures Product(s) == 0 <==> exists i :: 0 <= i < |s| && s[i] == 0
    decreases |s|
  {
    if s != [] {
      var s' := s[..|s| - 1];
      ProductZeroIff(s');
      if Product(s) == 0 {
        if s[|s| - 1] != 0 {
          var i :| 0 <= i < |s'| && s'[i] == 0;
          assert s[i] == 0;
        }
      } else {
        forall i | 0 <= i < |s|
          ensures s[i] != 0
        {
          if i < |s| - 1 {
            assert s[i] == s'[i];
          }
        }
      }
    }
  }

  lemma MulAtLeast(d: int, n: nat)
    requires d >= 1
    ensures d * n >= n
  {
    if d > 1 {
      MulAtLeast(d - 1, n);
      assert d * n == (d - 1) * n + n;
    }
  }

  /** Euclidean division is unique: a quotient and a remainder in range determine `y % n`. */
  lemma ModUnique(y: nat, n: nat, q: int, r: int)
    requires n > 0 && 0 <= r < n && y == q * n + r
    ensures y % n == r
  {
    var q', r' := y / n, y % n;
    assert q * n + r == q' * n + r';
    if q > q' {
      MulAtLeast(q - q', n);
    } else if q < q' {
      MulAtLeast(q' - q, n);
    }
  }

  lemma AddMultipleMod(k: nat, n: nat, x: nat)
    requires n > 0
    ensures (k * n + x) % n == x % n
  {
    var q, r := x / n, x % n;
    assert k * n + x == (k + q) * n + r;
    ModUnique(k * n + x, n, k + q, r);
  }

  lemma Distribute(q: int, n: int, r: int, b: int)
    ensures (q * n + r) * b == (q * b) * n + r * b
  {
  }

  lemma MulMod(a: nat, b: nat, n: nat)
    requires n > 0
    ensures ((a % n) * b) % n == (a * b) % n
  {
    var q, r := a / n, a % n;
    assert a == q * n + r;
    var qb, rb := q * b, r * b;
    assert a * b == qb * n + rb by {
      Distribute(q, n, r, b);
    }
    AddMultipleMod(qb, n, rb);
  }

  /** std::vector's operator==: the same number of elements and the same element at every index. */
  lemma SeqEqualByElements<T>(s: seq<T>, t: seq<T>)
    ensures s == t <==> |s| == |t| && forall i :: 0 <= i < |s| ==> s[i] == t[i]
  {
    if |s| == |t| && forall i :: 0 <= i < |s| ==> s[i] == t[i] {
      assert s == t;
    }
  }

  /** The element count of a shape as the source computes it: `sz *= len` over the lengths in
      size_t, starting from 1. */
  method ComputeSize(lengths: seq<nat>) returns (sz: Size)
    ensures sz == Product(lengths) % SIZE_MOD
    ensures lengths == [] ==> sz == 1
    ensures Product(lengths) < SIZE_MOD ==> sz == Product(lengths)
  {
    sz := 1;
    var i := 0;
    while i < |lengths|
      invariant 0 <= i <= |lengths|
      invariant sz == Product(lengths[..i]) % SIZE_MOD
    {
      assert lengths[..i + 1][..i] == lengths[..i];
      MulMod(Product(lengths[..i]), lengths[i], SIZE_MOD);
      sz := (sz * lengths[i]) % SIZE_MOD;
      i := i + 1;
    }
    assert lengths[..i] == lengths;
  }

  /** std::unordered_map::insert and emplace: the entry goes in only when its key is absent;
      an entry already stored under the key is kept. */
  function InsertIfAbsent<K, V>(m: map<K, V>, key: K, v: V): (r: map<K, V>)
    ensures r.Keys == m.Keys + {key}
    ensures r[key] == if key in m then m[key] else v
    ensures forall k :: k in m ==> r[k] == m[k]
    ensures |r| == if key in m then |m| else |m| + 1
  {
    if key in m then m else m[key := v]
  }

  /** std::unordered_map::erase(key): the key is gone, every other entry stays as it was. */
  function Erase<K, V>(m: map<K, V>, key: K): (r: map<K, V>)
    ensures r.Keys == m.Keys - {key}
    ensures forall k :: k in r ==> r[k] == m[k]
    ensures |r| == if key in m then |m| - 1 else |m|
  {
    m - {key}
  }

  /** Adding an absent key and erasing it again restores the registry; erasing a present key and
      adding its entry back restores it too; a second add under the same key changes nothing. */
  lemma InsertEraseRoundTrip<K, V>(m: map<K, V>, key: K, v: V)
    ensures key !in m ==> Erase(InsertIfAbsent(m, key, v), key) == m
    ensures key in m ==> InsertIfAbsent(Erase(m, key), key, m[key]) == m
    ensures InsertIfAbsent(InsertIfAbsent(m, key, v), key, v) == InsertIfAbsent(m, key, v)
  {
    if key !in m {
      AddThenErase(m, key, v);
    } else {
      EraseThenAdd(m, key);
    }
  }

  lemma AddThenErase<K, V>(m: map<K, V>, key: K, v: V)
    requires key !in m
    ensures m[key := v] - {key} == m
  {
    var r := m[key := v] - {key};
    assert r.Keys == m.Keys;
  }

  lemma EraseThenAdd<K, V>(m: map<K, V>, key: K)
    requires key in m
    ensures (m - {key})[key := m[key]] == m
  {
    var r := (m - {key})[key := m[key]];
    assert r.Keys == m.Keys;
  }
}
