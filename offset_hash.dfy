/** Chunk_Tag_Hash and Chunk_Hash: the hash of an offsets vector used by the unordered maps keyed
    by offsets. Both structs compute the same thing: starting from 0, each offset's std::hash is
    XORed into the seed, in order. std::hash<size_t> is a parameter `h`. A size_t hash value is
    written as its 64 bits. */
module OffsetHash {
  import opened Common

  /** A 64-bit word, bit by bit. */
  type Word = s: seq<bool> | |s| == 64 witness seq(64, i => false)

  /** The word 0, the seed's start value. */
  const Zero: Word := seq(64, i => false)

  /** `seed ^ x`: bitwise exclusive or. */
  function Xor(seed: Word, x: Word): Word
  {
    seq(64, i requires 0 <= i < 64 => seed[i] != x[i])
  }

  /** A left fold of the mapped offsets through `op`, from the first to the last. */
  function Fold<T>(offsets: seq<Size>, h: Size -> T, op: (T, T) -> T, z: T): T
  {
    if offsets == [] then z else op(Fold(offsets[..|offsets| - 1], h, op, z), h(offsets[|offsets| - 1]))
  }

  /** The seed after XORing every offset's hash into 0. */
  function HashFold(offsets: seq<Size>, h: Size -> Word): Word
  {
    Fold(offsets, h, Xor, Zero)
  }

  /** operator(): the loop over the offsets. */
  method Hash(offsets: seq<Size>, h: Size -> Word) returns (seed: Word)
    ensures seed == HashFold(offsets, h)
    ensures offsets == [] ==> seed == Zero
  {
    seed := Zero;
    var i := 0;
    while i < |offsets|
      invariant 0 <= i <= |offsets|
      invariant seed == HashFold(offsets[..i], h)
    {
      assert offsets[..i + 1][..i] == offsets[..i];
      seed := Xor(seed, h(offsets[i]));
      i := i + 1;
    }
    assert offsets[..i] == offsets;
  }

  /** The offsets without the one at index i. */
  function Without(s: seq<Size>, i: nat): (r: seq<Size>)
    requires i < |s|
    ensures |r| == |s| - 1
    ensures multiset(r) == multiset(s) - multiset{s[i]}
  {
    assert s == s[..i] + [s[i]] + s[i + 1..];
    s[..i] + s[i + 1..]
  }

  /** Removing an index before the last commutes with removing the last offset. */
  lemma WithoutSnoc(s: seq<Size>, i: nat)
    requires i < |s| - 1
    ensures Without(s, i) == Without(s[..|s| - 1], i) + [s[|s| - 1]]
  {
  }

  /** `op` lets two operands be applied in either order. */
  ghost predicate RightCommutative<T(!new)>(op: (T, T) -> T)
  {
    forall a, b, c :: op(op(a, b), c) == op(op(a, c), b)
  }

  lemma XorRightCommutative()
    ensures RightCommutative(Xor)
  {
    forall a: Word, b: Word, c: Word
      ensures Xor(Xor(a, b), c) == Xor(Xor(a, c), b)
    {
    }
  }

  /** For a right-commutative operation any one offset can be folded in last. */
  lemma {:induction false} FoldExtract<T(!new)>(s: seq<Size>, i: nat, h: Size -> T, op: (T, T) -> T, z: T)
    requires RightCommutative(op) && i < |s|
    ensures Fold(s, h, op, z) == op(Fold(Without(s, i), h, op, z), h(s[i]))
    decreases |s|
  {
    var s' := s[..|s| - 1];
    if i < |s| - 1 {
      FoldExtract(s', i, h, op, z);
      WithoutSnoc(s, i);
      var rest := Without(s', i);
      assert (rest + [s[|s| - 1]])[..|rest|] == rest;
    } else {
      assert Without(s, i) == s';
    }
  }

  /** For a right-commutative operation the fold depends only on the multiset of offsets. */
  lemma {:induction false} FoldPermutation<T(!new)>(s: seq<Size>, t: seq<Size>, h: Size -> T, op: (T, T) -> T, z: T)
    requires RightCommutative(op) && multiset(s) == multiset(t)
    ensures Fold(s, h, op, z) == Fold(t, h, op, z)
    decreases |s|
  {
    if s == [] {
      assert |t| == |multiset(t)|;
    } else {
      var x := s[|s| - 1];
      assert x in multiset(t);
      var i :| 0 <= i < |t| && t[i] == x;
      FoldExtract(s, |s| - 1, h, op, z);
      FoldExtract(t, i, h, op, z);
      FoldPermutation(Without(s, |s| - 1), Without(t, i), h, op, z);
    }
  }

  /** Hashing does not depend on the order of the offsets: two vectors with the same elements,
      counted with multiplicity, hash alike. In particular equal keys hash alike. */
  lemma HashPermutationInvariant(s: seq<Size>, t: seq<Size>, h: Size -> Word)
    requires multiset(s) == multiset(t)
    ensures HashFold(s, h) == HashFold(t, h)
  {
    XorRightCommutative();
    FoldPermutation(s, t, h, Xor, Zero);
  }

  /** Two equal offsets cancel: appending a repeated pair does not change the hash. */
  lemma HashPairCancels(s: seq<Size>, x: Size, h: Size -> Word)
    ensures HashFold(s + [x, x], h) == HashFold(s, h)
  {
    var s1, s2 := s + [x], s + [x, x];
    assert s2[..|s2| - 1] == s1;
    assert s1[..|s1| - 1] == s;
    assert HashFold(s2, h) == Xor(HashFold(s1, h), h(x));
    assert HashFold(s1, h) == Xor(HashFold(s, h), h(x));
    var f := HashFold(s, h);
    assert Xor(Xor(f, h(x)), h(x)) == f;
  }

  /** Hence the distinct keys [x, x] and [] collide (both hash to 0). */
  lemma DistinctKeysCollide(x: Size, h: Size -> Word)
    ensures [x, x] != [] && HashFold([x, x], h) == HashFold([], h) == Zero
  {
    HashPairCancels([], x, h);
    assert [] + [x, x] == [x, x];
  }
}
