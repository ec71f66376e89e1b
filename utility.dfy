/** Address arithmetic of the lowest layer: the aliasing probe, the overlap-aware copy and the
    alignment probe. Addresses are size_t values; memory is one flat byte array indexed by
    address. */
module Utility {
  import opened Common

  /** can_alias: whether the closed ranges [a, a+al] and [b, b+bl] meet, with the range ends
      computed in size_t. */
  function CanAlias(a: Size, al: Size, b: Size, bl: Size): (r: bool)
    ensures a + al < SIZE_MOD && b + bl < SIZE_MOD ==> (r <==> (a <= b + bl && b <= a + al))
    ensures a + al < SIZE_MOD && b + al < SIZE_MOD && b == a + al ==> r
  {
    var ae := (a + al) % SIZE_MOD;
    var be := (b + bl) % SIZE_MOD;
    (b <= a && a <= be) || (b <= ae && ae <= be) || (a <= b && b <= ae) || (a <= be && be <= ae)
  }

  /** Swapping the two buffers does not change the answer. */
  lemma CanAliasSymmetric(a: Size, al: Size, b: Size, bl: Size)
    ensures CanAlias(a, al, b, bl) == CanAlias(b, bl, a, al)
  {
  }

  /** The copy primitive behind both the memcpy and the std::memmove call: every byte of the
      destination range receives the source byte at the same offset, read before any write. */
  method CopyBytes(mem: array<bv8>, dest: nat, src: nat, len: nat)
    requires dest + len <= mem.Length && src + len <= mem.Length
    modifies mem
    ensures mem[dest..dest + len] == old(mem[src..src + len])
    ensures mem[..dest] == old(mem[..dest]) && mem[dest + len..] == old(mem[dest + len..])
  {
    forall i | dest <= i < dest + len {
      mem[i] := mem[src + (i - dest)];
    }
  }

  /** beo::memmove with its aliasing branch handing the copy to the C library's overlap-safe
      memmove, as its comment intends. Returns BEO_SUCCESS; afterwards the destination range
      holds the old source bytes and nothing else has changed. */
  method Memmove(mem: array<bv8>, dest: Size, src: Size, len: Size) returns (status: int)
    requires dest + len <= mem.Length && src + len <= mem.Length
    modifies mem
    ensures status == SUCCESS
    ensures mem[dest..dest + len] == old(mem[src..src + len])
    ensures mem[..dest] == old(mem[..dest]) && mem[dest + len..] == old(mem[dest + len..])
    ensures dest == src ==> mem[..] == old(mem[..])
  {
    if dest == src {
    } else if !CanAlias(src, len, dest, len) {
      CopyBytes(mem, dest, src, len);
    } else {
      CopyBytes(mem, dest, src, len);
    }
    status := SUCCESS;
  }

  /** beo::memmove as written: in the aliasing branch the unqualified call `memmove(dest, src,
      len)` names beo::memmove itself, with the same arguments. `fuel` bounds the number of
      nested calls; None means the call has not returned after that many. */
  function MemmoveAsWritten(fuel: nat, dest: Size, src: Size, len: Size): (r: Option<int>)
    ensures r.Some? ==> r.value == SUCCESS
    ensures r.Some? <==> (dest == src || !CanAlias(src, len, dest, len))
  {
    if dest == src then Some(SUCCESS)
    else if !CanAlias(src, len, dest, len) then Some(SUCCESS)
    else if fuel == 0 then None
    else MemmoveAsWritten(fuel - 1, dest, src, len)
  }

  /** Whether beo::memmove as written returns: the destination is the source, or the two
      ranges cannot alias and memcpy is taken. */
  predicate MemmoveReturns(dest: Size, src: Size, len: Size)
  {
    dest == src || !CanAlias(src, len, dest, len)
  }

  /** beo::memmove as written, on memory: None when the call never returns (it keeps calling
      itself and writes nothing); otherwise BEO_SUCCESS after the copy, which then agrees with
      the corrected Memmove. */
  method MemmoveOnMemory(mem: array<bv8>, dest: Size, src: Size, len: Size) returns (r: Option<int>)
    requires dest + len <= mem.Length && src + len <= mem.Length
    modifies mem
    ensures r.Some? <==> MemmoveReturns(dest, src, len)
    ensures forall fuel: nat :: MemmoveAsWritten(fuel, dest, src, len) == r
    ensures r.Some? ==>
      r.value == SUCCESS && mem[dest..dest + len] == old(mem[src..src + len]) &&
      mem[..dest] == old(mem[..dest]) && mem[dest + len..] == old(mem[dest + len..])
    ensures r.None? ==> mem[..] == old(mem[..])
  {
    if MemmoveReturns(dest, src, len) {
      var status := Memmove(mem, dest, src, len);
      r := Some(status);
    } else {
      r := None;
    }
  }

  /** A copy of no bytes always returns: with zero lengths the two ranges are single points,
      which meet only when dest == src, and that case returns at once. */
  lemma EmptyMemmoveReturns(dest: Size, src: Size)
    ensures MemmoveReturns(dest, src, 0)
    ensures forall fuel: nat :: MemmoveAsWritten(fuel, dest, src, 0) == Some(SUCCESS)
  {
  }

  /** Two buffers that merely touch (the destination starts where the source ends) already take
      the aliasing branch, so the as-written call never returns for them. */
  lemma AdjacentBuffersNeverReturn(fuel: nat, src: Size, len: Size)
    requires len > 0 && src + 2 * len < SIZE_MOD
    ensures MemmoveAsWritten(fuel, src + len, src, len) == None
  {
  }

  /** 2^k */
  function Pow2(k: nat): (r: nat)
    ensures r >= 1
  {
    if k == 0 then 1 else 2 * Pow2(k - 1)
  }

  lemma {:induction false} Pow2Monotone(j: nat, k: nat)
    requires j <= k
    ensures Pow2(j) <= Pow2(k)
    decreases k
  {
    if j < k {
      Pow2Monotone(j, k - 1);
    }
  }

  /** The exponent at which calc_alignment's probe stops when it starts at 2^k. */
  function AlignExpFrom(addr: nat, k: nat): (e: nat)
    requires k <= 11 && addr % Pow2(k) == 0
    ensures k <= e <= 11
    ensures addr % Pow2(e) == 0
    ensures e < 11 ==> addr % Pow2(e + 1) != 0
    decreases 11 - k
  {
    if k < 11 && addr % Pow2(k + 1) == 0 then AlignExpFrom(addr, k + 1) else k
  }

  /** The alignment calc_alignment reports for an address: the largest power of two, at most
      2048, that divides it. */
  function AlignmentOf(addr: nat): (r: nat)
    ensures exists e :: 0 <= e <= 11 && r == Pow2(e)
    ensures 1 <= r <= 2048
    ensures addr % r == 0
    ensures r < 2048 ==> addr % (2 * r) != 0
  {
    var e := AlignExpFrom(addr, 0);
    Pow2Monotone(e, 11);
    assert Pow2(11) == 2048;
    Pow2(e)
  }

  /** The loop bound 2048 is 2^11: the probe 2^(k+1) is within the bound exactly while k < 11. */
  lemma ProbeWithinBound(k: nat)
    requires k <= 11
    ensures Pow2(k + 1) <= 2048 <==> k < 11
  {
    if k < 11 {
      Pow2Monotone(k + 1, 11);
    }
    assert Pow2(11) == 2048;
  }

  /** calc_alignment: doubles the alignment while the address stays divisible by the next power
      of two m, for m = 2, 4, ..., 2048. */
  method CalcAlignment(addr: Size) returns (alignment: nat)
    ensures alignment == AlignmentOf(addr)
  {
    alignment := 1;
    var m := 2;
    ghost var k := 0;
    while m <= 2048
      invariant k <= 11 && alignment == Pow2(k) && m == Pow2(k + 1)
      invariant addr % alignment == 0
      invariant AlignExpFrom(addr, k) == AlignExpFrom(addr, 0)
    {
      ProbeWithinBound(k);
      if addr % m != 0 {
        return;
      }
      alignment := alignment * 2;
      m := m * 2;
      k := k + 1;
    }
    ProbeWithinBound(k);
  }

  lemma DividesFactor(x: nat, a: nat, b: nat)
    requires a > 0 && b > 0 && x % (a * b) == 0
    ensures x % a == 0
  {
    var q := x / (a * b);
    assert x == (q * b) * a;
    ModUnique(x, a, q * b, 0);
  }

  lemma {:induction false} DividesLowerPow2(x: nat, k: nat)
    requires k <= 11 && x % 2048 == 0
    ensures x % Pow2(k) == 0
    decreases 11 - k
  {
    if k == 11 {
      assert Pow2(11) == 2048;
    } else {
      DividesLowerPow2(x, k + 1);
      DividesFactor(x, Pow2(k), 2);
    }
  }

  /** Every multiple of 2048, address 0 included, reports the cap 2048. */
  lemma AlignmentOfMultipleOf2048(addr: nat)
    requires addr % 2048 == 0
    ensures AlignmentOf(addr) == 2048
  {
    var e := AlignExpFrom(addr, 0);
    if e < 11 {
      DividesLowerPow2(addr, e + 1);
    }
    assert Pow2(11) == 2048;
  }
}
