/** Addresses and blocks as bounded integers, and the IPv4-mapped IPv6 spelling of an IPv4 one. */
module BypassAddress {
  import opened Powers

  type Word32 = bits: nat | bits < 0x1_0000_0000
  type Word128 = bits: nat | bits < 0x1_0000_0000_0000_0000_0000_0000_0000_0000
  type Prefix32 = length: nat | length <= 32
  type Prefix128 = length: nat | length <= 128

  datatype Address = V4(v4: Word32) | V6(v6: Word128)
  datatype Net = Net4(addr4: Word32, prefix4: Prefix32) | Net6(addr6: Word128, prefix6: Prefix128)

  /** Whether `bits` lies between the first and the last address of the block of that size. */
  predicate InBlock(addr: nat, size: nat, bits: nat)
    requires size > 0
  {
    var network := addr - addr % size;
    network <= bits <= network + (size - 1)
  }

  predicate Contains(net: Net, address: Address) {
    match (net, address)
    case (Net4(addr, prefix), V4(bits)) => InBlock(addr, Pow2(32 - prefix), bits)
    case (Net6(addr, prefix), V6(bits)) => InBlock(addr, Pow2(128 - prefix), bits)
    case _ => false
  }

  /** The 96 bits that make an IPv6 address an IPv4-mapped one (section 2.5.5.2 of RFC 4291). */
  predicate IsMapped(bits: Word128) {
    bits / 0x1_0000_0000 == 0xffff
  }

  function Mapped(bits: Word32): Word128 {
    0xffff * 0x1_0000_0000 + bits
  }

  function ReduceMapped(address: Address): Address {
    if address.V6? && IsMapped(address.v6) then V4(address.v6 % 0x1_0000_0000) else address
  }

  function ReduceMappedNet(net: Net): Net {
    if net.Net6? && IsMapped(net.addr6) && net.prefix6 >= 96
    then Net4(net.addr6 % 0x1_0000_0000, net.prefix6 - 96)
    else net
  }

  // ---------------------------------------------------------------------------- arithmetic

  /** The powers of two that a block size can be divide the next larger ones. */
  lemma {:induction false} Pow2Adds(a: nat, b: nat)
    ensures Pow2(a + b) == Pow2(a) * Pow2(b)
  {
    if a > 0 {
      Pow2Adds(a - 1, b);
      assert Pow2(a + b) == 2 * Pow2(a + b - 1);
    }
  }

  lemma Pow2Of32()
    ensures Pow2(32) == 0x1_0000_0000
  {
    assert Pow2(8) == 256;
    Pow2Adds(8, 8);
    Pow2Adds(16, 16);
  }

  /** Adding a multiple of the size leaves the remainder alone. */
  lemma ModShift(base: nat, k: nat, size: nat)
    requires size > 0
    ensures 0 <= k * size
    ensures (k * size + base) % size == base % size
  {
    MulLe(0, k, size);
    MulAdd(k, base / size, size);
    DivModUnique(k * size + base, size, k + base / size, base % size);
  }

  /** A block moved by a multiple of its size holds what it held, moved by the same amount. */
  lemma BlockShift(addr: nat, size: nat, bits: nat, k: nat)
    requires size > 0
    ensures InBlock(k * size + addr, size, k * size + bits) <==> InBlock(addr, size, bits)
  {
    ModShift(addr, k, size);
  }

  // ------------------------------------------------------------------------ mapped blocks

  lemma MappedReduces(bits: Word32)
    ensures IsMapped(Mapped(bits))
    ensures ReduceMapped(V6(Mapped(bits))) == V4(bits)
  {
    DivModUnique(Mapped(bits), 0x1_0000_0000, 0xffff, bits);
  }

  lemma MappedIsMapped(bits: Word128)
    requires IsMapped(bits)
    ensures bits == Mapped(bits % 0x1_0000_0000)
  {
  }

  /** The size of a block of prefix 96 or longer divides the mapped range. */
  lemma SizeDivides(prefix: Prefix128) returns (per: nat)
    requires prefix >= 96
    ensures per > 0 && per * Pow2(128 - prefix) == 0x1_0000_0000
  {
    per := Pow2(prefix - 96);
    Pow2Adds(prefix - 96, 128 - prefix);
    Pow2Of32();
  }

  /** Inside the mapped range, an IPv6 block and its reduced IPv4 block hold the same addresses. */
  lemma MappedBlock(addr: Word32, prefix: Prefix128, bits: Word32)
    requires prefix >= 96
    ensures Contains(Net6(Mapped(addr), prefix), V6(Mapped(bits)))
       <==> Contains(Net4(addr, prefix - 96), V4(bits))
  {
    hide Pow2;
    var size := Pow2(128 - prefix);
    var per := SizeDivides(prefix);
    MulAssoc(0xffff, per, size);
    BlockShift(addr, size, bits, 0xffff * per);
  }

  /** A block whose address is not mapped, no larger than the mapped range, misses all of it. */
  lemma UnmappedBlock(addr: Word128, prefix: Prefix128, bits: Word32)
    requires prefix >= 96 && !IsMapped(addr)
    ensures !Contains(Net6(addr, prefix), V6(Mapped(bits)))
  {
    hide Pow2;
    var size := Pow2(128 - prefix);
    var per := SizeDivides(prefix);
    var q, r := addr / 0x1_0000_0000, addr % 0x1_0000_0000;
    MulAssoc(q, per, size);
    MulLe(0, q, per);
    ModShift(r, q * per, size);
    MultipleBelow(r, size, per);
    assert addr == (q * per) * size + r;
    assert addr - addr % size == q * 0x1_0000_0000 + (r - r % size);
  }

  /** A multiple of the size, below a multiple, leaves room for one whole block. */
  lemma MultipleBelow(r: nat, size: nat, per: nat)
    requires size > 0 && r < per * size
    ensures 0 <= r - r % size && r - r % size + size <= per * size
  {
    var q := r / size;
    assert r - r % size == q * size;
    if q < per {
      MulLe(q + 1, per, size);
      MulAdd(q, 1, size);
    } else {
      MulLe(per, q, size);
    }
  }

  /**
   A block of prefix 96 or longer answers about a mapped destination exactly as its reduction
   answers about the IPv4 address, whichever block it is.
   */
  lemma ReducedBlockAgrees(net: Net, bits: Word32)
    requires net.Net6? && net.prefix6 >= 96
    ensures Contains(net, V6(Mapped(bits))) <==> Contains(ReduceMappedNet(net), V4(bits))
  {
    if IsMapped(net.addr6) {
      MappedIsMapped(net.addr6);
      MappedBlock(net.addr6 % 0x1_0000_0000, net.prefix6, bits);
    } else {
      UnmappedBlock(net.addr6, net.prefix6, bits);
    }
  }
}
