/** Sv39 addresses and entries, bit for bit. */
module Sv39 {

  type Word = bv64

  const VA_MASK: Word := 0x7f_ffff_ffff
  const VPN_MASK: Word := 0x1ff
  const KERNEL_ADDR_TAG: Word := 0xffff_ffc0_0000_0000
  const VA_EFFECTIVE_MASK: Word := 0x3f_ffff_ffff
  const PA_BOTTOM: Word := 0x5000_0000
  const PA_TOP: Word := 0x6000_0000

  /** Table index of an address at a level; level 2 is the top. */
  function Vpn(va: Word, level: nat): (r: Word)
    requires level <= 2
    ensures r <= VPN_MASK
  {
    var low := va & VA_MASK;
    if level == 2 then (low >> 30) & VPN_MASK
    else if level == 1 then (low >> 21) & VPN_MASK
    else (low >> 12) & VPN_MASK
  }

  /** The address of child i of a table that maps from va, as the tree walks rebuild it. */
  function ChildVa(va: Word, i: Word, level: nat): Word
    requires level <= 2
  {
    if level == 2 then va | (i << 30) else if level == 1 then va | (i << 21) else va | (i << 12)
  }

  /** Rebuilding from the indices gives the address back. */
  lemma RebuildVa(va: Word)
    requires va & 0xfff == 0 && va & VA_MASK == va
    ensures ChildVa(ChildVa(ChildVa(0, Vpn(va, 2), 2), Vpn(va, 1), 1), Vpn(va, 0), 0) == va
  {
  }

  /** Pages that agree in all three indices are the same page. */
  lemma SameVpns(va: Word, wa: Word)
    requires va & 0xfff == 0 && va & VA_MASK == va && wa & 0xfff == 0 && wa & VA_MASK == wa
    requires Vpn(va, 2) == Vpn(wa, 2) && Vpn(va, 1) == Vpn(wa, 1) && Vpn(va, 0) == Vpn(wa, 0)
    ensures va == wa
  {
    RebuildVa(va);
    RebuildVa(wa);
  }

  lemma PackedTop(i2: Word, i1: Word, i0: Word)
    requires i2 & 0x1ff == i2 && i1 & 0x1ff == i1 && i0 & 0x1ff == i0
    ensures ((((0 | (i2 << 30) | (i1 << 21)) | (i0 << 12)) & 0x7f_ffff_ffff) >> 30) & 0x1ff == i2
  {
  }

  lemma PackedMiddle(i2: Word, i1: Word, i0: Word)
    requires i2 & 0x1ff == i2 && i1 & 0x1ff == i1 && i0 & 0x1ff == i0
    ensures ((((0 | (i2 << 30) | (i1 << 21)) | (i0 << 12)) & 0x7f_ffff_ffff) >> 21) & 0x1ff == i1
  {
  }

  lemma PackedBottom(i2: Word, i1: Word, i0: Word)
    requires i2 & 0x1ff == i2 && i1 & 0x1ff == i1 && i0 & 0x1ff == i0
    ensures ((((0 | (i2 << 30) | (i1 << 21)) | (i0 << 12)) & 0x7f_ffff_ffff) >> 12) & 0x1ff == i0
  {
  }

  /** The indices of a rebuilt address are those it was built from. */
  lemma VpnOfRebuilt(i2: Word, i1: Word, i0: Word)
    requires i2 & 0x1ff == i2 && i1 & 0x1ff == i1 && i0 & 0x1ff == i0
    ensures var va := ChildVa(ChildVa(ChildVa(0, i2, 2), i1, 1), i0, 0);
      Vpn(va, 2) == i2 && Vpn(va, 1) == i1 && Vpn(va, 0) == i0
  {
    PackedTop(i2, i1, i0);
    PackedMiddle(i2, i1, i0);
    PackedBottom(i2, i1, i0);
  }

  function KvaToPa(kva: Word): Word { kva ^ KERNEL_ADDR_TAG }

  function PaToKva(pa: Word): Word { pa | KERNEL_ADDR_TAG }

  lemma KernelAddressesInverse(a: Word)
    ensures a & !VA_EFFECTIVE_MASK == KERNEL_ADDR_TAG ==> PaToKva(KvaToPa(a)) == a
    ensures PA_BOTTOM <= a < PA_TOP ==> KvaToPa(PaToKva(a)) == a && PaToKva(a) & !VA_EFFECTIVE_MASK == KERNEL_ADDR_TAG
  {
  }

  /** Kernel addresses of physical memory lie at a fixed distance from it. */
  lemma KernelOffset(pa: Word)
    requires 0x5000_0000 <= pa < 0x6000_0000
    ensures PaToKva(pa) == pa + 0xffff_ffc0_0000_0000
  {
  }

  function GetPfn(e: Word): Word { e >> 10 }

  function SetPfn(e: Word, pfn: Word): Word { (e & 0x3ff) | (pfn << 10) }

  /** Setting the frame number: it is read back, and the attributes stay. */
  lemma PfnRoundTrip(e: Word, pfn: Word)
    requires pfn & 0x3f_ffff_ffff_ffff == pfn
    ensures GetPfn(SetPfn(e, pfn)) == pfn
    ensures SetPfn(e, pfn) & 0x3ff == e & 0x3ff
  {
  }

  /** Setting attributes leaves the frame number alone. */
  lemma SetKeepsPfn(e: Word, bits: Word)
    requires bits & 0x3ff == bits
    ensures GetPfn(e | bits) == GetPfn(e)
  {
  }

  /** Clearing attributes leaves the frame number alone. */
  lemma ClearKeepsPfn(e: Word, bits: Word)
    requires bits & 0x3ff == bits
    ensures GetPfn(e & !bits) == GetPfn(e)
  {
  }
}
