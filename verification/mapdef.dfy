/** Page entries, virtual addresses and the index arithmetic of 4-level long-mode page tables. */
module MapDef {

  datatype Option<+T> = None | Some(value: T)

  const PAGE_SIZE: nat := 4096
  const PS_4K: nat := 1
  const PS_2M: nat := 512
  const PS_1G: nat := 262144
  const LVL_PT: nat := 1
  const LVL_PD: nat := 2
  const LVL_PDP: nat := 3
  const LVL_PML4: nat := 4

  const VPN_LIMIT: nat := 0x10_0000_0000      // 2^36 pages in a 48-bit address space
  const VPN_HALF: nat := 0x8_0000_0000        // 2^35: first page of the kernel half
  const PFN_LIMIT: nat := 0x10_0000_0000      // 4 x 9 bits index a page frame
  const PFN_FIELD: nat := 0x100_0000_0000     // the pfn_base field is 40 bits wide
  const VA_HALF: nat := 0x8000_0000_0000      // 2^47
  const VA_48: nat := 0x1_0000_0000_0000      // 2^48
  const VA_LIMIT: nat := 0x1_0000_0000_0000_0000  // 2^64

  const ENOMEM: int := -12
  const ESRCH: int := -3
  const EINVAL: int := -22

  /** The slot through which the PML4 maps itself. */
  const SELF_SLOT: nat := 0x1f0

  datatype PeBit =
    | PePresent | PeReadWrite | PeUserSupervisor | PeWriteThrough | PeCacheDisable
    | PeAccessed | PeDirty | PePageSize | PeGlobal

  /** A 64-bit word seen as a page entry: 9 flag bits, 3 bits, 40 bits of frame number, 11 bits, NX. */
  datatype PageEnt = PageEnt(bits: set<PeBit>, avl0: nat, pfn: nat, avl3: nat, nx: bool)
  {
    predicate Present() { PePresent in bits }
    predicate Writable() { PeReadWrite in bits }
    predicate Large() { PePageSize in bits }
    function ClearPresent(): PageEnt { this.(bits := bits - {PePresent}) }
  }

  /** The all-zero word. */
  const ZERO_ENT: PageEnt := PageEnt({}, 0, 0, 0, false)

  /** A page of zero words. */
  function ZeroTable(): (t: seq<PageEnt>)
    ensures |t| == 512 && forall i | 0 <= i < 512 :: t[i] == ZERO_ENT
  {
    seq(512, i => ZERO_ENT)
  }

  /** The flags and the NX bit one mapping request puts into every entry it creates. */
  datatype Attr = Attr(extra: set<PeBit>, nx: bool)

  /** cr_amd64_init_page_ent: a direct entry of level 3 or 2 keeps the frame number in a field
      that starts 18 or 9 bits further up. */
  function InitPageEnt(pfn: nat, a: Attr, level: nat, mapDirect: bool): PageEnt {
    if mapDirect && level == LVL_PDP then
      PageEnt({PePresent, PePageSize} + a.extra, 0, pfn % 0x40_0000 * 0x4_0000, 0, a.nx)
    else if mapDirect && level == LVL_PD then
      PageEnt({PePresent, PePageSize} + a.extra, 0, pfn % 0x8000_0000 * 0x200, 0, a.nx)
    else
      PageEnt({PePresent} + a.extra, 0, pfn % PFN_FIELD, 0, a.nx)
  }

  /** The entry that points to frame `pfn`: a table at levels 4..2, a page at level 1. */
  function Ent(pfn: nat, a: Attr): PageEnt {
    PageEnt({PePresent} + a.extra, 0, pfn % PFN_FIELD, 0, a.nx)
  }

  /** What the PML4's entry for itself is created with. */
  const SELF_ATTR: Attr := Attr({PeReadWrite, PeWriteThrough}, true)

  predicate Canonical(va: nat) {
    va < VA_HALF || VA_LIMIT - VA_HALF <= va < VA_LIMIT
  }

  /** Add and sign-extend from bit 47. */
  function VaIncr(va: nat, incr: nat): nat {
    var low := (va + incr) % VA_48;
    if low < VA_HALF then low else low + (VA_LIMIT - VA_48)
  }

  function PeIdx(va: nat, level: nat): nat {
    if level == LVL_PML4 then va / 0x80_0000_0000 % 512
    else if level == LVL_PDP then va / 0x4000_0000 % 512
    else if level == LVL_PD then va / 0x20_0000 % 512
    else va / 0x1000 % 512
  }

  /** Number of the 4K page a virtual address lies in, out of the 2^36 the hardware tells apart. */
  function Vpn(va: nat): nat { va / PAGE_SIZE % VPN_LIMIT }

  /** Canonical address of a page. */
  function VaOf(vpn: nat): nat {
    if vpn < VPN_HALF then vpn * PAGE_SIZE else vpn * PAGE_SIZE + (VA_LIMIT - VA_48)
  }

  /** The prefix of a page number that selects a table of the given level. */
  function Up(v: nat, level: nat): nat {
    if level == 0 then v
    else if level == 1 then v / 0x200
    else if level == 2 then v / 0x4_0000
    else if level == 3 then v / 0x800_0000
    else v / 0x10_0000_0000
  }

  lemma UpMono(a: nat, b: nat, level: nat)
    requires a <= b
    ensures Up(a, level) <= Up(b, level)
  {}

  lemma UpStep(v: nat, level: nat)
    requires level < 4
    ensures Up(v, level) / 512 == Up(v, level + 1)
    ensures Up(v, level) == Up(v, level + 1) * 512 + Up(v, level) % 512
  {}

  lemma VaOfVpn(v: nat)
    requires v < VPN_LIMIT
    ensures Canonical(VaOf(v)) && Vpn(VaOf(v)) == v && VaOf(v) % PAGE_SIZE == 0
  {}

  lemma Mod512(q: nat, t: nat)
    ensures (q + 512 * t) % 512 == q % 512
  {}

  lemma UpOf(q: nat, r: nat, level: nat)
    requires 1 <= level <= 3
    requires r < (if level == 1 then 0x200 else if level == 2 then 0x4_0000 else 0x800_0000)
    ensures Up(q * (if level == 1 then 0x200 else if level == 2 then 0x4_0000 else 0x800_0000) + r, level) == q
  {}

  /** Bits above the low 36 do not show in any of the four 9-bit indices. */
  lemma UpHigh(lo: nat, hi: nat, level: nat)
    requires level < 4
    ensures Up(lo + hi * VPN_LIMIT, level) % 512 == Up(lo, level) % 512
  {
    match level
    case 0 => Mod512(lo, hi * 0x800_0000);
    case 1 =>
      UpOf(lo / 0x200 + 512 * (hi * 0x4_0000), lo % 0x200, 1);
      Mod512(lo / 0x200, hi * 0x4_0000);
    case 2 =>
      UpOf(lo / 0x4_0000 + 512 * (hi * 0x200), lo % 0x4_0000, 2);
      Mod512(lo / 0x4_0000, hi * 0x200);
    case 3 =>
      UpOf(lo / 0x800_0000 + 512 * hi, lo % 0x800_0000, 3);
      Mod512(lo / 0x800_0000, hi);
  }

  lemma PeIdxIsUp(va: nat, level: nat)
    requires 1 <= level <= 4
    ensures PeIdx(va, level) == Up(va / 0x1000, level - 1) % 512
  {}

  /** The macros read the same index out of the address as the page number has at that level. */
  lemma PeIdxOfVpn(v: nat, level: nat)
    requires v < VPN_LIMIT && 1 <= level <= 4
    ensures PeIdx(VaOf(v), level) == Up(v, level - 1) % 512
  {
    var high := if v < VPN_HALF then 0 else 0xFFFF;
    assert VaOf(v) / 0x1000 == v + high * VPN_LIMIT;
    PeIdxIsUp(VaOf(v), level);
    UpHigh(v, high, level - 1);
  }

  /** The page after the last one is the first. */
  function Wrap(v: nat): nat { if v < VPN_LIMIT then v else 0 }

  /** Stepping one page advances the page number and stays canonical; the top page wraps to 0. */
  lemma VaIncrPage(v: nat)
    requires v < VPN_LIMIT
    ensures VaIncr(VaOf(v), PAGE_SIZE) == VaOf(Wrap(v + 1))
  {
    var sum := VaOf(v) + PAGE_SIZE;
    if v < VPN_HALF {
      assert sum % VA_48 == sum;
    } else if v + 1 < VPN_LIMIT {
      assert sum == 0xFFFF * VA_48 + (v + 1) * PAGE_SIZE && (v + 1) * PAGE_SIZE < VA_48;
      assert sum % VA_48 == (v + 1) * PAGE_SIZE;
    } else {
      assert sum == 0x1_0000 * VA_48;
    }
  }
}
