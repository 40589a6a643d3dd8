/** Cloning the module image at its own addresses, and mapping the VGA window into it. */
module ImageMap {
  import opened MapDef
  import opened PageTables
  import opened PfnIndex
  import opened HostState
  import opened HostWalk
  import opened Mapping
  import opened Blocks
  import opened RamMap

  const VGA_PFN_BASE: nat := 0xb8
  const VGA_PAGES: nat := 8
  const IMAGE_REQ: Req := Req(Attr({PeReadWrite, PeWriteThrough}, false), RsvdPage)

  /** The loaded image: first page and length, the pages of the VGA buffer and of the PML4 in it, and
      the host's tables, which say in which frames it lies. */
  datatype Image = Image(host: PhysMem, hostRoot: nat, base: nat, npages: nat, vga: nat, pml4: nat)
  {
    function FrameOf(v: nat): nat { VirtToPhys(host, hostRoot, VaOf(v)) }

    function PageFrames(n: nat): (r: seq<nat>)
      ensures |r| == n && forall i | 0 <= i < n :: r[i] == FrameOf(base + i)
    {
      if n == 0 then [] else PageFrames(n - 1) + [FrameOf(base + n - 1)]
    }

    /** Kernel half, page-aligned parts inside the image, frames of their own. */
    ghost predicate Placed() {
      && VPN_HALF <= base && base + npages < VPN_LIMIT
      && base <= vga && vga + VGA_PAGES <= base + npages
      && base <= pml4 < base + npages
      && forall v {:trigger FrameOf(v)} | base <= v < base + npages ::
           FrameOf(v) < PFN_LIMIT && !(VGA_PFN_BASE <= FrameOf(v) < VGA_PFN_BASE + VGA_PAGES)
    }
  }

  /** cr_amd64_map_pages_clone4K: the pages from d0 on are mapped to the frames the host has the image
      pages in. The destination is the image's own place unless another one is given, which is then
      advanced. */
  method ClonePages(h: Host, img: Image, dst: Option<nat>, q: Req, ghost d0: nat) returns (err: int, end: Option<nat>)
    requires img.base + img.npages < VPN_LIMIT && d0 + img.npages < VPN_LIMIT && SelfMapped(h.s)
    requires if dst.Some? then dst.value == VaOf(d0) else d0 == img.base
    requires PePageSize !in q.a.extra && q.kind != PageTable
    requires h.Inv()
    modifies h, h.kern, h.index, h.index.Repr, h.Arrays()
    ensures err == 0 ==> end == if dst.Some? then Some(VaOf(d0 + img.npages)) else None
    ensures err == 0 ==>
              Done(old(h.s), old(h.index.facts), h.s, h.index.facts, d0, img.PageFrames(img.npages), img.npages, q)
    ensures err == 0 ==> Keeps(old(h.arr), h.arr) && fresh(h.Arrays() - old(h.Arrays()))
    ensures err == 0 ==> h.Inv() && h.kern.failed == old(h.kern.failed) && fresh(h.index.Repr - old(h.index.Repr))
    ensures err != 0 ==> end == dst
    ensures err != 0 ==> h.kern.failed || exists v :: d0 <= v < d0 + img.npages && Up(v, 3) == SELF_SLOT
  {
    hide Host.Inv, Coherent, Done, Up, SelfMapped, Keeps, VaOf, Image.PageFrames, Image.FrameOf, VaIncr;
    ghost var s, f := h.s, h.index.facts;
    var vaCur, npage := VaOf(img.base), 0;
    var vaDst := if dst.Some? then dst.value else vaCur;
    err, end := 0, dst;
    RootTable(h);
    ImageNone(img);
    DoneRefl(s, f, d0, 0, q);
    KeepsRefl(h.arr);
    while npage < img.npages
      invariant npage <= img.npages && err == 0 && end == dst
      invariant vaCur == VaOf(img.base + npage) && vaDst == VaOf(d0 + npage)
      invariant Keeps(old(h.arr), h.arr) && fresh(h.Arrays() - old(h.Arrays()))
      invariant h.Inv() && h.kern.failed == old(h.kern.failed) && fresh(h.index.Repr - old(h.index.Repr))
      invariant Done(s, f, h.s, h.index.facts, d0, img.PageFrames(npage), npage, q)
    {
      ghost var arr := h.arr;
      err, vaDst := ClonePage(h, img, vaCur, vaDst, q, npage, d0, s, f);
      if err != 0 {
        return;
      }
      KeepsTrans(old(h.arr), arr, h.arr);
      VaIncrPage(img.base + npage);
      npage, vaCur := npage + 1, VaIncr(vaCur, PAGE_SIZE);
    }
    if dst.Some? {
      end := Some(vaDst);
    }
  }

  lemma ImageNone(img: Image)
    ensures img.PageFrames(0) == []
  {}

  /** One page of the image. */
  method ClonePage(h: Host, img: Image, vaCur: nat, vaDst0: nat, q: Req,
                   ghost npage: nat, ghost d0: nat, ghost s: PTs, ghost f: Facts)
      returns (err: int, vaDst: nat)
    requires d0 + npage + 1 < VPN_LIMIT && vaCur == VaOf(img.base + npage) && vaDst0 == VaOf(d0 + npage)
    requires PePageSize !in q.a.extra && q.kind != PageTable
    requires SelfMapped(s) && ROOT in s.frame
    requires Done(s, f, h.s, h.index.facts, d0, img.PageFrames(npage), npage, q)
    requires h.Inv()
    modifies h, h.kern, h.index, h.index.Repr, h.Arrays()
    ensures err == 0 ==> vaDst == VaOf(d0 + npage + 1)
    ensures err == 0 ==> Done(s, f, h.s, h.index.facts, d0, img.PageFrames(npage + 1), npage + 1, q)
    ensures err == 0 ==> Keeps(old(h.arr), h.arr) && fresh(h.Arrays() - old(h.Arrays()))
    ensures err == 0 ==> h.Inv() && h.kern.failed == old(h.kern.failed) && fresh(h.index.Repr - old(h.index.Repr))
    ensures err != 0 ==> h.kern.failed || Up(d0 + npage, 3) == SELF_SLOT
  {
    hide Host.Inv, Coherent, Done, Up, SelfMapped, Keeps, VaOf, Image.PageFrames, Image.FrameOf, Frames, VirtToPhys;
    ghost var t, g, n := h.s, h.index.facts, 0;
    DoneKeepsRoot(s, f, t, g, d0, img.PageFrames(npage), npage, q);
    var pfn := VirtToPhys(img.host, img.hostRoot, vaCur);
    err, vaDst, n := MapAligned(h, vaDst0, pfn, pfn + 1, q, d0 + npage);
    if err == 0 {
      DoneTrans(s, f, t, g, h.s, h.index.facts, d0, img.PageFrames(npage), npage, Frames(pfn, 1), 1, q);
      ImageStep(img, npage, pfn);
    }
  }

  lemma ImageStep(img: Image, n: nat, pfn: nat)
    requires pfn == VirtToPhys(img.host, img.hostRoot, VaOf(img.base + n))
    ensures img.PageFrames(n) + Frames(pfn, 1) == img.PageFrames(n + 1)
  {}

  /** The range of the VGA window has no 2M boundary inside: the level 1 call maps all of it. */
  lemma VgaPass()
    ensures PassFrames(LVL_PT, VGA_PFN_BASE, VGA_PFN_BASE + VGA_PAGES) == Frames(VGA_PFN_BASE, VGA_PAGES)
  {
    var b, l := VGA_PFN_BASE, VGA_PFN_BASE + VGA_PAGES;
    forall f | b <= f < l ensures InPass(LVL_PT, f, b, l) {
      assert f / 0x200 == 0;
    }
    PassAll(LVL_PT, b, l, b, l);
  }

  /** The pages of the VGA buffer are mapped to the VGA frames instead. */
  method MapVga(h: Host, img: Image) returns (err: int)
    requires VPN_HALF <= img.vga && img.vga + VGA_PAGES < VPN_LIMIT && SelfMapped(h.s)
    requires h.Inv()
    modifies h, h.kern, h.index, h.index.Repr, h.Arrays()
    ensures err == 0 ==>
              Done(old(h.s), old(h.index.facts), h.s, h.index.facts,
                   img.vga, Frames(VGA_PFN_BASE, VGA_PAGES), VGA_PAGES, RAM_REQ)
    ensures err == 0 ==> Keeps(old(h.arr), h.arr) && fresh(h.Arrays() - old(h.Arrays()))
    ensures err == 0 ==> h.Inv() && h.kern.failed == old(h.kern.failed) && fresh(h.index.Repr - old(h.index.Repr))
    ensures err != 0 ==>
              h.kern.failed || exists v :: img.vga <= v < img.vga + VGA_PAGES && Up(v, 3) == SELF_SLOT
  {
    hide Host.Inv, Coherent, Done, Up, SelfMapped, Keeps, VaOf, PassFrames;
    VgaPass();
    var va: nat;
    ghost var fs: seq<nat>;
    err, va, fs := MapUnaligned(h, VaOf(img.vga), VGA_PFN_BASE, VGA_PFN_BASE + VGA_PAGES, RAM_REQ, LVL_PT, img.vga);
  }
}
