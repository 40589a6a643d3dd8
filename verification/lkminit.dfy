/** Module initialisation as a whole, and what the page tables say after it. */
module Initialise {
  import opened MapDef
  import opened PageTables
  import opened KernelEnv
  import opened Alloc
  import opened PfnIndex
  import opened HostState
  import opened HostWalk
  import opened Mapping
  import opened Order
  import opened RamMap
  import opened ImageMap
  import opened Unmap
  import opened SelfMap
  import opened Words

  /** The tables and facts after the self-map, the RAM passes, the image and the VGA window. */
  datatype Run = Run(s0: PTs, s1: PTs, s2: PTs, s3: PTs, f1: Facts, f2: Facts, f3: Facts, ss: seq<Section>, img: Image)
  {
    function Ram(): seq<nat> { RamOrder(ss) }
    function N(): nat { |RamOrder(ss)| }

    ghost predicate Good() {
      && s0.frame.Keys == {ROOT} && (forall v: nat {:trigger Leaf(s0, v)} :: Leaf(s0, v) == ZERO_ENT)
      && N() < VPN_HALF && AllPfns(Ram()) && Distinct(Ram()) && img.Placed()
      && Done(s0, NO_FACTS, s1, f1, 0, Ram(), N(), RAM_REQ)
      && Done(s1, f1, s2, f2, img.base, img.PageFrames(img.npages), img.npages, IMAGE_REQ)
      && Done(s2, f2, s3, f3, img.vga, Frames(VGA_PFN_BASE, VGA_PAGES), VGA_PAGES, RAM_REQ)
    }
  }

  predicate IsVga(img: Image, v: nat) { img.vga <= v < img.vga + VGA_PAGES }
  predicate IsImage(img: Image, v: nat) { img.base <= v < img.base + img.npages }
  predicate IsVgaFrame(f: nat) { VGA_PFN_BASE <= f < VGA_PFN_BASE + VGA_PAGES }

  lemma DoneLeaf(s: PTs, f: Facts, t: PTs, g: Facts, v0: nat, fs: seq<nat>, n: nat, q: Req, v: nat)
    requires Done(s, f, t, g, v0, fs, n, q)
    ensures Leaf(t, v) == if v0 <= v < v0 + |fs| then Ent(fs[v - v0], q.a) else Leaf(s, v)
  {}

  /** What each page's last-level entry is before the unmapping. */
  lemma LeafBefore(r: Run, v: nat)
    requires r.Good()
    ensures Leaf(r.s3, v) ==
            if v < r.N() then Ent(r.Ram()[v], RAM_REQ.a)
            else if IsVga(r.img, v) then Ent(VGA_PFN_BASE + (v - r.img.vga), RAM_REQ.a)
            else if IsImage(r.img, v) then Ent(r.img.FrameOf(v), IMAGE_REQ.a)
            else ZERO_ENT
  {
    hide Done, Leaf, Ent, RamOrder, VirtToPhys;
    var ifs := r.img.PageFrames(r.img.npages);
    DoneLeaf(r.s0, NO_FACTS, r.s1, r.f1, 0, r.Ram(), r.N(), RAM_REQ, v);
    DoneLeaf(r.s1, r.f1, r.s2, r.f2, r.img.base, ifs, r.img.npages, IMAGE_REQ, v);
    DoneLeaf(r.s2, r.f2, r.s3, r.f3, r.img.vga, Frames(VGA_PFN_BASE, VGA_PAGES), VGA_PAGES, RAM_REQ, v);
  }

  /** The links on the path of a page of the direct map. */
  lemma RamLink(r: Run, v: nat, level: nat)
    requires r.Good() && v < r.N() && 1 <= level <= 3
    ensures var k := TableKey(v, level);
            k in r.s3.frame && LinkEnt(r.s3, k) == Ent(r.s3.frame[k], RAM_REQ.a)
  {
    var k := TableKey(v, level);
    UpMono(0, v, level);
    UpMono(v, r.N() - 1, level);
    assert InCover(k, 0, |r.Ram()|);
    assert k in r.s1.frame && k !in r.s0.frame;
    assert r.s1.frame[k] == r.s2.frame[k] == r.s3.frame[k];
  }

  /** The links on the path of a page of the image. */
  lemma ImageLink(r: Run, v: nat, level: nat)
    requires r.Good() && IsImage(r.img, v) && 1 <= level <= 3
    ensures var k := TableKey(v, level);
            k in r.s3.frame && LinkEnt(r.s3, k) == Ent(r.s3.frame[k], IMAGE_REQ.a)
  {
    var k := TableKey(v, level);
    UpMono(r.img.base, v, level);
    UpMono(v, r.img.base + r.img.npages - 1, level);
    assert InCover(k, r.img.base, |r.img.PageFrames(r.img.npages)|);
    if k in r.s1.frame {
      assert k !in r.s0.frame && r.s1.frame[k] == r.s1.frame[k];
      assert InCover(k, 0, r.N());
      HalvesApart(r.N() - 1, v, level);
    }
    assert r.s2.frame[k] == r.s3.frame[k];
  }

  // ---- what the index says about RAM ----

  lemma RamFacts(r: Run)
    requires r.Good()
    ensures r.f3.ram == LinkRun(LinkRun(map[], 0, r.Ram()), r.img.vga, Frames(VGA_PFN_BASE, VGA_PAGES))
  {
    assert r.f2.ram == r.f2.(pt := r.f1.pt).ram;
    assert r.f1.ram == r.f1.(pt := NO_FACTS.pt).ram;
    assert r.f3.ram == r.f3.(pt := r.f2.pt).ram;
  }

  lemma VgaFrames()
    ensures AllPfns(Frames(VGA_PFN_BASE, VGA_PAGES)) && Distinct(Frames(VGA_PFN_BASE, VGA_PAGES))
    ensures forall f: nat :: f in Frames(VGA_PFN_BASE, VGA_PAGES) <==> IsVgaFrame(f)
  {
    var fs := Frames(VGA_PFN_BASE, VGA_PAGES);
    forall f: nat ensures f in fs <==> IsVgaFrame(f) {
      if IsVgaFrame(f) { assert fs[f - VGA_PFN_BASE] == f; }
    }
  }

  /** A RAM frame is noted at its page of the direct map; a VGA frame at its page of the window. */
  lemma RamNoted(r: Run, f: nat)
    requires r.Good()
    ensures f in r.f3.ram <==> f in r.Ram() || IsVgaFrame(f)
    ensures forall v {:trigger r.Ram()[v]} | 0 <= v < r.N() && r.Ram()[v] == f && !IsVgaFrame(f) ::
              r.f3.ram[f] == VaOf(v)
    ensures IsVgaFrame(f) ==> r.f3.ram[f] == VaOf(r.img.vga + (f - VGA_PFN_BASE))
  {
    hide Done, RamOrder, VirtToPhys, VaOf, LinkRun;
    var vfs, m := Frames(VGA_PFN_BASE, VGA_PAGES), LinkRun(map[], 0, r.Ram());
    RamFacts(r);
    VgaFrames();
    if IsVgaFrame(f) {
      LinkRunAt(m, r.img.vga, vfs, f - VGA_PFN_BASE);
    } else {
      LinkRunElsewhere(m, r.img.vga, vfs, f);
      if f in r.Ram() {
        var v :| 0 <= v < r.N() && r.Ram()[v] == f;
        LinkRunAt(map[], 0, r.Ram(), v);
      } else {
        LinkRunElsewhere(map[], 0, r.Ram(), f);
      }
    }
  }

  lemma VaOfInjective(u: nat, v: nat)
    requires u < VPN_LIMIT && v < VPN_LIMIT && VaOf(u) == VaOf(v)
    ensures u == v
  {}

  /** Every noted RAM address has its last-level table. */
  lemma RamIsMapped(r: Run)
    requires r.Good()
    ensures RamMapped(r.s3, r.f3.ram)
  {
    hide Done, RamOrder, VirtToPhys, VaOf, TableKey, LinkEnt;
    forall f | f in r.f3.ram
      ensures exists v: nat :: v < VPN_LIMIT && r.f3.ram[f] == VaOf(v) && TableKey(v, 1) in r.s3.frame
    {
      RamNoted(r, f);
      if IsVgaFrame(f) {
        var v := r.img.vga + (f - VGA_PFN_BASE);
        ImageLink(r, v, 1);
        assert TableKey(v, 1) in r.s3.frame;
      } else {
        var v :| 0 <= v < r.N() && r.Ram()[v] == f;
        RamLink(r, v, 1);
        assert TableKey(v, 1) in r.s3.frame;
      }
    }
  }

  // ---- which pages are unmapped ----

  ghost predicate NoVga(fs: seq<nat>) { forall f | f in fs :: !IsVgaFrame(f) }

  /** The page found for a frame is the frame's page of the direct map. */
  lemma PageFound(r: Run, f: nat, p: nat)
    requires r.Good() && f in r.f3.ram && !IsVgaFrame(f) && p < VPN_LIMIT && r.f3.ram[f] == VaOf(p)
    ensures p < r.N() && r.Ram()[p] == f
  {
    hide Done, RamOrder, VirtToPhys, VaOf;
    RamNoted(r, f);
    var v :| 0 <= v < r.N() && r.Ram()[v] == f;
    VaOfInjective(p, v);
  }

  /** The pages unmapped are exactly those of the direct map that hold a reserved frame. */
  lemma PagesExact(r: Run, fs: seq<nat>, pages: seq<nat>, v: nat)
    requires r.Good() && PagesOf(r.f3.ram, fs, pages) && NoVga(fs)
    ensures v in pages <==> v < r.N() && r.Ram()[v] in fs
  {
    hide Done, RamOrder, VirtToPhys, VaOf, Run.Good;
    if v in pages {
      var i :| 0 <= i < |pages| && pages[i] == v;
      assert fs[i] in fs;
      PageFound(r, fs[i], v);
    }
    if v < r.N() && r.Ram()[v] in fs {
      var i :| 0 <= i < |fs| && fs[i] == r.Ram()[v];
      PageFound(r, fs[i], pages[i]);
      SameRamPage(r, v, pages[i]);
      assert pages[i] in pages;
    }
  }

  lemma SameRamPage(r: Run, u: nat, v: nat)
    requires r.Good() && u < r.N() && v < r.N() && r.Ram()[u] == r.Ram()[v]
    ensures u == v
  {}

  lemma ClearedTwice(s: PTs, t: PTs, u: PTs, p: seq<nat>, q: seq<nat>)
    requires Cleared(s, t, p) && Cleared(t, u, q)
    ensures Cleared(s, u, p + q)
  {
    forall v: nat ensures Leaf(u, v) == if v in p + q then Leaf(s, v).ClearPresent() else Leaf(s, v) {
      assert Leaf(t, v) == if v in p then Leaf(s, v).ClearPresent() else Leaf(s, v);
    }
    forall k | k in s.frame && k != ROOT ensures LinkEnt(u, k) == LinkEnt(s, k) {
      assert LinkEnt(t, k) == LinkEnt(s, k);
    }
  }

  // ---- translations at the end ----

  /** After unmapping, a page of the direct map translates to its frame, writable, unless the frame is
      reserved. */
  lemma RamAfter(r: Run, t: PTs, fs: seq<nat>, pages: seq<nat>, v: nat)
    requires r.Good() && Cleared(r.s3, t, pages) && PagesOf(r.f3.ram, fs, pages) && NoVga(fs) && v < r.N()
    ensures Flat(t, v) == if r.Ram()[v] in fs then None else Some(Xlat(r.Ram()[v], true, true))
  {
    hide Run.Good, RamOrder, PagesOf, Cleared, Leaf, LinkEnt, TableKey;
    LeafBefore(r, v);
    PagesExact(r, fs, pages, v);
    ClearedLeaf(r.s3, t, pages, v);
    RamPfn(r, v);
    RamLink(r, v, 1);
    RamLink(r, v, 2);
    RamLink(r, v, 3);
    KeyIsNotRoot(v);
    ClearedLink(r.s3, t, pages, TableKey(v, 1));
    ClearedLink(r.s3, t, pages, TableKey(v, 2));
    ClearedLink(r.s3, t, pages, TableKey(v, 3));
  }

  lemma KeyIsNotRoot(v: nat)
    ensures TableKey(v, 1) != ROOT && TableKey(v, 2) != ROOT && TableKey(v, 3) != ROOT
  {}

  lemma RamPfn(r: Run, v: nat)
    requires r.Good() && v < r.N()
    ensures r.Ram()[v] < PFN_LIMIT
  {}

  lemma ClearedLeaf(s: PTs, t: PTs, pages: seq<nat>, v: nat)
    requires Cleared(s, t, pages)
    ensures Leaf(t, v) == if v in pages then Leaf(s, v).ClearPresent() else Leaf(s, v)
  {}

  lemma ClearedLink(s: PTs, t: PTs, pages: seq<nat>, k: Key)
    requires Cleared(s, t, pages) && k in s.frame && k != ROOT
    ensures LinkEnt(t, k) == LinkEnt(s, k)
  {}

  /** A page of the image translates to its own frame with NX clear on the whole path, a page of the
      VGA buffer to its frame of the VGA window. */
  lemma ImageAfter(r: Run, t: PTs, fs: seq<nat>, pages: seq<nat>, v: nat)
    requires r.Good() && Cleared(r.s3, t, pages) && PagesOf(r.f3.ram, fs, pages) && NoVga(fs) && IsImage(r.img, v)
    ensures Flat(t, v) == if IsVga(r.img, v) then Some(Xlat(VGA_PFN_BASE + (v - r.img.vga), true, true))
                          else Some(Xlat(r.img.FrameOf(v), true, false))
  {
    hide Run.Good, RamOrder, PagesOf, Cleared, Leaf, LinkEnt, TableKey, VirtToPhys;
    ImageAbove(r, v);
    LeafBefore(r, v);
    PagesExact(r, fs, pages, v);
    ClearedLeaf(r.s3, t, pages, v);
    ImageLink(r, v, 1);
    ImageLink(r, v, 2);
    ImageLink(r, v, 3);
    KeyIsNotRoot(v);
    ClearedLink(r.s3, t, pages, TableKey(v, 1));
    ClearedLink(r.s3, t, pages, TableKey(v, 2));
    ClearedLink(r.s3, t, pages, TableKey(v, 3));
  }

  lemma ImageAbove(r: Run, v: nat)
    requires r.Good() && IsImage(r.img, v)
    ensures r.N() < VPN_HALF <= v && r.img.FrameOf(v) < PFN_LIMIT
  {}

  /** No page outside the direct map and the image is mapped. */
  lemma OtherAfter(r: Run, t: PTs, pages: seq<nat>, v: nat)
    requires r.Good() && Cleared(r.s3, t, pages) && r.N() <= v && !IsImage(r.img, v)
    ensures Flat(t, v) == None
  {
    hide Run.Good, RamOrder, Cleared, Leaf, VirtToPhys;
    VgaInside(r, v);
    LeafBefore(r, v);
    ClearedLeaf(r.s3, t, pages, v);
  }

  lemma VgaInside(r: Run, v: nat)
    requires r.Good()
    ensures r.N() < VPN_HALF <= r.img.base && (IsVga(r.img, v) ==> IsImage(r.img, v))
  {}

  /** What each last-level entry is at the end. */
  function LeafNow(ram: seq<nat>, img: Image, fs: seq<nat>, v: nat): PageEnt {
    if v < |ram| then
      if ram[v] in fs then Ent(ram[v], RAM_REQ.a).ClearPresent() else Ent(ram[v], RAM_REQ.a)
    else if IsVga(img, v) then Ent(VGA_PFN_BASE + (v - img.vga), RAM_REQ.a)
    else if IsImage(img, v) then Ent(img.FrameOf(v), IMAGE_REQ.a)
    else ZERO_ENT
  }

  /** Every entry of every table: the links of the direct map and of the image, and the last level. */
  ghost predicate EntriesExact(t: PTs, ram: seq<nat>, img: Image, fs: seq<nat>) {
    && (forall v: nat {:trigger Leaf(t, v)} :: Leaf(t, v) == LeafNow(ram, img, fs, v))
    && (forall k {:trigger LinkEnt(t, k)} | k in t.frame && k != ROOT ::
          LinkEnt(t, k) == Ent(t.frame[k], if InCover(k, 0, |ram|) then RAM_REQ.a else IMAGE_REQ.a))
  }

  lemma LinkBefore(r: Run, k: Key)
    requires r.Good() && k in r.s3.frame && k != ROOT
    ensures LinkEnt(r.s3, k) == Ent(r.s3.frame[k], if InCover(k, 0, r.N()) then RAM_REQ.a else IMAGE_REQ.a)
  {
    hide RamOrder, VirtToPhys, LinkEnt, InCover, Leaf;
    if k in r.s1.frame {
      assert r.s1.frame[k] == r.s2.frame[k] == r.s3.frame[k];
      assert LinkEnt(r.s1, k) == LinkEnt(r.s2, k) == LinkEnt(r.s3, k);
    } else {
      VgaCovered(r, k);
      assert r.s2.frame[k] == r.s3.frame[k];
      assert LinkEnt(r.s2, k) == LinkEnt(r.s3, k);
    }
  }

  /** The VGA window needs no table that the image does not have. */
  lemma VgaCovered(r: Run, k: Key)
    requires r.Good() && k in r.s3.frame
    ensures k in r.s2.frame
  {
    hide RamOrder, VirtToPhys, LinkEnt, InCover, Leaf;
    VgaInImage(r.img, k);
    assert r.s3.frame[k] == r.s3.frame[k];
    assert k !in r.s2.frame ==> InCover(k, r.img.vga, VGA_PAGES);
    assert |r.img.PageFrames(r.img.npages)| == r.img.npages;
  }

  lemma VgaInImage(img: Image, k: Key)
    requires img.Placed()
    ensures InCover(k, img.vga, VGA_PAGES) ==> InCover(k, img.base, img.npages)
  {
    hide InCover, VirtToPhys;
    var off := img.vga - img.base;
    CoverSplit(k, img.base, off, VGA_PAGES);
    CoverSplit(k, img.base, off + VGA_PAGES, img.npages - off - VGA_PAGES);
  }

  lemma ExactAfter(r: Run, t: PTs, fs: seq<nat>, pages: seq<nat>)
    requires r.Good() && Cleared(r.s3, t, pages) && PagesOf(r.f3.ram, fs, pages) && NoVga(fs)
    ensures EntriesExact(t, r.Ram(), r.img, fs)
  {
    hide Run.Good, RamOrder, PagesOf, Cleared, Leaf, LinkEnt, VirtToPhys, InCover, Ent, IsVga, IsImage;
    forall v: nat ensures Leaf(t, v) == LeafNow(r.Ram(), r.img, fs, v) {
      LeafBefore(r, v);
      ClearedLeaf(r.s3, t, pages, v);
      PagesExact(r, fs, pages, v);
    }
    ClearedFrames(r.s3, t, pages);
    forall k | k in t.frame && k != ROOT
      ensures LinkEnt(t, k) == Ent(t.frame[k], if InCover(k, 0, r.N()) then RAM_REQ.a else IMAGE_REQ.a)
    {
      LinkBefore(r, k);
      ClearedLink(r.s3, t, pages, k);
    }
  }

  lemma ClearedFrames(s: PTs, t: PTs, pages: seq<nat>)
    requires Cleared(s, t, pages)
    ensures t.frame == s.frame
  {}

  /** What initialisation leaves behind: tables `t`, of which `fs` are the reserved frames. */
  ghost predicate Ready(t: PTs, ss: seq<Section>, img: Image, fs: seq<nat>) {
    var ram := RamOrder(ss);
    && Coherent(t) && SelfMapped(t) && |ram| < VPN_HALF && EntriesExact(t, ram, img, fs)
    && (forall v: nat {:trigger Flat(t, v)} | v < |ram| ::
          Flat(t, v) == if ram[v] in fs then None else Some(Xlat(ram[v], true, true)))
    && VPN_HALF <= img.base
    && (forall v: nat {:trigger IsImage(img, v)} | IsImage(img, v) ::
          Flat(t, v) == if IsVga(img, v) then Some(Xlat(VGA_PFN_BASE + (v - img.vga), true, true))
                        else Some(Xlat(img.FrameOf(v), true, false)))
    && (forall v: nat {:trigger Flat(t, v)} | |ram| <= v && !IsImage(img, v) :: Flat(t, v) == None)
    && (forall f {:trigger f in fs} | f in fs :: f in ram)
    && (forall f {:trigger f in fs} :: f in fs <==> f in t.frame.Values || f in img.PageFrames(img.npages))
  }

  lemma ReadyFrom(r: Run, t: PTs, fs: seq<nat>, pages: seq<nat>)
    requires r.Good() && Cleared(r.s3, t, pages) && PagesOf(r.f3.ram, fs, pages) && NoVga(fs)
    requires Coherent(t) && SelfMapped(t)
    requires forall f {:trigger f in fs} :: f in fs <==> f in t.frame.Values || f in r.img.PageFrames(r.img.npages)
    ensures Ready(t, r.ss, r.img, fs)
  {
    hide Done, RamOrder, PagesOf, Cleared, Leaf, VirtToPhys, Coherent, SelfMapped, Flat, EntriesExact;
    ExactAfter(r, t, fs, pages);
    forall v: nat | v < r.N()
      ensures Flat(t, v) == if r.Ram()[v] in fs then None else Some(Xlat(r.Ram()[v], true, true))
    {
      RamAfter(r, t, fs, pages, v);
    }
    forall v: nat | IsImage(r.img, v)
      ensures Flat(t, v) == if IsVga(r.img, v) then Some(Xlat(VGA_PFN_BASE + (v - r.img.vga), true, true))
                            else Some(Xlat(r.img.FrameOf(v), true, false))
    {
      ImageAfter(r, t, fs, pages, v);
    }
    forall v: nat | r.N() <= v && !IsImage(r.img, v) ensures Flat(t, v) == None {
      OtherAfter(r, t, pages, v);
    }
    VgaInside(r, 0);
    forall f | f in fs ensures f in r.Ram() {
      FoundInRam(r, fs, pages, f);
    }
  }

  lemma FoundInRam(r: Run, fs: seq<nat>, pages: seq<nat>, f: nat)
    requires r.Good() && PagesOf(r.f3.ram, fs, pages) && NoVga(fs) && f in fs
    ensures f in r.Ram()
  {
    var i :| 0 <= i < |fs| && fs[i] == f;
    PageFound(r, f, pages[i]);
  }

  // ---- the run of initialisation itself ----

  /** RAM sections within the frame limit, and no more pages than the low half holds. */
  ghost predicate RamFits(ss: seq<Section>) {
    Total(ss) < VPN_HALF && forall s {:trigger s in ss} | s in ss :: s.limit <= PFN_LIMIT
  }

  /** The kernel never hands out a frame of the image or of the VGA window. */
  ghost predicate ImageHeld(img: Image, pinned: set<nat>) {
    && img.Placed()
    && (forall f {:trigger IsVgaFrame(f)} | IsVgaFrame(f) :: f in pinned)
    && (forall f {:trigger f in img.PageFrames(img.npages)} | f in img.PageFrames(img.npages) :: f in pinned)
  }

  lemma RamOrderGood(ss: seq<Section>)
    requires Apart(ss) && RamFits(ss)
    ensures |RamOrder(ss)| == Total(ss) < VPN_HALF && AllPfns(RamOrder(ss)) && Distinct(RamOrder(ss))
  {
    hide RamOrder;
    RamOrderLength(ss);
    RamOrderDistinct(ss);
    forall i | 0 <= i < |RamOrder(ss)| ensures RamOrder(ss)[i] < PFN_LIMIT {
      RamOrderHolds(ss, RamOrder(ss)[i]);
    }
  }

  /** The reserved list names the frame of every table but the PML4, and no other frame, each once. */
  lemma ListedExactly(h: Host, f: nat)
    requires h.Inv()
    ensures f in h.index.listed <==>
            exists k {:trigger h.s.frame[k]} :: k in h.s.frame && k != ROOT && h.s.frame[k] == f
    ensures Distinct(h.index.listed)
  {
    hide Index.Valid, Kernel.Valid, Host.Mirrored, Ledger.Known;
    if f in h.index.listed {
      var i :| 0 <= i < |h.index.listed| && h.index.listed[i] == f;
      assert h.s.frame[h.order[i]] == f;
    }
    if k :| k in h.s.frame && k != ROOT && h.s.frame[k] == f {
      assert k in h.order;
      var i :| 0 <= i < |h.order| && h.order[i] == k;
      assert h.index.listed[i] == f;
    }
    forall i, j | 0 <= i < j < |h.index.listed| ensures h.index.listed[i] != h.index.listed[j] {
      assert h.order[i] != h.order[j];
      assert h.s.frame[h.order[i]] != h.s.frame[h.order[j]];
    }
  }

  lemma {:induction false} SetOfDistinct(ks: seq<Key>, keys: set<Key>)
    requires forall i, j {:trigger ks[i], ks[j]} | 0 <= i < j < |ks| :: ks[i] != ks[j]
    requires forall k {:trigger k in ks} {:trigger k in keys} :: k in ks <==> k in keys
    ensures |ks| == |keys|
  {
    if ks == [] {
      assert keys == {};
    } else {
      var last, front := ks[|ks| - 1], ks[..|ks| - 1];
      assert ks == front + [last];
      SetOfDistinct(front, keys - {last});
    }
  }

  /** The reserved list is as long as there are tables below the PML4. */
  lemma ListedCount(h: Host)
    requires h.Inv()
    ensures |h.index.listed| == |h.s.frame.Keys - {ROOT}|
  {
    hide Index.Valid, Kernel.Valid, Host.Mirrored, Ledger.Known, Coherent;
    SetOfDistinct(h.order, h.s.frame.Keys - {ROOT});
  }

  /** After the RAM passes: one table for every 512 pages, begun or full, one more for every 512 of
      those and one more for every 512 of these, each on the reserved list. */
  lemma RamTables(h: Host, s0: PTs, ss: seq<Section>)
    requires h.Inv() && s0.frame.Keys == {ROOT} && |RamOrder(ss)| == Total(ss)
    requires Done(s0, NO_FACTS, h.s, h.index.facts, 0, RamOrder(ss), |RamOrder(ss)|, RAM_REQ)
    ensures |h.index.listed| ==
            CeilDiv(Total(ss), 0x200) + CeilDiv(Total(ss), 0x4_0000) + CeilDiv(Total(ss), 0x800_0000)
  {
    hide Host.Inv, Coherent, Mapped, RamOrder, CeilDiv;
    InvCoherent(h);
    ListedCount(h);
    TableCount(s0, h.s, RamOrder(ss), RAM_REQ.a);
  }

  /** A table's frame was handed out by the kernel, so it is none of the frames the kernel keeps. */
  lemma TableNotPinned(h: Host, k: Key)
    requires h.Inv() && k in h.s.frame && k != ROOT
    ensures h.s.frame[k] !in h.kern.pinned
  {
    hide Index.Valid, Host.Mirrored, ListedIn, Coherent;
    assert h.Book().Indexed(k);
    assert h.kern.frameOf[h.at[k]] == h.s.frame[k];
  }

  /** No listed table and no image page lies in a VGA frame. */
  lemma ReservedNoVga(h: Host, img: Image)
    requires h.Inv() && ImageHeld(img, h.kern.pinned)
    ensures NoVga(h.index.listed + img.PageFrames(img.npages))
  {
    hide Host.Inv;
    var ifs := img.PageFrames(img.npages);
    forall f | f in h.index.listed + ifs ensures !IsVgaFrame(f) {
      if f in h.index.listed {
        ListedExactly(h, f);
        var k :| k in h.s.frame && k != ROOT && h.s.frame[k] == f;
        TableNotPinned(h, k);
      } else {
        var i :| 0 <= i < img.npages && ifs[i] == f;
        assert f == img.FrameOf(img.base + i);
      }
    }
  }

  /** The reserved frames are those of the tables and of the image; the PML4 is part of the image. */
  lemma ReservedExactly(h: Host, img: Image, f: nat)
    requires h.Inv() && img.Placed() && h.s.frame[ROOT] == img.FrameOf(img.pml4)
    ensures f in h.index.listed + img.PageFrames(img.npages) <==>
            f in h.s.frame.Values || f in img.PageFrames(img.npages)
  {
    hide Host.Inv, Image.FrameOf;
    ListedExactly(h, f);
    RootTable(h);
    assert img.PageFrames(img.npages)[img.pml4 - img.base] == img.FrameOf(img.pml4);
    if f in h.s.frame.Values {
      var k :| k in h.s.frame && h.s.frame[k] == f;
    }
  }

  lemma PagesOfBoth(ram: map<nat, nat>, fs: seq<nat>, ps: seq<nat>, gs: seq<nat>, qs: seq<nat>)
    requires PagesOf(ram, fs, ps) && PagesOf(ram, gs, qs)
    ensures PagesOf(ram, fs + gs, ps + qs)
  {}

  lemma BareRun(s: PTs, frame: nat)
    requires s.frame == map[ROOT := frame]
    ensures s.frame.Keys == {ROOT} && ROOT in s.frame
  {}

  lemma PlacedFrame(img: Image)
    requires img.Placed()
    ensures img.FrameOf(img.pml4) == VirtToPhys(img.host, img.hostRoot, VaOf(img.pml4)) < PFN_LIMIT
  {}

  lemma KeptFresh(h: Host)
    requires h.arr == map[ROOT := h.pml4]
    ensures h.Arrays() == {h.pml4}
  {
    assert h.arr[ROOT] == h.pml4;
  }

  /** The self-map and the three passes over RAM. */
  method BuildRam(h: Host, walk: PmapWalk, img: Image, ghost ss: seq<Section>)
      returns (err: int, vaTop: nat, ghost s0: PTs)
    requires walk.Valid() && Sections(walk.resources) == ss && walk !in h.index.Repr
    requires Apart(ss) && RamFits(ss) && img.Placed()
    requires h.s == PTs(map[ROOT := img.FrameOf(img.pml4)], map[ROOT := ZeroTable()]) && h.arr == map[ROOT := h.pml4]
    requires h.index.facts == NO_FACTS
    requires h.Inv()
    modifies walk, h, h.kern, h.index, h.index.Repr, h.pml4
    ensures s0.frame == map[ROOT := img.FrameOf(img.pml4)] && SelfMapped(s0)
    ensures forall v: nat {:trigger Leaf(s0, v)} :: Leaf(s0, v) == ZERO_ENT
    ensures err == 0 ==> Done(s0, NO_FACTS, h.s, h.index.facts, 0, RamOrder(ss), |RamOrder(ss)|, RAM_REQ)
    ensures err == 0 ==> vaTop == VaOf(|RamOrder(ss)|) && fresh(h.Arrays() - {h.pml4})
    ensures err == 0 ==> h.Inv() && h.kern.failed == old(h.kern.failed) && fresh(h.index.Repr - old(h.index.Repr))
    ensures err == 0 ==> |RamOrder(ss)| == Total(ss)
    ensures err == 0 ==>
              |h.index.listed| ==
              CeilDiv(Total(ss), 0x200) + CeilDiv(Total(ss), 0x4_0000) + CeilDiv(Total(ss), 0x800_0000)
    ensures err != 0 ==> h.kern.failed
  {
    hide Host.Inv, Coherent, Done, SelfMapped, Keeps, RamOrder, Sections, Image.PageFrames, Image.FrameOf, Leaf,
         VirtToPhys, CeilDiv, Total;
    var pfn := VirtToPhys(img.host, img.hostRoot, VaOf(img.pml4));
    PlacedFrame(img);
    KeptFresh(h);
    MapSelf(h, pfn);
    s0 := h.s;
    RamOrderGood(ss);
    err, vaTop := MapRam(h, walk, ss);
    if err == 0 {
      BareRun(s0, pfn);
      RamTables(h, s0, ss);
    }
  }

  /** The clone of the image, and the VGA window over it. */
  method BuildImage(h: Host, img: Image) returns (err: int, ghost s2: PTs, ghost f2: Facts)
    requires img.Placed() && SelfMapped(h.s)
    requires h.Inv()
    modifies h, h.kern, h.index, h.index.Repr, h.Arrays()
    ensures err == 0 ==>
              Done(old(h.s), old(h.index.facts), s2, f2, img.base, img.PageFrames(img.npages), img.npages, IMAGE_REQ)
    ensures err == 0 ==>
              Done(s2, f2, h.s, h.index.facts, img.vga, Frames(VGA_PFN_BASE, VGA_PAGES), VGA_PAGES, RAM_REQ)
    ensures err == 0 ==> fresh(h.Arrays() - old(h.Arrays()))
    ensures err == 0 ==> h.Inv() && h.kern.failed == old(h.kern.failed) && fresh(h.index.Repr - old(h.index.Repr))
    ensures err != 0 ==>
              h.kern.failed || exists v :: img.base <= v < img.base + img.npages && Up(v, 3) == SELF_SLOT
  {
    hide Host.Inv, Coherent, Done, SelfMapped, Keeps, Image.PageFrames, Image.FrameOf, Up, Frames;
    RootTable(h);
    var end;
    err, end := ClonePages(h, img, None, IMAGE_REQ, img.base);
    s2, f2 := h.s, h.index.facts;
    if err != 0 {
      return;
    }
    DoneKeepsRoot(old(h.s), old(h.index.facts), s2, f2, img.base, img.PageFrames(img.npages), img.npages, IMAGE_REQ);
    err := MapVga(h, img);
  }

  /** All mappings: the self-map, RAM, the image, and the VGA window. */
  method Build(h: Host, walk: PmapWalk, img: Image, ghost ss: seq<Section>) returns (err: int, vaTop: nat, ghost r: Run)
    requires walk.Valid() && Sections(walk.resources) == ss && walk !in h.index.Repr
    requires Apart(ss) && RamFits(ss) && img.Placed()
    requires h.s == PTs(map[ROOT := img.FrameOf(img.pml4)], map[ROOT := ZeroTable()]) && h.arr == map[ROOT := h.pml4]
    requires h.index.facts == NO_FACTS
    requires h.Inv()
    modifies walk, h, h.kern, h.index, h.index.Repr, h.pml4
    ensures err == 0 ==> r.Good() && r.ss == ss && r.img == img && r.s3 == h.s && r.f3 == h.index.facts
    ensures err == 0 ==> h.s.frame[ROOT] == img.FrameOf(img.pml4) && vaTop == VaOf(|RamOrder(ss)|)
    ensures err == 0 ==> fresh(h.Arrays() - {h.pml4}) && SelfMapped(h.s)
    ensures err == 0 ==> h.Inv() && h.kern.failed == old(h.kern.failed)
    ensures err != 0 ==>
              h.kern.failed || exists v :: img.base <= v < img.base + img.npages && Up(v, 3) == SELF_SLOT
  {
    hide Host.Inv, Coherent, Done, SelfMapped, Keeps, RamOrder, Sections, Image.PageFrames, Image.FrameOf, Leaf, Up,
         Run.Good;
    ghost var s0, s1, f1, s2, f2;
    err, vaTop, s0 := BuildRam(h, walk, img, ss);
    s1, f1 := h.s, h.index.facts;
    r := Run(s0, s1, s1, s1, f1, f1, f1, ss, img);
    if err != 0 {
      return;
    }
    DoneKeepsRoot(s0, NO_FACTS, s1, f1, 0, RamOrder(ss), |RamOrder(ss)|, RAM_REQ);
    err, s2, f2 := BuildImage(h, img);
    if err != 0 {
      return;
    }
    r := Run(s0, s1, s2, h.s, f1, f2, h.index.facts, ss, img);
    BuildGood(r);
  }

  lemma BuildGood(r: Run)
    requires Apart(r.ss) && RamFits(r.ss) && r.img.Placed() && SelfMapped(r.s0) && ROOT in r.s0.frame
    requires r.s0.frame == map[ROOT := r.s0.frame[ROOT]]
    requires forall v: nat {:trigger Leaf(r.s0, v)} :: Leaf(r.s0, v) == ZERO_ENT
    requires Done(r.s0, NO_FACTS, r.s1, r.f1, 0, r.Ram(), r.N(), RAM_REQ)
    requires Done(r.s1, r.f1, r.s2, r.f2, r.img.base, r.img.PageFrames(r.img.npages), r.img.npages, IMAGE_REQ)
    requires Done(r.s2, r.f2, r.s3, r.f3, r.img.vga, Frames(VGA_PFN_BASE, VGA_PAGES), VGA_PAGES, RAM_REQ)
    ensures r.Good() && SelfMapped(r.s3) && r.s3.frame[ROOT] == r.s0.frame[ROOT]
  {
    hide Done, SelfMapped, RamOrder, Leaf;
    RamOrderGood(r.ss);
    DoneKeepsRoot(r.s0, NO_FACTS, r.s1, r.f1, 0, r.Ram(), r.N(), RAM_REQ);
    DoneKeepsRoot(r.s1, r.f1, r.s2, r.f2, r.img.base, r.img.PageFrames(r.img.npages), r.img.npages, IMAGE_REQ);
    DoneKeepsRoot(r.s2, r.f2, r.s3, r.f3, r.img.vga, Frames(VGA_PFN_BASE, VGA_PAGES), VGA_PAGES, RAM_REQ);
  }

  /** Every reserved frame loses its page of the direct map: the tables first, then the image. */
  method Reserve(h: Host, img: Image, ghost r: Run) returns (err: int)
    requires r.Good() && r.s3 == h.s && r.f3 == h.index.facts && r.img == img && SelfMapped(h.s)
    requires ImageHeld(img, h.kern.pinned) && h.s.frame[ROOT] == img.FrameOf(img.pml4)
    requires h.Inv()
    modifies h`s, h.Arrays()
    ensures err == 0 ==> Ready(h.s, r.ss, img, h.index.listed + img.PageFrames(img.npages))
    ensures err == 0 ==> h.Inv() && h.s.frame == old(h.s).frame
    ensures err != 0 ==>
              exists f :: (f in h.index.listed || f in img.PageFrames(img.npages)) && !IsRamFrame(r.ss, f)
  {
    hide Host.Inv, Coherent, Done, SelfMapped, RamOrder, Image.PageFrames, Image.FrameOf, Leaf, Run.Good, RamMapped,
         Ready, Cleared, PagesOf, NoVga, ImageHeld, IsRamFrame;
    ghost var s, ram, ifs := h.s, h.index.facts.ram, img.PageFrames(img.npages);
    ghost var pages, more;
    RamIsMapped(r);
    ReservedNoVga(h, img);
    err, pages := UnmapListed(h);
    if err != 0 {
      NotRam(r, h.index.listed, ifs, ram);
      return;
    }
    ghost var t := h.s;
    RamMappedCleared(s, t, pages, ram);
    HeldPlaced(img, h.kern.pinned);
    err, more := UnmapImage(h, img);
    if err != 0 {
      NotRam(r, h.index.listed, ifs, ram);
      return;
    }
    ClearedTwice(s, t, h.s, pages, more);
    PagesOfBoth(ram, h.index.listed, pages, ifs, more);
    ClearedSelf(s, h.s, pages + more);
    InvCoherent(h);
    forall f ensures f in h.index.listed + ifs <==> f in h.s.frame.Values || f in ifs {
      ReservedExactly(h, img, f);
    }
    ReadyFrom(r, h.s, h.index.listed + ifs, pages + more);
  }

  lemma HeldPlaced(img: Image, pinned: set<nat>)
    requires ImageHeld(img, pinned)
    ensures img.Placed()
  {}

  lemma ClearedSelf(s: PTs, t: PTs, pages: seq<nat>)
    requires Cleared(s, t, pages) && SelfMapped(s)
    ensures SelfMapped(t) && t.frame == s.frame
  {}

  /** A reserved frame the index has no RAM address for lies in no RAM section. */
  lemma NotRam(r: Run, fs: seq<nat>, gs: seq<nat>, ram: map<nat, nat>)
    requires r.Good() && ram == r.f3.ram
    requires (exists f :: f in fs && f !in ram) || (exists f :: f in gs && f !in ram)
    ensures exists f :: (f in fs || f in gs) && !IsRamFrame(r.ss, f)
  {
    hide RamOrder, Run.Good, IsRamFrame;
    var f :| (f in fs || f in gs) && f !in ram;
    RamNoted(r, f);
    RamOrderHolds(r.ss, f);
  }

  /** Why initialisation can fail: an allocation did, the image lies under the self-map slot, or a
      reserved frame is not RAM. */
  ghost predicate CannotInit(failed: bool, rs: seq<Resource>, img: Image, listed: seq<nat>) {
    || failed
    || (exists v :: img.base <= v < img.base + img.npages && Up(v, 3) == SELF_SLOT)
    || exists f :: (f in listed || f in img.PageFrames(img.npages)) && !InRam(rs, f)
  }

  lemma NotInRam(rs: seq<Resource>, listed: seq<nat>, img: Image)
    requires Ordered(rs)
    requires exists f :: (f in listed || f in img.PageFrames(img.npages)) && !IsRamFrame(Sections(rs), f)
    ensures CannotInit(false, rs, img, listed)
  {
    hide IsRamFrame, InRam, Image.PageFrames;
    var f :| (f in listed || f in img.PageFrames(img.npages)) && !IsRamFrame(Sections(rs), f);
    RamFrameIs(rs, f);
  }

  /** cr_host_lkm_init up to the descriptor tables. On success the module's own tables translate the
      pages from 0 on to the RAM frames, in the order of the three passes, except those that hold the
      tables themselves or the image; and the image where it was. */
  method LkmInit(h: Host, walk: PmapWalk, img: Image) returns (err: int, vaTop: nat)
    requires walk !in h.index.Repr && Ordered(walk.resources) && RamFits(Sections(walk.resources))
    requires ImageHeld(img, h.kern.pinned)
    requires h.s == PTs(map[ROOT := img.FrameOf(img.pml4)], map[ROOT := ZeroTable()]) && h.arr == map[ROOT := h.pml4]
    requires h.index.facts == NO_FACTS
    requires h.Inv()
    modifies walk, h, h.kern, h.index, h.index.Repr, h.pml4
    ensures err == 0 ==> Ready(h.s, Sections(walk.resources), img, h.index.listed + img.PageFrames(img.npages))
    ensures err == 0 ==> vaTop == Total(Sections(walk.resources)) * PAGE_SIZE
    ensures err == 0 ==> ROOT in h.s.frame && h.s.frame[ROOT] == img.FrameOf(img.pml4)
    ensures err == 0 ==> h.Inv() && h.kern.failed == old(h.kern.failed)
    ensures err != 0 ==> CannotInit(h.kern.failed, walk.resources, img, h.index.listed)
  {
    hide Host.Inv, Coherent, Done, SelfMapped, RamOrder, Image.PageFrames, Image.FrameOf, Leaf, Run.Good, Ready,
         ImageHeld, Sections, Up;
    ghost var ss := Sections(walk.resources);
    ghost var r;
    KeptFresh(h);
    walk.Restart();
    HeldPlaced(img, h.kern.pinned);
    SectionsApart(walk.resources);
    RamOrderGood(ss);
    err, vaTop, r := Build(h, walk, img, ss);
    if err == 0 {
      RootTable(h);
      err := Reserve(h, img, r);
      if err != 0 {
        NotInRam(walk.resources, h.index.listed, img);
      }
    }
  }

  lemma PinnedPml4(img: Image, pinned: set<nat>)
    requires ImageHeld(img, pinned)
    ensures img.FrameOf(img.pml4) in pinned && img.FrameOf(img.pml4) < PFN_LIMIT
  {
    hide VirtToPhys, VaOf, Image.FrameOf;
    PlacedFrame(img);
    InImage(img, img.pml4 - img.base);
  }

  /** The zeroed tree root, allocator and list. */
  method EmptyIndex() returns (index: Index)
    ensures fresh(index) && fresh(index.Repr)
    ensures index.Valid() && index.facts == NO_FACTS && index.listed == [] && index.pages == {}
  {
    hide Index.Valid, RsvdList.Chain, RsvdList.Packed, MallocState.Sound;
    var root := new Slot[512](i => Null);
    var heap := new MallocState();
    var lrsvd := new RsvdList(RSVD_ITEM_SIZE);
    index := new Index(root, heap, lrsvd);
  }

  /** The module as loaded: zero-initialised state, and the two macros at the start of initialisation
      that set up the allocator and the list. It is what LkmInit starts from. */
  method Load(kern: Kernel, img: Image, resources: seq<Resource>) returns (h: Host, walk: PmapWalk)
    requires kern.Valid() && ImageHeld(img, kern.pinned)
    ensures fresh(h) && h.kern == kern && fresh(walk) && walk.resources == resources && walk !in h.index.Repr
    ensures h.s == PTs(map[ROOT := img.FrameOf(img.pml4)], map[ROOT := ZeroTable()]) && h.arr == map[ROOT := h.pml4]
    ensures h.index.facts == NO_FACTS && fresh(h.pml4) && fresh(h.index) && fresh(h.index.Repr)
    ensures h.Inv()
  {
    hide Index.Valid, Host.Inv, Image.FrameOf, ImageHeld;
    PinnedPml4(img, kern.pinned);
    walk := new PmapWalk(resources);
    var index := EmptyIndex();
    var pml4 := new PageEnt[512](i => ZERO_ENT);
    assert pml4[..] == ZeroTable();
    h := new Host(kern, index, pml4, img.FrameOf(img.pml4));
  }

  // ---- what Ready means ----

  /** A page with a present last-level entry is not under the self-map slot. */
  lemma PresentNotSelf(t: PTs, v: nat)
    requires Coherent(t) && v < VPN_LIMIT && Leaf(t, v).Present()
    ensures Up(v, 3) != SELF_SLOT
  {
    ChildOfTableKey(v, 2);
    ChildOfTableKey(v, 3);
    assert Linked(t, TableKey(v, 1)) && Linked(t, TableKey(v, 2));
  }

  /** On any memory that holds the tables, the hardware sees the direct map and the page after it. */
  lemma ReadyWalk(m: PhysMem, t: PTs, ss: seq<Section>, img: Image, fs: seq<nat>, v: nat)
    requires Ready(t, ss, img, fs) && Backs(m, t) && v <= |RamOrder(ss)|
    ensures HwWalk(m, t.frame[ROOT], v) ==
            if v == |RamOrder(ss)| || RamOrder(ss)[v] in fs then None else Some(Xlat(RamOrder(ss)[v], true, true))
  {
    hide RamOrder, HwStep, Coherent, SelfMapped, Backs, Flat;
    LowHalf(v);
    WalkIsFlat(m, t, v);
  }

  /** And it sees the image where the host had it, its code executable, and the VGA window in it. */
  lemma ReadyImage(m: PhysMem, t: PTs, ss: seq<Section>, img: Image, fs: seq<nat>, v: nat)
    requires Ready(t, ss, img, fs) && Backs(m, t) && IsImage(img, v) && v < VPN_LIMIT
    ensures HwWalk(m, t.frame[ROOT], v) ==
            if IsVga(img, v) then Some(Xlat(VGA_PFN_BASE + (v - img.vga), true, true))
            else Some(Xlat(img.FrameOf(v), true, false))
  {
    hide RamOrder, HwStep, Coherent, SelfMapped, Backs, Leaf, PathWritable, PathNx;
    PresentNotSelf(t, v);
    WalkIsFlat(m, t, v);
  }

  /** Every other page faults, the self-map slot apart. */
  lemma ReadyElsewhere(m: PhysMem, t: PTs, ss: seq<Section>, img: Image, fs: seq<nat>, v: nat)
    requires Ready(t, ss, img, fs) && Backs(m, t) && v < VPN_LIMIT && Up(v, 3) != SELF_SLOT
    requires |RamOrder(ss)| <= v && !IsImage(img, v)
    ensures HwWalk(m, t.frame[ROOT], v) == None
  {
    hide RamOrder, HwStep, Coherent, SelfMapped, Backs, Leaf, PathWritable, PathNx;
    WalkIsFlat(m, t, v);
  }

  /** The words in the tables. A page of RAM has PRESENT, READ_WRITE, CACHE_DISABLE and NX, a reserved one
      the same without PRESENT; a page of the image PRESENT, READ_WRITE and WRITE_THROUGH. */
  lemma ReadyWords(t: PTs, ss: seq<Section>, img: Image, fs: seq<nat>, v: nat)
    requires Ready(t, ss, img, fs) && img.Placed()
    ensures v < |RamOrder(ss)| && RamOrder(ss)[v] < PFN_LIMIT ==>
              Word(Leaf(t, v)) == (if RamOrder(ss)[v] in fs then 0x8000_0000_0000_0012 else 0x8000_0000_0000_0013) +
                                  RamOrder(ss)[v] * 0x1000
    ensures img.vga <= v < img.vga + 8 ==> Word(Leaf(t, v)) == 0x8000_0000_0000_0013 + (0xb8 + (v - img.vga)) * 0x1000
    ensures IsImage(img, v) && !(img.vga <= v < img.vga + 8) ==> Word(Leaf(t, v)) == 0xb + img.FrameOf(v) * 0x1000
    ensures |RamOrder(ss)| <= v && !IsImage(img, v) ==> Word(Leaf(t, v)) == 0
  {
    hide RamOrder, Leaf, Flat, Coherent, SelfMapped, Word, VirtToPhys, Ent;
    ZeroWord(ZERO_ENT);
    if v < |RamOrder(ss)| {
      if RamOrder(ss)[v] < PFN_LIMIT { RamWord(RamOrder(ss)[v]); }
    } else if IsVga(img, v) {
      RamWord(0xb8 + (v - img.vga));
    } else if IsImage(img, v) {
      ImageWord(img.FrameOf(v));
    }
  }

  /** The entry that leads to a table, as a word. */
  lemma ReadyLinkWord(t: PTs, ss: seq<Section>, img: Image, fs: seq<nat>, k: Key)
    requires Ready(t, ss, img, fs) && k in t.frame && k != ROOT
    ensures Word(LinkEnt(t, k)) ==
            (if InCover(k, 0, |RamOrder(ss)|) then 0x8000_0000_0000_0013 else 0xb) + t.frame[k] * 0x1000
  {
    hide RamOrder, LinkEnt, Flat, SelfMapped, Word, InCover, VirtToPhys, Ent;
    FrameSmall(t, k);
    RamWord(t.frame[k]);
    ImageWord(t.frame[k]);
  }

  lemma RamWord(f: nat)
    requires f < PFN_LIMIT
    ensures Word(Ent(f, RAM_REQ.a)) == 0x8000_0000_0000_0013 + f * 0x1000
    ensures Word(Ent(f, RAM_REQ.a).ClearPresent()) == 0x8000_0000_0000_0012 + f * 0x1000
  {
    EntWord(f, RAM_REQ.a);
    ClearPresentWord(Ent(f, RAM_REQ.a));
  }

  lemma ImageWord(f: nat)
    requires f < PFN_LIMIT
    ensures Word(Ent(f, IMAGE_REQ.a)) == 0xb + f * 0x1000
  {
    EntWord(f, IMAGE_REQ.a);
  }

  /** The self-map entry as a word, and what it is for: the hardware finds every table of the module as a
      writable page under slot 0x1f0, and the PML4 itself at page 0xf87c3e1f0. */
  lemma ReadySelfMap(m: PhysMem, t: PTs, ss: seq<Section>, img: Image, fs: seq<nat>)
    requires Ready(t, ss, img, fs) && Backs(m, t)
    ensures Word(Entry(t, ROOT, 0x1f0)) == 0x8000_0000_0000_000b + t.frame[ROOT] * 0x1000
    ensures HwWalk(m, t.frame[ROOT], 0xf_87c3_e1f0) == Some(Xlat(t.frame[ROOT], true, true))
    ensures forall k {:trigger t.frame[k]} | k in t.frame ::
              1 <= k.level <= 4 && HwWalk(m, t.frame[ROOT], SelfPage(k)) == Some(Xlat(t.frame[k], true, true))
  {
    hide RamOrder, LinkEnt, Leaf, Flat, Word, HwWalk, Backs, Coherent, InCover, LeafNow;
    FrameSmall(t, ROOT);
    EntWord(t.frame[ROOT], SELF_ATTR);
    RootPage(m, t);
    forall k | k in t.frame
      ensures 1 <= k.level <= 4 && HwWalk(m, t.frame[ROOT], SelfPage(k)) == Some(Xlat(t.frame[k], true, true))
    {
      TableAsPage(m, t, k);
    }
  }

  lemma ReadyRoot(t: PTs, ss: seq<Section>, img: Image, fs: seq<nat>)
    requires Ready(t, ss, img, fs)
    ensures Coherent(t) && ROOT in t.frame && |RamOrder(ss)| < VPN_HALF
  {}

  /** Self-protection: through the direct map a reserved frame cannot be reached, and every other RAM
      frame can, at exactly one page. */
  lemma OnePageEach(m: PhysMem, t: PTs, ss: seq<Section>, img: Image, fs: seq<nat>, f: nat)
    requires Ready(t, ss, img, fs) && Backs(m, t) && Apart(ss)
    ensures f in fs ==> forall v: nat {:trigger HwWalk(m, t.frame[ROOT], v)} | v <= |RamOrder(ss)| ::
              HwWalk(m, t.frame[ROOT], v).None? || HwWalk(m, t.frame[ROOT], v).value.pfn != f
    ensures f !in fs && IsRamFrame(ss, f) ==> exists v: nat {:trigger HwWalk(m, t.frame[ROOT], v)} ::
              v < |RamOrder(ss)| && HwWalk(m, t.frame[ROOT], v) == Some(Xlat(f, true, true)) &&
              forall u: nat {:trigger HwWalk(m, t.frame[ROOT], u)} | u <= |RamOrder(ss)| && u != v ::
                HwWalk(m, t.frame[ROOT], u).None? || HwWalk(m, t.frame[ROOT], u).value.pfn != f
  {
    hide RamOrder, HwStep, HwWalk, Ready, IsRamFrame, Backs;
    ReadyRoot(t, ss, img, fs);
    var ram, root := RamOrder(ss), t.frame[ROOT];
    forall v: nat | v <= |ram|
      ensures HwWalk(m, root, v) == if v == |ram| || ram[v] in fs then None else Some(Xlat(ram[v], true, true))
    {
      ReadyWalk(m, t, ss, img, fs, v);
    }
    RamOrderDistinct(ss);
    RamOrderHolds(ss, f);
    if f !in fs && f in ram {
      var v :| 0 <= v < |ram| && ram[v] == f;
      assert HwWalk(m, root, v) == Some(Xlat(f, true, true));
    }
  }
}
