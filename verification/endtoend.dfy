/** Initialisation and zero-fill together: all of RAM is zero afterwards except what the wipe itself
    runs on, and that is untouched. */
module EndToEnd {
  import opened MapDef
  import opened PageTables
  import opened PfnIndex
  import opened HostState
  import opened HostWalk
  import opened Order
  import opened ImageMap
  import opened Initialise
  import opened Memory
  import opened Clear
  import opened Words

  /** What the direct map shows of RAM: every frame that is not reserved. */
  function ViewOf(ram: seq<nat>, fs: seq<nat>): (view: View)
    ensures |view| == |ram|
    ensures forall v: nat {:trigger view[v]} | v < |ram| :: view[v] == if ram[v] in fs then None else Some(ram[v])
  {
    seq(|ram|, v requires 0 <= v < |ram| => if ram[v] in fs then None else Some(ram[v]))
  }

  /** A frame shows exactly if it is RAM and not reserved. */
  lemma ShownFrames(ss: seq<Section>, fs: seq<nat>, f: nat)
    ensures Shown(ViewOf(RamOrder(ss), fs), f) <==> IsRamFrame(ss, f) && f !in fs
  {
    hide RamOrder, IsRamFrame;
    var ram := RamOrder(ss);
    RamOrderHolds(ss, f);
    if f in ram && f !in fs {
      var v :| 0 <= v < |ram| && ram[v] == f;
      assert ViewOf(ram, fs)[v] == Some(f);
    }
  }

  /** The tables that initialisation leaves behind suit the fill. */
  lemma ReadyIsWindow(t: PTs, ss: seq<Section>, img: Image, fs: seq<nat>)
    requires Ready(t, ss, img, fs)
    ensures Window(t, ViewOf(RamOrder(ss), fs))
  {
    hide RamOrder, IsRamFrame, Coherent, SelfMapped, Flat, Shown;
    var view := ViewOf(RamOrder(ss), fs);
    forall f | Shown(view, f) ensures f !in t.frame.Values {
      ShownFrames(ss, fs, f);
    }
  }

  /** Physical memory has every RAM frame, a page of 512 words. */
  ghost predicate HoldsRam(m: PhysMem, ss: seq<Section>) {
    forall f: nat {:trigger IsRamFrame(ss, f)} | IsRamFrame(ss, f) :: f in m && |m[f]| == 512
  }

  /** 4096 zero bytes. */
  ghost predicate ZeroFrame(page: seq<PageEnt>) {
    |page| == 512 && forall i {:trigger page[i]} | 0 <= i < 512 :: Word(page[i]) == 0
  }

  /** A fully swept frame is a zero page. */
  lemma SweptFrame(m0: PhysMem, m: PhysMem, view: View, f: nat)
    requires Swept(m0, m, view, |view| * PAGE_SIZE) && Shown(view, f) && f in m0 && |m0[f]| == 512
    ensures f in m && ZeroFrame(m[f])
  {
    var v: nat :| v < |view| && view[v] == Some(f);
    assert |m[f]| == |m0[f]|;
    forall i | 0 <= i < 512 ensures Word(m[f][i]) == 0 {
      assert Below(v, i, |view| * PAGE_SIZE);
      ZeroWord(m[f][i]);
    }
  }

  /** The fill after a successful initialisation, on any memory that holds the tables: every frame of
      every RAM section that holds neither a table nor a page of the image is all zero, and every other
      frame is as it was. */
  method ClearAfterInit(cpu: Cpu, ghost t: PTs, ghost ss: seq<Section>, ghost img: Image, ghost fs: seq<nat>)
      returns (status: int)
    requires Ready(t, ss, img, fs) && Backs(cpu.mem, t) && HoldsRam(cpu.mem, ss) && Apart(ss)
    requires cpu.root == t.frame[ROOT] && cpu.vaTop == Total(ss) * PAGE_SIZE && !cpu.clearing
    requires cpu.fill + |STOSQ| < VA_LIMIT
    modifies cpu
    ensures cpu.mem.Keys == old(cpu.mem).Keys
    ensures forall f: nat {:trigger cpu.mem[f]} {:trigger IsRamFrame(ss, f)} | IsRamFrame(ss, f) && f !in fs ::
              f in cpu.mem && ZeroFrame(cpu.mem[f])
    ensures forall f: nat {:trigger cpu.mem[f]} | f in cpu.mem && (f in fs || !IsRamFrame(ss, f)) ::
              cpu.mem[f] == old(cpu.mem)[f]
    ensures status == -1
  {
    hide RamOrder, IsRamFrame, Ready, Window, Shown, Swept, Total, Backs, ZeroFrame;
    ghost var view := ViewOf(RamOrder(ss), fs);
    ReadyRoot(t, ss, img, fs);
    ReadyIsWindow(t, ss, img, fs);
    RamOrderLength(ss);
    status := cpu.ClearAndReset(t, view);
    forall f: nat | IsRamFrame(ss, f) && f !in fs ensures f in cpu.mem && ZeroFrame(cpu.mem[f]) {
      ShownFrames(ss, fs, f);
      SweptFrame(old(cpu.mem), cpu.mem, view, f);
    }
    SweptKeys(old(cpu.mem), cpu.mem, view, cpu.vaTop);
    forall f: nat | f in cpu.mem && (f in fs || !IsRamFrame(ss, f)) ensures cpu.mem[f] == old(cpu.mem)[f] {
      ShownFrames(ss, fs, f);
      SweptOther(old(cpu.mem), cpu.mem, view, cpu.vaTop, f);
    }
  }

  lemma SweptKeys(m0: PhysMem, m: PhysMem, view: View, end: nat)
    requires Swept(m0, m, view, end)
    ensures m.Keys == m0.Keys
  {}

  lemma SweptOther(m0: PhysMem, m: PhysMem, view: View, end: nat, f: nat)
    requires Swept(m0, m, view, end) && !Shown(view, f) && f in m
    ensures f in m0 && m[f] == m0[f]
  {}

  /** Memory that holds RAM still does with the tables in it. */
  lemma TablesKeepRam(m: PhysMem, phys: PhysMem, t: PTs, ss: seq<Section>)
    requires Coherent(t) && Backs(phys, t) && OthersKept(m, phys, t) && HoldsRam(m, ss)
    ensures HoldsRam(phys, ss)
  {
    hide IsRamFrame;
    forall f: nat | IsRamFrame(ss, f) ensures f in phys && |phys[f]| == 512 {
      if f in t.frame.Values {
        var k :| k in t.frame && t.frame[k] == f;
        FrameSmall(t, k);
        assert phys[t.frame[k]] == t.tab[k];
      } else {
        assert f in m && phys[f] == m[f];
      }
    }
  }

  /** The whole of it: initialise, then fill. `m` is physical memory before the tables are in it,
      `phys` with them, and `mem` after the fill. The reserved frames, those of the listed tables and of
      the image, are as they were before the fill; so is all that is not RAM; all other RAM is zero. The
      exception that follows the fill is not taken for a fault of it. */
  method InitThenClear(h: Host, walk: PmapWalk, img: Image, m: PhysMem, fill: nat)
      returns (err: int, phys: PhysMem, mem: PhysMem, status: int)
    requires walk !in h.index.Repr && Ordered(walk.resources) && RamFits(Sections(walk.resources))
    requires ImageHeld(img, h.kern.pinned)
    requires forall f: nat {:trigger InRam(walk.resources, f)} | InRam(walk.resources, f) :: f in m && |m[f]| == 512
    requires fill + |STOSQ| < VA_LIMIT
    requires h.s == PTs(map[ROOT := img.FrameOf(img.pml4)], map[ROOT := ZeroTable()]) && h.arr == map[ROOT := h.pml4]
    requires h.index.facts == NO_FACTS
    requires h.Inv()
    modifies walk, h, h.kern, h.index, h.index.Repr, h.pml4
    ensures err == 0 ==> Backs(phys, h.s) && OthersKept(m, phys, h.s) && mem.Keys == phys.Keys
    ensures err == 0 ==> forall f: nat {:trigger mem[f]} | InRam(walk.resources, f) &&
                           f !in h.index.listed + img.PageFrames(img.npages) :: f in mem && ZeroFrame(mem[f])
    ensures err == 0 ==> forall f: nat {:trigger mem[f]} | f in mem &&
                           (f in h.index.listed + img.PageFrames(img.npages) ||
                            !InRam(walk.resources, f)) :: mem[f] == phys[f]
    ensures err == 0 ==> status == -1
    ensures err != 0 ==> CannotInit(h.kern.failed, walk.resources, img, h.index.listed)
  {
    hide Host.Inv, RamOrder, IsRamFrame, Ready, Sections, Total, Backs, OthersKept, HoldsRam, Coherent, CannotInit,
         InRam, ZeroFrame, Image.FrameOf, Image.PageFrames, ImageHeld, RamFits;
    ghost var ss := Sections(walk.resources);
    var vaTop: nat;
    phys, mem, status := m, m, 0;
    RamOfList(walk.resources);
    RamHeld(m, walk.resources);
    err, vaTop := LkmInit(h, walk, img);
    if err != 0 {
      return;
    }
    ghost var fs := h.index.listed + img.PageFrames(img.npages);
    SectionsApart(walk.resources);
    ReadyRoot(h.s, ss, img, fs);
    HeldPlaced(img, h.kern.pinned);
    PlacedFrame(img);
    var frame := VirtToPhys(img.host, img.hostRoot, VaOf(img.pml4));
    phys := TablesInMemory(h, m, frame);
    TablesKeepRam(m, phys, h.s, ss);
    var cpu := new Cpu(frame, vaTop, fill, phys);
    status := ClearAfterInit(cpu, h.s, ss, img, fs);
    mem := cpu.mem;
  }

  lemma RamHeld(m: PhysMem, rs: seq<Resource>)
    requires Ordered(rs) && forall f: nat {:trigger InRam(rs, f)} | InRam(rs, f) :: f in m && |m[f]| == 512
    ensures HoldsRam(m, Sections(rs))
  {
    hide IsRamFrame, InRam;
    RamOfList(rs);
  }

  lemma RamOfList(rs: seq<Resource>)
    requires Ordered(rs)
    ensures forall f: nat {:trigger InRam(rs, f)} {:trigger IsRamFrame(Sections(rs), f)} ::
              IsRamFrame(Sections(rs), f) <==> InRam(rs, f)
  {
    hide IsRamFrame, InRam;
    forall f: nat ensures IsRamFrame(Sections(rs), f) <==> InRam(rs, f) {
      RamFrameIs(rs, f);
    }
  }
}
