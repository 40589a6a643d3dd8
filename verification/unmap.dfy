/** Taking reserved frames out of the RAM mapping: the last-level entry of each loses PRESENT. */
module Unmap {
  import opened MapDef
  import opened PageTables
  import opened Alloc
  import opened PfnIndex
  import opened HostState
  import opened HostWalk
  import opened Mapping
  import opened ImageMap

  /** `t` is `s` with PRESENT cleared in the entries of the given pages, and nothing else changed. */
  ghost predicate Cleared(s: PTs, t: PTs, pages: seq<nat>) {
    && t.frame == s.frame && t.tab.Keys == s.tab.Keys
    && Entry(t, ROOT, SELF_SLOT) == Entry(s, ROOT, SELF_SLOT)
    && (forall k {:trigger LinkEnt(t, k)} {:trigger LinkEnt(s, k)} | k in s.frame && k != ROOT ::
          LinkEnt(t, k) == LinkEnt(s, k))
    && (forall v: nat {:trigger Leaf(t, v)} ::
          Leaf(t, v) == if v in pages then Leaf(s, v).ClearPresent() else Leaf(s, v))
  }

  lemma ClearedNone(s: PTs)
    ensures Cleared(s, s, [])
  {}

  lemma ClearedOne(s: PTs, t: PTs, u: PTs, pages: seq<nat>, v: nat)
    requires Coherent(t) && Cleared(s, t, pages) && v < VPN_LIMIT && TableKey(v, 1) in t.frame
    requires TableKey(v, 1) in t.tab && |t.tab[TableKey(v, 1)]| == 512
    requires u == SetEnt(t, TableKey(v, 1), v % 512, Leaf(t, v).ClearPresent())
    ensures Cleared(s, u, pages + [v])
  {
    var k1 := TableKey(v, 1);
    forall w: nat ensures Leaf(u, w) == if w in pages + [v] then Leaf(s, w).ClearPresent() else Leaf(s, w) {
      assert Leaf(t, w) == if w in pages then Leaf(s, w).ClearPresent() else Leaf(s, w);
      if w != v && TableKey(w, 1) == k1 {
        assert w % 512 != v % 512;
      }
    }
    forall k | k in s.frame && k != ROOT ensures LinkEnt(u, k) == LinkEnt(s, k) {
      assert t.frame[k] < PFN_LIMIT;
      assert LinkEnt(t, k) == LinkEnt(s, k);
    }
  }

  /** Every address noted for a RAM frame is that of a page with a last-level table. */
  ghost predicate RamMapped(s: PTs, ram: map<nat, nat>) {
    forall f {:trigger ram[f]} | f in ram ::
      exists v: nat :: v < VPN_LIMIT && ram[f] == VaOf(v) && TableKey(v, 1) in s.frame
  }

  lemma PathPresent(s: PTs, v: nat, level: nat)
    requires Coherent(s) && v < VPN_LIMIT && TableKey(v, 1) in s.frame && 2 <= level <= 4
    ensures TableKey(v, level) in s.frame && TableKey(v, level - 1) in s.frame
    ensures TableKey(v, level - 1) != SELF_KEY && Entry(s, TableKey(v, level), Up(v, level - 1) % 512).Present()
  {
    ChildOfTableKey(v, 4);
    ChildOfTableKey(v, 3);
    ChildOfTableKey(v, 2);
    assert Linked(s, TableKey(v, 1));
    assert Linked(s, TableKey(v, 2));
    assert Linked(s, TableKey(v, 3));
  }

  /** Walk to the last-level table on the path of a page and clear PRESENT in its entry there. */
  method ClearPage(h: Host, va: nat, ghost v: nat) returns (err: int)
    requires v < VPN_LIMIT && va == VaOf(v) && TableKey(v, 1) in h.s.frame
    requires h.Inv()
    modifies h`s, h.Arrays()
    ensures err == 0 && h.Inv()
    ensures h.s == SetEnt(old(h.s), TableKey(v, 1), v % 512, Leaf(old(h.s), v).ClearPresent())
  {
    hide Host.Inv, Coherent, VaOf, PeIdx, TableKey, Up, Entry, SetEnt, Key.Child, Key.Parent;
    var level, pt := LVL_PML4, h.pml4;
    err := 0;
    RootTable(h);
    TopKey(v);
    while level > LVL_PT
      invariant 1 <= level <= 4 && err == 0 && h.Inv() && h.s == old(h.s) && h.arr == old(h.arr)
      invariant TableKey(v, level) in h.arr && h.arr[TableKey(v, level)] == pt
    {
      var ptIdx := PeIdx(va, level);
      OneLevelDown(v, level);
      h.TableAt(TableKey(v, level), ptIdx);
      PathPresent(h.s, v, level);
      err, pt := h.GetTable(pt[ptIdx], TableKey(v, level), ptIdx);
      if err < 0 {
        return;
      }
      level := level - 1;
    }
    PtIdx(v);
    h.TableAt(TableKey(v, 1), PeIdx(va, LVL_PT));
    InArrays(h, TableKey(v, 1));
    h.SetLeaf(pt, PeIdx(va, LVL_PT), pt[PeIdx(va, LVL_PT)].ClearPresent(), v);
  }

  lemma TopKey(v: nat)
    requires v < VPN_LIMIT
    ensures TableKey(v, 4) == ROOT
  {}

  /** One reserved frame: find where RAM is mapped to it, and unmap that page. */
  method UnmapFrame(h: Host, pfn: nat) returns (err: int, ghost v: nat)
    requires pfn < PFN_LIMIT && RamMapped(h.s, h.index.facts.ram)
    requires h.Inv()
    modifies h`s, h.Arrays()
    ensures err == 0 <==> pfn in h.index.facts.ram
    ensures err == 0 ==> v < VPN_LIMIT && h.index.facts.ram[pfn] == VaOf(v) && TableKey(v, 1) in old(h.s).frame
    ensures err == 0 ==> h.Inv() && h.s == SetEnt(old(h.s), TableKey(v, 1), v % 512, Leaf(old(h.s), v).ClearPresent())
  {
    hide Host.Inv, Coherent, VaOf, TableKey, SetEnt, Leaf, Index.Valid;
    v := 0;
    IndexValid(h);
    var va: nat;
    err, va := h.index.Xlate(RamPage, pfn);
    if err < 0 {
      return;
    }
    v :| v < VPN_LIMIT && va == VaOf(v) && TableKey(v, 1) in h.s.frame;
    err := ClearPage(h, va, v);
  }

  lemma IndexValid(h: Host)
    requires h.Inv()
    ensures h.index.Valid()
  {}

  /** The pages found for a run of frames: page i is where RAM is mapped to frame i. */
  ghost predicate PagesOf(ram: map<nat, nat>, fs: seq<nat>, pages: seq<nat>) {
    |fs| == |pages| && forall i {:trigger fs[i]} {:trigger pages[i]} | 0 <= i < |fs| ::
      fs[i] in ram && pages[i] < VPN_LIMIT && ram[fs[i]] == VaOf(pages[i])
  }

  lemma PagesOfMore(ram: map<nat, nat>, fs: seq<nat>, pages: seq<nat>, f: nat, v: nat)
    requires PagesOf(ram, fs, pages) && f in ram && v < VPN_LIMIT && ram[f] == VaOf(v)
    ensures PagesOf(ram, fs + [f], pages + [v])
  {}

  lemma RamMappedCleared(s: PTs, t: PTs, pages: seq<nat>, ram: map<nat, nat>)
    requires Cleared(s, t, pages) && RamMapped(s, ram)
    ensures RamMapped(t, ram)
  {}

  /** Unmap one more frame. */
  method UnmapNext(h: Host, pfn: nat, ghost s: PTs, ghost fs: seq<nat>, ghost pages: seq<nat>)
      returns (err: int, ghost v: nat)
    requires pfn < PFN_LIMIT && RamMapped(s, h.index.facts.ram)
    requires Cleared(s, h.s, pages) && PagesOf(h.index.facts.ram, fs, pages)
    requires h.Inv()
    modifies h`s, h.Arrays()
    ensures err == 0 <==> pfn in h.index.facts.ram
    ensures err == 0 ==> Cleared(s, h.s, pages + [v]) && PagesOf(h.index.facts.ram, fs + [pfn], pages + [v])
    ensures err == 0 ==> h.Inv()
  {
    hide Host.Inv, Coherent, VaOf, TableKey, SetEnt, Leaf, Cleared, PagesOf, RamMapped;
    ghost var t := h.s;
    InvCoherent(h);
    RamMappedCleared(s, t, pages, h.index.facts.ram);
    err, v := UnmapFrame(h, pfn);
    if err == 0 {
      LeafTable(t, v);
      ClearedOne(s, t, h.s, pages, v);
      PagesOfMore(h.index.facts.ram, fs, pages, pfn, v);
    }
  }

  lemma LeafTable(s: PTs, v: nat)
    requires Coherent(s) && TableKey(v, 1) in s.frame
    ensures TableKey(v, 1) in s.tab && |s.tab[TableKey(v, 1)]| == 512
  {
    FrameSmall(s, TableKey(v, 1));
  }

  lemma InvCoherent(h: Host)
    requires h.Inv()
    ensures Coherent(h.s)
  {}

  lemma ListOf(h: Host)
    requires h.Inv()
    ensures h.index.lrsvd.Chain() && h.index.listed == h.index.lrsvd.pfns
  {}

  lemma ListedSmall(h: Host, i: nat)
    requires h.Inv() && i < |h.index.listed|
    ensures h.index.listed[i] < PFN_LIMIT
  {
    FrameSmall(h.s, h.order[i]);
  }

  /** The loop over the list of reserved frames: every page table is unmapped. */
  method UnmapListed(h: Host) returns (err: int, ghost pages: seq<nat>)
    requires RamMapped(h.s, h.index.facts.ram)
    requires h.Inv()
    modifies h`s, h.Arrays()
    ensures err == 0 ==> h.Inv() && Cleared(old(h.s), h.s, pages) && PagesOf(h.index.facts.ram, h.index.listed, pages)
    ensures err != 0 ==> exists f :: f in h.index.listed && f !in h.index.facts.ram
  {
    hide Host.Inv, Coherent, Cleared, PagesOf, RamMapped, RsvdList.Chain;
    ghost var s, i, fs := h.s, 0, h.index.listed;
    pages, err := [], 0;
    ClearedNone(s);
    ListOf(h);
    ChainHead(h.index.lrsvd);
    var litem := h.index.lrsvd.head;
    PagesOfNone(h.index.facts.ram);
    while litem != null
      invariant err == 0 && h.Inv() && i <= |fs| && h.index.lrsvd.Chain()
      invariant |h.index.lrsvd.items| == |fs| && litem == if i < |fs| then h.index.lrsvd.items[i] else null
      invariant Cleared(s, h.s, pages) && PagesOf(h.index.facts.ram, fs[..i], pages)
      decreases |fs| - i
    {
      ChainAt(h.index.lrsvd, i);
      ListedSmall(h, i);
      ghost var v;
      err, v := UnmapNext(h, litem.pfn, s, fs[..i], pages);
      if err != 0 {
        assert fs[i] in fs;
        return;
      }
      ListOf(h);
      assert fs[..i + 1] == fs[..i] + [fs[i]];
      pages, i := pages + [v], i + 1;
      litem := litem.next;
    }
    assert fs[..i] == fs;
  }

  lemma PagesOfNone(ram: map<nat, nat>)
    ensures PagesOf(ram, [], [])
  {}

  lemma ChainHead(l: RsvdList)
    requires l.Chain()
    ensures |l.items| == |l.pfns| && l.head == if l.items == [] then null else l.items[0]
  {}

  lemma ChainAt(l: RsvdList, i: nat)
    requires l.Chain() && i < |l.items|
    ensures |l.items| == |l.pfns| && l.items[i].pfn == l.pfns[i]
    ensures l.items[i].next == if i + 1 < |l.items| then l.items[i + 1] else null
  {}

  /** The loop over the image: every image page is unmapped where RAM is mapped to its frame. */
  method UnmapImage(h: Host, img: Image) returns (err: int, ghost pages: seq<nat>)
    requires RamMapped(h.s, h.index.facts.ram) && img.Placed()
    requires h.Inv()
    modifies h`s, h.Arrays()
    ensures err == 0 ==>
              h.Inv() && Cleared(old(h.s), h.s, pages) && PagesOf(h.index.facts.ram, img.PageFrames(img.npages), pages)
    ensures err != 0 ==> exists f :: f in img.PageFrames(img.npages) && f !in h.index.facts.ram
  {
    hide Host.Inv, Coherent, Cleared, PagesOf, RamMapped, Image.PageFrames, VirtToPhys, VaOf;
    ghost var s := h.s;
    pages, err := [], 0;
    ClearedNone(s);
    ImageNone(img);
    PagesOfNone(h.index.facts.ram);
    var npage := 0;
    while npage < img.npages
      invariant err == 0 && h.Inv() && npage <= img.npages
      invariant Cleared(s, h.s, pages) && PagesOf(h.index.facts.ram, img.PageFrames(npage), pages)
    {
      var pfn := VirtToPhys(img.host, img.hostRoot, VaOf(img.base + npage));
      assert pfn == img.FrameOf(img.base + npage);
      ghost var v;
      err, v := UnmapNext(h, pfn, s, img.PageFrames(npage), pages);
      if err != 0 {
        InImage(img, npage);
        return;
      }
      ImageMore(img, npage);
      pages := pages + [v];
      npage := npage + 1;
    }
  }

  lemma ImageMore(img: Image, n: nat)
    ensures img.PageFrames(n + 1) == img.PageFrames(n) + [img.FrameOf(img.base + n)]
  {}

  lemma InImage(img: Image, n: nat)
    requires n < img.npages
    ensures img.FrameOf(img.base + n) in img.PageFrames(img.npages)
  {
    assert img.PageFrames(img.npages)[n] == img.FrameOf(img.base + n);
  }
}
