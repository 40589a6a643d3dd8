/** The first part of module initialisation: the PML4 maps itself, and three passes over the RAM
    sections map all RAM from address 0 on. */
module RamMap {
  import opened MapDef
  import opened PageTables
  import opened KernelEnv
  import opened PfnIndex
  import opened HostState
  import opened HostWalk
  import opened Mapping
  import opened Blocks
  import opened Order

  const RAM_REQ: Req := Req(Attr({PeReadWrite, PeCacheDisable}, true), RamPage)

  // ---- the self-map ----

  lemma SelfMapCoherent(frame: nat)
    requires frame < PFN_LIMIT
    ensures var s := PTs(map[ROOT := frame], map[ROOT := ZeroTable()]);
            var t := SetEnt(s, ROOT, SELF_SLOT, Ent(frame, SELF_ATTR));
            && Coherent(t) && SelfMapped(t) && t.frame == s.frame
            && forall v: nat {:trigger Leaf(t, v)} :: Leaf(t, v) == ZERO_ENT
  {
    var s := PTs(map[ROOT := frame], map[ROOT := ZeroTable()]);
    var t := SetEnt(s, ROOT, SELF_SLOT, Ent(frame, SELF_ATTR));
    BareCoherent(frame);
    assert ROOT.Child(SELF_SLOT) == SELF_KEY;
    forall k, i: nat | k in t.frame ensures Leads(t, k, i) {
      assert Leads(s, k, i);
      assert k == ROOT && i < 512 && i != SELF_SLOT ==> k.Child(i) != SELF_KEY;
    }
  }

  /** The PML4 gets an entry that points to itself. */
  method MapSelf(h: Host, pfn: nat)
    requires pfn < PFN_LIMIT && h.s == PTs(map[ROOT := pfn], map[ROOT := ZeroTable()])
    requires h.Inv()
    modifies h`s, h.pml4
    ensures h.Inv() && SelfMapped(h.s) && h.s.frame == map[ROOT := pfn]
    ensures h.s == SetEnt(old(h.s), ROOT, SELF_SLOT, Ent(pfn, SELF_ATTR))
    ensures forall v: nat {:trigger Leaf(h.s, v)} :: Leaf(h.s, v) == ZERO_ENT
  {
    hide Index.Valid, Kernel.Valid, Ledger.Known, ListedIn, Coherent, SelfMapped, Leaf;
    SelfMapCoherent(pfn);
    h.SetEntry(h.pml4, SELF_SLOT, InitPageEnt(pfn, SELF_ATTR, LVL_PML4, false), ROOT);
  }

  // ---- the three passes ----

  lemma {:induction false} PrefixShort(level: nat, ss: seq<Section>, i: nat)
    requires i <= |ss|
    ensures |LevelPass(level, ss[..i])| <= |LevelPass(level, ss)|
    decreases |ss|
  {
    if i < |ss| {
      PrefixShort(level, ss[..|ss| - 1], i);
      assert ss[..|ss| - 1][..i] == ss[..i];
    } else {
      assert ss[..i] == ss;
    }
  }

  lemma PrefixStep(level: nat, ss: seq<Section>, i: nat)
    requires i < |ss|
    ensures LevelPass(level, ss[..i + 1]) == LevelPass(level, ss[..i]) + PassFrames(level, ss[i].base, ss[i].limit)
  {
    assert ss[..i + 1][..i] == ss[..i];
  }

  /** The pass resumes at an aligned address in every section. */
  lemma PrefixAligned(level: nat, ss: seq<Section>, i: nat, v0: nat)
    requires 1 <= level <= 3 && i <= |ss| && Apart(ss) && Offset(level, v0) == 0
    ensures Offset(level, v0 + |LevelPass(level, ss[..i])|) == 0
  {
    hide Offset, LevelPass;
    LevelAligned(level, ss[..i]);
    OffsetSum(level, v0, |LevelPass(level, ss[..i])|);
  }

  /** Below the kernel half no page is in the self-map slot. */
  lemma LowHalf(v: nat)
    requires v < VPN_HALF
    ensures Up(v, 3) != SELF_SLOT
  {}

  /** No section is longer than the low half of the address space. */
  ghost predicate Fits(ss: seq<Section>) {
    forall s {:trigger s in ss} :: s in ss ==> s.base <= s.limit && s.limit - s.base < VPN_HALF
  }

  /** The walk yields the sections one by one. */
  method NextSection(walk: PmapWalk, ghost ss: seq<Section>, ghost i: nat) returns (found: bool, sec: Section)
    requires walk.Valid() && i <= |ss| && walk.Rest() == ss[i..]
    modifies walk
    ensures walk.Valid() && (found <==> i < |ss|) && (found ==> sec == ss[i] && walk.Rest() == ss[i + 1..])
  {
    ghost var was := walk.Rest();
    var cursor;
    found, sec, cursor := walk.Next(false);
    if found {
      assert was[0] == sec && was[1..] == walk.Rest();
    }
  }

  /** One pass over all sections. */
  method MapLevel(h: Host, walk: PmapWalk, va0: nat, level: nat, ghost v0: nat, ghost ss: seq<Section>)
      returns (err: int, va: nat)
    requires walk.Valid() && walk.Rest() == ss && walk !in h.index.Repr
    requires va0 == VaOf(v0) && 1 <= level <= 3 && v0 + |LevelPass(level, ss)| < VPN_HALF && Fits(ss)
    requires Apart(ss) && Offset(level, v0) == 0
    requires SelfMapped(h.s)
    requires h.Inv()
    modifies walk, h, h.kern, h.index, h.index.Repr, h.Arrays()
    ensures err == 0 ==> va == VaOf(v0 + |LevelPass(level, ss)|) && walk !in h.index.Repr
    ensures err == 0 ==>
              Done(old(h.s), old(h.index.facts), h.s, h.index.facts,
                   v0, LevelPass(level, ss), |LevelPass(level, ss)|, RAM_REQ)
    ensures err == 0 ==> Keeps(old(h.arr), h.arr) && fresh(h.Arrays() - old(h.Arrays()))
    ensures err == 0 ==> h.Inv() && h.kern.failed == old(h.kern.failed) && fresh(h.index.Repr - old(h.index.Repr))
    ensures err != 0 ==> h.kern.failed
  {
    hide Host.Inv, Coherent, Done, Up, SelfMapped, Keeps, VaOf, LevelPass, PassFrames, PmapWalk.Rest, Offset, Apart;
    ghost var s, f, i := h.s, h.index.facts, 0;
    ghost var fs := LevelPass(level, ss[..0]);
    va := va0;
    RootTable(h);
    LevelNone(level, ss);
    DoneRefl(s, f, v0, 0, RAM_REQ);
    KeepsRefl(h.arr);
    var found: bool, sec: Section;
    found, sec := NextSection(walk, ss, 0);
    while found
      invariant walk.Valid() && walk !in h.index.Repr && i <= |ss| && (found <==> i < |ss|)
      invariant found ==> sec == ss[i] && walk.Rest() == ss[i + 1..]
      invariant fs == LevelPass(level, ss[..i]) && va == VaOf(v0 + |fs|)
      invariant Keeps(old(h.arr), h.arr) && fresh(h.Arrays() - old(h.Arrays()))
      invariant h.Inv() && h.kern.failed == old(h.kern.failed) && fresh(h.index.Repr - old(h.index.Repr))
      invariant Done(s, f, h.s, h.index.facts, v0, fs, |fs|, RAM_REQ)
      decreases |ss| - i
    {
      assert sec in ss;
      PrefixShort(level, ss, i + 1);
      PrefixStep(level, ss, i);
      PrefixAligned(level, ss, i, v0);
      ghost var arr, gs := h.arr, LevelPass(level, ss[..i + 1]);
      err, va := MapSection(h, va, sec, level, v0, fs, gs, s, f);
      if err != 0 {
        return;
      }
      KeepsTrans(old(h.arr), arr, h.arr);
      i, fs := i + 1, gs;
      found, sec := NextSection(walk, ss, i);
    }
    assert ss[..i] == ss;
    err := 0;
  }

  lemma LevelNone(level: nat, ss: seq<Section>)
    ensures LevelPass(level, ss[..0]) == []
  {}

  /** The part of a pass that lies in one section. */
  method MapSection(h: Host, va0: nat, sec: Section, level: nat,
                    ghost v0: nat, ghost fs: seq<nat>, ghost gs: seq<nat>, ghost s: PTs, ghost f: Facts)
      returns (err: int, va: nat)
    requires gs == fs + PassFrames(level, sec.base, sec.limit) && v0 + |gs| < VPN_HALF
    requires va0 == VaOf(v0 + |fs|) && 1 <= level <= 3 && sec.base <= sec.limit && sec.limit - sec.base < VPN_HALF
    requires Offset(level, v0 + |fs|) == 0 && SelfMapped(s) && ROOT in s.frame
    requires Done(s, f, h.s, h.index.facts, v0, fs, |fs|, RAM_REQ)
    requires h.Inv()
    modifies h, h.kern, h.index, h.index.Repr, h.Arrays()
    ensures err == 0 ==> va == VaOf(v0 + |gs|)
    ensures err == 0 ==> Done(s, f, h.s, h.index.facts, v0, gs, |gs|, RAM_REQ)
    ensures err == 0 ==> Keeps(old(h.arr), h.arr) && fresh(h.Arrays() - old(h.Arrays()))
    ensures err == 0 ==> h.Inv() && h.kern.failed == old(h.kern.failed) && fresh(h.index.Repr - old(h.index.Repr))
    ensures err != 0 ==> h.kern.failed
  {
    hide Host.Inv, Coherent, Done, Up, SelfMapped, Keeps, VaOf, PassFrames, Offset;
    ghost var t, g, ps := h.s, h.index.facts, [];
    DoneKeepsRoot(s, f, t, g, v0, fs, |fs|, RAM_REQ);
    err, va, ps := MapUnaligned(h, va0, sec.base, sec.limit, RAM_REQ, level, v0 + |fs|);
    if err == 0 {
      DoneTrans(s, f, t, g, h.s, h.index.facts, v0, fs, |fs|, ps, |ps|, RAM_REQ);
    } else {
      forall v | v0 + |fs| <= v < VPN_HALF ensures Up(v, 3) != SELF_SLOT { LowHalf(v); }
    }
  }

  /** What the passes of the levels above `level` lay out. */
  function Above(level: nat, ss: seq<Section>): seq<nat> {
    if level >= 3 then []
    else if level == 2 then LevelPass(3, ss)
    else if level == 1 then LevelPass(3, ss) + LevelPass(2, ss)
    else RamOrder(ss)
  }

  lemma AboveStep(level: nat, ss: seq<Section>)
    requires 1 <= level <= 3
    ensures Above(level - 1, ss) == Above(level, ss) + LevelPass(level, ss)
  {}

  lemma {:induction false} AboveShort(level: nat, ss: seq<Section>)
    requires level <= 3
    ensures |Above(level, ss)| <= |RamOrder(ss)|
  {}

  /** Every pass begins at an address aligned to its unit. */
  lemma AboveAligned(level: nat, ss: seq<Section>)
    requires 1 <= level <= 3 && Apart(ss)
    ensures Offset(level, |Above(level, ss)|) == 0
  {
    hide Offset, LevelPass;
    NoOffset(level);
    LevelAligned(3, ss);
    LevelAligned(2, ss);
    OffsetCoarser(2, |LevelPass(3, ss)|);
    OffsetSum(2, |LevelPass(3, ss)|, |LevelPass(2, ss)|);
    OffsetCoarser(1, |LevelPass(3, ss)| + |LevelPass(2, ss)|);
  }

  lemma {:induction false} TotalBounds(ss: seq<Section>)
    requires Apart(ss)
    ensures 0 <= Total(ss) && forall s | s in ss :: s.base <= s.limit && s.limit - s.base <= Total(ss)
  {
    if ss != [] {
      var front := ss[..|ss| - 1];
      TotalBounds(front);
      forall s | s in ss ensures s.limit - s.base <= Total(ss) {
        assert s in front || s == ss[|ss| - 1];
      }
    }
  }

  /** The three passes: page v of the low half is mapped to frame RamOrder[v]. */
  method MapRam(h: Host, walk: PmapWalk, ghost ss: seq<Section>) returns (err: int, va: nat)
    requires walk.Valid() && Sections(walk.resources) == ss && walk !in h.index.Repr
    requires Apart(ss) && Total(ss) < VPN_HALF
    requires SelfMapped(h.s)
    requires h.Inv()
    modifies walk, h, h.kern, h.index, h.index.Repr, h.Arrays()
    ensures err == 0 ==> va == VaOf(|RamOrder(ss)|)
    ensures err == 0 ==>
              Done(old(h.s), old(h.index.facts), h.s, h.index.facts, 0, RamOrder(ss), |RamOrder(ss)|, RAM_REQ)
    ensures err == 0 ==> Keeps(old(h.arr), h.arr) && fresh(h.Arrays() - old(h.Arrays()))
    ensures err == 0 ==> h.Inv() && h.kern.failed == old(h.kern.failed) && fresh(h.index.Repr - old(h.index.Repr))
    ensures err != 0 ==> h.kern.failed
  {
    hide Host.Inv, Coherent, Done, Up, SelfMapped, Keeps, VaOf, LevelPass, Sections, RamOrder, Above, Apart,
         Total, Offset;
    ghost var s, f, fs := h.s, h.index.facts, Above(3, ss);
    var level := LVL_PDP;
    va, err := 0, 0;
    RootTable(h);
    NoneAbove(ss);
    RamOrderLength(ss);
    TotalBounds(ss);
    DoneRefl(s, f, 0, 0, RAM_REQ);
    KeepsRefl(h.arr);
    while level >= LVL_PT
      invariant 0 <= level <= 3 && err == 0 && walk !in h.index.Repr
      invariant fs == Above(level, ss) && va == VaOf(|fs|)
      invariant Keeps(old(h.arr), h.arr) && fresh(h.Arrays() - old(h.Arrays()))
      invariant h.Inv() && h.kern.failed == old(h.kern.failed) && fresh(h.index.Repr - old(h.index.Repr))
      invariant Done(s, f, h.s, h.index.facts, 0, fs, |fs|, RAM_REQ)
      decreases level
    {
      AboveStep(level, ss);
      AboveShort(level - 1, ss);
      AboveAligned(level, ss);
      ghost var arr, t, g := h.arr, h.s, h.index.facts;
      DoneKeepsRoot(s, f, t, g, 0, fs, |fs|, RAM_REQ);
      walk.Restart();
      err, va := MapLevel(h, walk, va, level, |fs|, ss);
      if err != 0 {
        return;
      }
      DoneTrans(s, f, t, g, h.s, h.index.facts, 0, fs, |fs|, LevelPass(level, ss), |LevelPass(level, ss)|, RAM_REQ);
      KeepsTrans(old(h.arr), arr, h.arr);
      fs := fs + LevelPass(level, ss);
      level := level - 1;
    }
    AllAbove(ss);
  }

  lemma NoneAbove(ss: seq<Section>)
    ensures Above(3, ss) == [] && VaOf(0) == 0
  {}

  lemma AllAbove(ss: seq<Section>)
    ensures Above(0, ss) == RamOrder(ss)
  {}

  // ---- how many tables ----

  function CeilDiv(n: nat, d: nat): nat
    requires d > 0
  {
    (n + d - 1) / d
  }

  /** The first c tables of a level. */
  function FirstTables(level: nat, c: nat): set<Key> {
    set p | 0 <= p < c :: Key(level, p)
  }

  lemma {:induction false} FirstTablesCount(level: nat, c: nat)
    ensures |FirstTables(level, c)| == c
  {
    if c > 0 {
      FirstTablesCount(level, c - 1);
      assert FirstTables(level, c) == FirstTables(level, c - 1) + {Key(level, c - 1)};
    }
  }

  /** The tables that the first n pages need. */
  lemma CoverIsFirstTables(k: Key, n: nat)
    ensures InCover(k, 0, n) <==>
            k in FirstTables(1, CeilDiv(n, 0x200)) + FirstTables(2, CeilDiv(n, 0x4_0000)) +
                 FirstTables(3, CeilDiv(n, 0x800_0000))
  {
    if n > 0 {
      LastIndex(n);
    }
  }

  lemma LastIndex(n: nat)
    requires n > 0
    ensures CeilDiv(n, 0x200) == (n - 1) / 0x200 + 1
    ensures CeilDiv(n, 0x4_0000) == (n - 1) / 0x4_0000 + 1
    ensures CeilDiv(n, 0x800_0000) == (n - 1) / 0x800_0000 + 1
  {}

  /** Mapping n pages from address 0 on allocates one table for every 512 pages, begun or full, one
      more for every 512 of those, and one more for every 512 of these: none early, none twice. */
  lemma TableCount(s: PTs, t: PTs, fs: seq<nat>, a: Attr)
    requires Coherent(t) && s.frame.Keys == {ROOT} && Mapped(s, t, 0, fs, |fs|, a)
    ensures |t.frame.Keys - {ROOT}| ==
            CeilDiv(|fs|, 0x200) + CeilDiv(|fs|, 0x4_0000) + CeilDiv(|fs|, 0x800_0000)
  {
    hide Mapped, Coherent, InCover, FirstTables, CeilDiv;
    var n := |fs|;
    var n1, n2, n3 := CeilDiv(n, 0x200), CeilDiv(n, 0x4_0000), CeilDiv(n, 0x800_0000);
    forall k ensures k in t.frame.Keys - {ROOT} <==> k in FirstTables(1, n1) + FirstTables(2, n2) + FirstTables(3, n3) {
      TablesAreCover(s, t, fs, a, k);
      CoverIsFirstTables(k, n);
    }
    assert t.frame.Keys - {ROOT} == FirstTables(1, n1) + FirstTables(2, n2) + FirstTables(3, n3);
    FirstTablesCount(1, n1);
    FirstTablesCount(2, n2);
    FirstTablesCount(3, n3);
    LevelsApart(n1, n2, n3);
  }

  lemma TablesAreCover(s: PTs, t: PTs, fs: seq<nat>, a: Attr, k: Key)
    requires s.frame.Keys == {ROOT} && Mapped(s, t, 0, fs, |fs|, a)
    ensures k in t.frame && k != ROOT <==> InCover(k, 0, |fs|)
  {
    if k in t.frame && k !in s.frame {
      assert t.frame[k] == t.frame[k];
    }
  }

  lemma LevelsApart(a: nat, b: nat, c: nat)
    ensures |FirstTables(1, a) + FirstTables(2, b) + FirstTables(3, c)| ==
            |FirstTables(1, a)| + |FirstTables(2, b)| + |FirstTables(3, c)|
  {
    assert FirstTables(1, a) !! FirstTables(2, b);
    assert FirstTables(1, a) + FirstTables(2, b) !! FirstTables(3, c);
  }
}
