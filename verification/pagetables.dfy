/** The page tables as values: a hardware walk over physical memory, the flat picture of the
    table tree the proofs use, and the relation "these pages have been mapped". */
module PageTables {
  import opened MapDef

  /** A table is known by its level and by the page-number prefix it translates. */
  datatype Key = Key(level: nat, prefix: nat)
  {
    function Parent(): Key { Key(level + 1, prefix / 512) }
    function Child(i: nat): Key requires level > 0 { Key(level - 1, prefix * 512 + i) }
  }

  lemma ChildParent(k: Key, i: nat)
    requires k.level >= 1 && i < 512
    ensures k.Child(i).Parent() == k && k.Child(i).prefix % 512 == i
  {}

  const ROOT: Key := Key(LVL_PML4, 0)
  const SELF_KEY: Key := Key(LVL_PDP, SELF_SLOT)

  /** The frame of every table and its 512 entries. */
  datatype PTs = PTs(frame: map<Key, nat>, tab: map<Key, seq<PageEnt>>)

  type PhysMem = map<nat, seq<PageEnt>>

  // ---- what the hardware does ----

  /** Frame, write permission and NX of a translation; the latter two gathered from all levels. */
  datatype Xlat = Xlat(pfn: nat, writable: bool, nx: bool)

  /** Frame of page v under a 2M or 1G entry: the field starts 9 or 18 bits further up. */
  function LargePfn(e: PageEnt, v: nat, level: nat): nat {
    if level == LVL_PD then e.pfn / 0x200 * 0x200 + v % 0x200 else e.pfn / 0x4_0000 * 0x4_0000 + v % 0x4_0000
  }

  /** Walk from the table in frame `t` at the given level. None is a page fault. */
  function HwStep(m: PhysMem, t: nat, v: nat, level: nat, w: bool, nx: bool): Option<Xlat>
    requires level <= 4
    decreases level
  {
    if level == 0 || t !in m || |m[t]| != 512 then None
    else
      var e := m[t][Up(v, level - 1) % 512];
      if !e.Present() then None
      else if level == LVL_PT then Some(Xlat(e.pfn, w && e.Writable(), nx || e.nx))
      else if level < LVL_PML4 && e.Large() then
        Some(Xlat(LargePfn(e, v, level), w && e.Writable(), nx || e.nx))
      else HwStep(m, e.pfn, v, level - 1, w && e.Writable(), nx || e.nx)
  }

  /** Translation of page `v` under the PML4 in frame `root`. */
  function HwWalk(m: PhysMem, root: nat, v: nat): Option<Xlat> {
    HwStep(m, root, v, LVL_PML4, true, false)
  }

  // ---- the flat picture ----

  function TableKey(v: nat, level: nat): Key { Key(level, Up(v, level)) }

  function Entry(s: PTs, k: Key, i: nat): PageEnt {
    if k in s.tab && i < |s.tab[k]| then s.tab[k][i] else ZERO_ENT
  }

  /** Last-level entry of a page; the zero entry where there is no table. */
  function Leaf(s: PTs, v: nat): PageEnt { Entry(s, TableKey(v, 1), v % 512) }

  /** The entry that points to table `k`. */
  function LinkEnt(s: PTs, k: Key): PageEnt { Entry(s, k.Parent(), k.prefix % 512) }

  predicate GoodLink(e: PageEnt, frame: nat) {
    e.Present() && !e.Large() && e.pfn == frame
  }

  ghost predicate IsKey(k: Key) { 1 <= k.level <= 4 && (k.level == 4 ==> k.prefix == 0) }

  /** The parent table of `k` exists and points to it. */
  ghost predicate Linked(s: PTs, k: Key) {
    k in s.frame && k.Parent() in s.frame && GoodLink(LinkEnt(s, k), s.frame[k])
  }

  /** Entry i of table `k` leads, if present, to a table. The self-map slot is the exception. */
  ghost predicate Leads(s: PTs, k: Key, i: nat) {
    k.level >= 2 && i < 512 && k.Child(i) != SELF_KEY && Entry(s, k, i).Present() ==> k.Child(i) in s.frame
  }

  /** The tables form a tree below the PML4 (the self-map slot apart): each has its own frame,
      is pointed to by its parent, and every present non-leaf entry leads to a table. */
  ghost predicate Coherent(s: PTs) {
    && ROOT in s.frame && s.tab.Keys == s.frame.Keys
    && SELF_KEY !in s.frame
    && (forall k {:trigger s.frame[k]} {:trigger s.tab[k]} | k in s.frame ::
          IsKey(k) && |s.tab[k]| == 512 && s.frame[k] < PFN_LIMIT)
    && (forall k, k' {:trigger s.frame[k], s.frame[k']} |
          k in s.frame && k' in s.frame && s.frame[k] == s.frame[k'] :: k == k')
    && (forall k {:trigger Linked(s, k)} | k in s.frame && k != ROOT :: Linked(s, k))
    && (forall k, i: nat {:trigger Leads(s, k, i)} | k in s.frame :: Leads(s, k, i))
  }

  /** Slot 0x1f0 of the PML4 points to the PML4. */
  ghost predicate SelfMapped(s: PTs) {
    ROOT in s.frame && Entry(s, ROOT, SELF_SLOT) == Ent(s.frame[ROOT], SELF_ATTR)
  }

  /** Physical memory holds the tables. */
  ghost predicate Backs(m: PhysMem, s: PTs) {
    forall k | k in s.frame :: s.frame[k] in m && k in s.tab && m[s.frame[k]] == s.tab[k]
  }

  function PathWritable(s: PTs, v: nat): bool {
    LinkEnt(s, TableKey(v, 3)).Writable() && LinkEnt(s, TableKey(v, 2)).Writable() &&
    LinkEnt(s, TableKey(v, 1)).Writable() && Leaf(s, v).Writable()
  }

  function PathNx(s: PTs, v: nat): bool {
    LinkEnt(s, TableKey(v, 3)).nx || LinkEnt(s, TableKey(v, 2)).nx ||
    LinkEnt(s, TableKey(v, 1)).nx || Leaf(s, v).nx
  }

  /** Translation read off the flat picture. */
  function Flat(s: PTs, v: nat): Option<Xlat> {
    if Leaf(s, v).Present() then Some(Xlat(Leaf(s, v).pfn, PathWritable(s, v), PathNx(s, v))) else None
  }

  lemma ChildOfTableKey(v: nat, level: nat)
    requires v < VPN_LIMIT && 2 <= level <= 4
    ensures TableKey(v, level).Child(Up(v, level - 1) % 512) == TableKey(v, level - 1)
    ensures TableKey(v, level - 1).Parent() == TableKey(v, level)
    ensures TableKey(v, level - 1).prefix % 512 == Up(v, level - 1) % 512
    ensures level == 4 ==> TableKey(v, level) == ROOT
  {
    UpStep(v, level - 1);
  }

  lemma FrameSmall(s: PTs, k: Key)
    requires Coherent(s) && k in s.frame
    ensures s.frame[k] < PFN_LIMIT && k in s.tab && |s.tab[k]| == 512
  {}

  lemma SelfEnt(s: PTs)
    requires Coherent(s) && SelfMapped(s)
    ensures ROOT in s.frame
    ensures var e := Entry(s, ROOT, 0x1f0);
            e.Present() && !e.Large() && e.pfn == s.frame[ROOT] && e.Writable() && e.nx
  {
    FrameSmall(s, ROOT);
  }

  /** A present non-leaf entry, the self-map slot apart, holds the frame of the table it leads to. */
  lemma EntryLeads(s: PTs, k: Key, i: nat)
    requires Coherent(s) && k in s.frame && k.level >= 2 && i < 512
    requires k.Child(i) != SELF_KEY && Entry(s, k, i).Present()
    ensures k.Child(i) in s.frame && k.Child(i) != ROOT && Entry(s, k, i).pfn == s.frame[k.Child(i)]
  {
    ChildParent(k, i);
    assert Leads(s, k, i);
    assert Linked(s, k.Child(i));
  }

  /** One level of the hardware walk, in terms of keys. */
  lemma HwDescends(m: PhysMem, s: PTs, v: nat, level: nat, w: bool, nx: bool)
    requires Coherent(s) && Backs(m, s) && v < VPN_LIMIT && Up(v, 3) != SELF_SLOT
    requires 2 <= level <= 4 && TableKey(v, level) in s.frame
    ensures var k := TableKey(v, level - 1);
            HwStep(m, s.frame[TableKey(v, level)], v, level, w, nx) ==
            if k in s.frame
            then HwStep(m, s.frame[k], v, level - 1, w && LinkEnt(s, k).Writable(), nx || LinkEnt(s, k).nx)
            else None
  {
    ChildOfTableKey(v, level);
    var k, up := TableKey(v, level - 1), TableKey(v, level);
    assert Entry(s, up, Up(v, level - 1) % 512) == LinkEnt(s, k) == m[s.frame[up]][Up(v, level - 1) % 512];
    if k in s.frame {
      assert Linked(s, k);
    } else {
      assert Leads(s, up, Up(v, level - 1) % 512);
    }
  }

  /** Outside the self-map slot the hardware walk reads exactly the flat picture. */
  lemma WalkIsFlat(m: PhysMem, s: PTs, v: nat)
    requires Coherent(s) && Backs(m, s) && v < VPN_LIMIT && Up(v, 3) != SELF_SLOT
    ensures HwWalk(m, s.frame[ROOT], v) == Flat(s, v)
  {
    var k3, k2, k1 := TableKey(v, 3), TableKey(v, 2), TableKey(v, 1);
    ChildOfTableKey(v, 4);
    ChildOfTableKey(v, 3);
    ChildOfTableKey(v, 2);
    HwDescends(m, s, v, 4, true, false);
    if k3 in s.frame {
      var w3, x3 := LinkEnt(s, k3).Writable(), LinkEnt(s, k3).nx;
      HwDescends(m, s, v, 3, w3, x3);
      if k2 in s.frame {
        HwDescends(m, s, v, 2, w3 && LinkEnt(s, k2).Writable(), x3 || LinkEnt(s, k2).nx);
      }
    }
    if k1 in s.frame {
      assert Linked(s, k1) && Linked(s, k2);
      assert m[s.frame[k1]][v % 512] == Leaf(s, v);
    }
  }

  // ---- the two ways the tables change ----

  function SetEnt(s: PTs, k: Key, i: nat, e: PageEnt): PTs
    requires k in s.tab && i < |s.tab[k]|
  {
    s.(tab := s.tab[k := s.tab[k][i := e]])
  }

  /** A zeroed table appears in frame `f` and its parent's entry points to it. */
  function AddTable(s: PTs, k: Key, f: nat, e: PageEnt): PTs
    requires k.Parent() in s.tab && k.prefix % 512 < |s.tab[k.Parent()]|
  {
    PTs(s.frame[k := f], SetEnt(s, k.Parent(), k.prefix % 512, e).tab[k := ZeroTable()])
  }

  lemma SetLeafCoherent(s: PTs, v: nat, e: PageEnt)
    requires Coherent(s) && TableKey(v, 1) in s.frame
    ensures Coherent(SetEnt(s, TableKey(v, 1), v % 512, e))
  {
    var k1 := TableKey(v, 1);
    var t := SetEnt(s, k1, v % 512, e);
    forall k | k in s.frame && k != ROOT ensures Linked(t, k) {
      assert Linked(s, k);
      assert s.frame[k] < PFN_LIMIT;
    }
    forall k, i: nat | k in s.frame ensures Leads(t, k, i) {
      assert Leads(s, k, i);
    }
  }

  lemma AddTableEntry(s: PTs, k: Key, f: nat, e: PageEnt, q: Key, i: nat)
    requires Coherent(s) && k.Parent() in s.frame && k !in s.frame
    ensures Entry(AddTable(s, k, f, e), q, i) ==
            if q == k then ZERO_ENT
            else if q == k.Parent() && i == k.prefix % 512 then e
            else Entry(s, q, i)
  {}

  lemma AddTableLinked(s: PTs, k: Key, f: nat, a: Attr, q: Key)
    requires Coherent(s) && k.Parent() in s.frame && k !in s.frame && IsKey(k)
    requires f < PFN_LIMIT && PePageSize !in a.extra
    requires q != ROOT && (q in s.frame || q == k)
    ensures Linked(AddTable(s, k, f, Ent(f, a)), q)
  {
    AddTableEntry(s, k, f, Ent(f, a), q.Parent(), q.prefix % 512);
    if q != k {
      assert Linked(s, q) && s.frame[q] < PFN_LIMIT;
    }
  }

  lemma AddTableLeads(s: PTs, k: Key, f: nat, e: PageEnt, q: Key, i: nat)
    requires Coherent(s) && k.Parent() in s.frame && k !in s.frame && IsKey(k)
    requires q in s.frame || q == k
    ensures Leads(AddTable(s, k, f, e), q, i)
  {
    AddTableEntry(s, k, f, e, q, i);
    if q != k {
      assert Leads(s, q, i);
      assert q == k.Parent() && i == k.prefix % 512 ==> q.Child(i) == k;
    }
  }

  lemma AddTableCoherent(s: PTs, k: Key, f: nat, a: Attr)
    requires Coherent(s) && k.Parent() in s.frame && k !in s.frame && k != SELF_KEY
    requires 1 <= k.level <= 3
    requires f < PFN_LIMIT && f !in s.frame.Values && PePageSize !in a.extra
    ensures Coherent(AddTable(s, k, f, Ent(f, a)))
  {
    var t := AddTable(s, k, f, Ent(f, a));
    forall q | q in t.frame && q != ROOT ensures Linked(t, q) {
      AddTableLinked(s, k, f, a, q);
    }
    forall q, i: nat | q in t.frame ensures Leads(t, q, i) {
      AddTableLeads(s, k, f, Ent(f, a), q, i);
    }
    forall q | q in s.frame ensures s.frame[q] != f {
      assert s.frame[q] in s.frame.Values;
    }
  }

  // ---- mapping a run of pages ----

  /** Some page of v0 .. v0+n lies under table `k`. */
  predicate InCover(k: Key, v0: nat, n: nat) {
    1 <= k.level <= 3 && n > 0 && Up(v0, k.level) <= k.prefix <= Up(v0 + n - 1, k.level)
  }

  /** The tables of `s` are still there, in the same frames, and still hang where they did. */
  ghost predicate TablesKept(s: PTs, t: PTs) {
    && s.frame.Keys <= t.frame.Keys
    && (forall k {:trigger s.frame[k]} {:trigger t.frame[k]} | k in s.frame :: t.frame[k] == s.frame[k])
    && (forall k {:trigger LinkEnt(s, k)} {:trigger LinkEnt(t, k)} | k in s.frame && k != ROOT ::
          LinkEnt(t, k) == LinkEnt(s, k))
    && Entry(t, ROOT, SELF_SLOT) == Entry(s, ROOT, SELF_SLOT)
  }

  /** Every new table is one that n pages from v0 need, and carries the requested flags. */
  ghost predicate TablesAdded(s: PTs, t: PTs, v0: nat, n: nat, a: Attr) {
    forall k {:trigger t.frame[k]} {:trigger InCover(k, v0, n)} | k in t.frame && k !in s.frame ::
      InCover(k, v0, n) && LinkEnt(t, k) == Ent(t.frame[k], a)
  }

  ghost predicate TablesCover(t: PTs, v0: nat, n: nat) {
    forall k {:trigger InCover(k, v0, n)} | InCover(k, v0, n) :: k in t.frame
  }

  ghost predicate LeavesSet(s: PTs, t: PTs, v0: nat, fs: seq<nat>, a: Attr) {
    forall v: nat {:trigger Leaf(t, v)} ::
      Leaf(t, v) == if v0 <= v < v0 + |fs| then Ent(fs[v - v0], a) else Leaf(s, v)
  }

  /** `t` is `s` with the pages v0, v0+1, ... mapped to the frames `fs`. The tables these pages
      need have been added, and none beyond what `ahead` pages from v0 need; no other
      translation and no other link between tables is touched. */
  ghost predicate Mapped(s: PTs, t: PTs, v0: nat, fs: seq<nat>, ahead: nat, a: Attr) {
    && TablesKept(s, t)
    && TablesAdded(s, t, v0, ahead, a)
    && TablesCover(t, v0, |fs|)
    && LeavesSet(s, t, v0, fs, a)
  }

  lemma CoverSplit(k: Key, v0: nat, n1: nat, n2: nat)
    ensures InCover(k, v0, n1) ==> InCover(k, v0, n1 + n2)
    ensures InCover(k, v0 + n1, n2) ==> InCover(k, v0, n1 + n2)
    ensures InCover(k, v0, n1 + n2) ==> InCover(k, v0, n1) || InCover(k, v0 + n1, n2)
  {}

  lemma MappedRefl(s: PTs, v0: nat, n: nat, a: Attr)
    ensures Mapped(s, s, v0, [], n, a)
  {}

  lemma MappedAhead(s: PTs, t: PTs, v0: nat, fs: seq<nat>, n: nat, m: nat, a: Attr)
    requires Mapped(s, t, v0, fs, n, a) && n <= m
    ensures Mapped(s, t, v0, fs, m, a)
  {
    forall k | k in t.frame && k !in s.frame ensures InCover(k, v0, m) {
      CoverSplit(k, v0, n, m - n);
      assert InCover(k, v0, n);
    }
  }

  lemma MappedTrans(s: PTs, t: PTs, u: PTs, v0: nat, fs: seq<nat>, n: nat, gs: seq<nat>, m: nat, a: Attr)
    requires Mapped(s, t, v0, fs, n, a) && Mapped(t, u, v0 + |fs|, gs, m, a) && n <= |fs| + m
    requires ROOT in s.frame
    ensures Mapped(s, u, v0, fs + gs, |fs| + m, a)
  {
    forall k | k in u.frame && k !in s.frame
      ensures InCover(k, v0, |fs| + m) && LinkEnt(u, k) == Ent(u.frame[k], a)
    {
      CoverSplit(k, v0, |fs|, m);
      if k in t.frame {
        CoverSplit(k, v0, n, |fs| + m - n);
        assert t.frame[k] == u.frame[k];
      }
    }
    assert TablesAdded(s, u, v0, |fs| + m, a);
    forall k | InCover(k, v0, |fs + gs|)
      ensures k in u.frame
    {
      CoverSplit(k, v0, |fs|, |gs|);
    }
    forall v: nat ensures Leaf(u, v) == if v0 <= v < v0 + |fs + gs| then Ent((fs + gs)[v - v0], a) else Leaf(s, v) {
      assert Leaf(t, v) == if v0 <= v < v0 + |fs| then Ent(fs[v - v0], a) else Leaf(s, v);
    }
  }

  /** Filling one last-level entry maps one page. */
  lemma SetLeafMaps(s: PTs, v: nat, f: nat, a: Attr)
    requires Coherent(s) && v < VPN_LIMIT && TableKey(v, 1) in s.frame
    ensures Mapped(s, SetEnt(s, TableKey(v, 1), v % 512, Ent(f, a)), v, [f], 1, a)
  {
    var k1 := TableKey(v, 1);
    var t := SetEnt(s, k1, v % 512, Ent(f, a));
    assert Linked(s, k1) && k1.Parent() == TableKey(v, 2);
    assert Linked(s, TableKey(v, 2)) && TableKey(v, 2).Parent() == TableKey(v, 3);
    forall u: nat ensures Leaf(t, u) == if v <= u < v + 1 then Ent(f, a) else Leaf(s, u) {
      if u != v && TableKey(u, 1) == k1 {
        assert u % 512 != v % 512;
      }
    }
    forall k | InCover(k, v, 1) ensures k in s.frame {
      assert k == TableKey(v, k.level);
    }
  }

  /** Adding the table that page v needs at some level maps nothing and disturbs nothing. */
  lemma AddTableMaps(s: PTs, v: nat, level: nat, f: nat, a: Attr)
    requires Coherent(s) && v < VPN_LIMIT && 1 <= level <= 3
    requires var k := TableKey(v, level); k !in s.frame && k.Parent() in s.frame && k != SELF_KEY
    ensures var k := TableKey(v, level); Mapped(s, AddTable(s, k, f, Ent(f, a)), v, [], 1, a)
  {
    var k, e := TableKey(v, level), Ent(f, a);
    var t := AddTable(s, k, f, e);
    assert k.Parent().Child(k.prefix % 512) == k;
    forall q | q in s.frame && q != ROOT ensures LinkEnt(t, q) == LinkEnt(s, q) {
      assert Linked(s, q);
      AddTableEntry(s, k, f, e, q.Parent(), q.prefix % 512);
    }
    AddTableEntry(s, k, f, e, ROOT, SELF_SLOT);
    AddTableEntry(s, k, f, e, k.Parent(), k.prefix % 512);
    forall u: nat ensures Leaf(t, u) == Leaf(s, u) {
      AddTableEntry(s, k, f, e, TableKey(u, 1), u % 512);
    }
  }

  /** All tables on the path of a mapped page are there. */
  lemma PathThere(s: PTs, v: nat)
    requires Coherent(s) && v < VPN_LIMIT && TableKey(v, 1) in s.frame
    ensures forall level {:trigger TableKey(v, level)} | 1 <= level <= 3 ::
              TableKey(v, level) in s.frame && TableKey(v, level) != ROOT
  {
    ChildOfTableKey(v, 2);
    ChildOfTableKey(v, 3);
    assert Linked(s, TableKey(v, 1)) && Linked(s, TableKey(v, 2));
  }

  lemma PathKept(s: PTs, t: PTs, v: nat)
    requires Coherent(s) && TablesKept(s, t) && v < VPN_LIMIT && TableKey(v, 1) in s.frame
    ensures Leaf(t, v) == Leaf(s, v) ==> PathWritable(t, v) == PathWritable(s, v) && PathNx(t, v) == PathNx(s, v)
  {
    PathThere(s, v);
    assert LinkEnt(t, TableKey(v, 1)) == LinkEnt(s, TableKey(v, 1));
    assert LinkEnt(t, TableKey(v, 2)) == LinkEnt(s, TableKey(v, 2));
    assert LinkEnt(t, TableKey(v, 3)) == LinkEnt(s, TableKey(v, 3));
  }

  /** What mapping a run means for translation: page v0 + i leads to the i-th frame, with the requested
      flags if all its tables are new; every other page translates as before. */
  lemma MappedTranslates(s: PTs, t: PTs, v0: nat, fs: seq<nat>, n: nat, a: Attr, v: nat)
    requires Coherent(s) && Coherent(t) && Mapped(s, t, v0, fs, n, a) && v < VPN_LIMIT
    requires v0 <= v < v0 + |fs| ==> fs[v - v0] < PFN_FIELD
    ensures v0 <= v < v0 + |fs| ==> Flat(t, v).Some? && Flat(t, v).value.pfn == fs[v - v0]
    ensures v0 <= v < v0 + |fs| && TableKey(v, 3) !in s.frame ==>
              Flat(t, v) == Some(Xlat(fs[v - v0], PeReadWrite in a.extra, a.nx))
    ensures !(v0 <= v < v0 + |fs|) ==> Flat(t, v) == Flat(s, v)
  {
    hide Coherent, LinkEnt, TableKey, InCover;
    assert Leaf(t, v) == if v0 <= v < v0 + |fs| then Ent(fs[v - v0], a) else Leaf(s, v);
    if v0 <= v < v0 + |fs| {
      if TableKey(v, 3) !in s.frame {
        RunPath(s, t, v0, fs, n, a, v);
      }
    } else if Leaf(s, v).Present() {
      LeafHasTable(s, v);
      PathKept(s, t, v);
    }
  }

  lemma LeafHasTable(s: PTs, v: nat)
    requires Coherent(s) && Leaf(s, v).Present()
    ensures TableKey(v, 1) in s.frame
  {}

  /** The links on the path of a page in the run, if its tables are new. */
  lemma RunPath(s: PTs, t: PTs, v0: nat, fs: seq<nat>, n: nat, a: Attr, v: nat)
    requires Coherent(s) && Mapped(s, t, v0, fs, n, a) && v0 <= v < v0 + |fs| && v < VPN_LIMIT
    requires TableKey(v, 3) !in s.frame
    ensures forall level {:trigger TableKey(v, level)} | 1 <= level <= 3 ::
              TableKey(v, level) in t.frame && LinkEnt(t, TableKey(v, level)) == Ent(t.frame[TableKey(v, level)], a)
  {
    forall level | 1 <= level <= 3
      ensures TableKey(v, level) in t.frame && LinkEnt(t, TableKey(v, level)) == Ent(t.frame[TableKey(v, level)], a)
    {
      if TableKey(v, level) in s.frame { TopThere(s, v, level); }
      UpMono(v0, v, level);
      UpMono(v, v0 + |fs| - 1, level);
      assert InCover(TableKey(v, level), v0, |fs|);
    }
  }

  lemma TopThere(s: PTs, v: nat, level: nat)
    requires Coherent(s) && v < VPN_LIMIT && 1 <= level <= 3 && TableKey(v, level) in s.frame
    ensures TableKey(v, 3) in s.frame
  {
    ChildOfTableKey(v, 3);
    ChildOfTableKey(v, 2);
    assert TableKey(v, 1) in s.frame ==> Linked(s, TableKey(v, 1));
    assert TableKey(v, 2) in s.frame ==> Linked(s, TableKey(v, 2));
  }

  /** The same for the hardware, on any memories that hold the tables before and after. */
  lemma MappedWalk(m0: PhysMem, s: PTs, m: PhysMem, t: PTs, v0: nat, fs: seq<nat>, n: nat, a: Attr, v: nat)
    requires Coherent(s) && Backs(m0, s) && Coherent(t) && Backs(m, t) && Mapped(s, t, v0, fs, n, a)
    requires v < VPN_LIMIT && Up(v, 3) != SELF_SLOT
    requires v0 <= v < v0 + |fs| ==> fs[v - v0] < PFN_FIELD
    ensures v0 <= v < v0 + |fs| ==>
              HwWalk(m, t.frame[ROOT], v).Some? && HwWalk(m, t.frame[ROOT], v).value.pfn == fs[v - v0]
    ensures !(v0 <= v < v0 + |fs|) ==> HwWalk(m, t.frame[ROOT], v) == HwWalk(m0, s.frame[ROOT], v)
  {
    hide Coherent, Backs, Mapped, Flat, HwWalk;
    WalkIsFlat(m0, s, v);
    WalkIsFlat(m, t, v);
    MappedTranslates(s, t, v0, fs, n, a, v);
  }
}
