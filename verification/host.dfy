/** The module's own page tables in memory, together with the frame index that finds them again. */
module HostState {
  import opened MapDef
  import opened PageTables
  import opened KernelEnv
  import opened PfnIndex

  /** A zeroed PML4 alone is a table tree. */
  lemma BareCoherent(frame: nat)
    requires frame < PFN_LIMIT
    ensures Coherent(PTs(map[ROOT := frame], map[ROOT := ZeroTable()]))
  {
    var s := PTs(map[ROOT := frame], map[ROOT := ZeroTable()]);
    assert forall k, i: nat :: Entry(s, k, i) == ZERO_ENT;
  }

  type Memory = map<nat, array<PageEnt>>

  /** Everything that is written down about the tables: their frames, where they are in memory,
      and what the kernel and the index say. */
  datatype Ledger = Ledger(frame: map<Key, nat>, arr: map<Key, array<PageEnt>>, at: map<Key, nat>,
                         tables: Memory, frameOf: map<nat, nat>, pt: map<nat, nat>)
  {
    /** Table `k` is live memory at its address, and the index leads from its frame to it. */
    ghost predicate Indexed(k: Key) {
      && k in frame && k in arr && k in at && at[k] in tables && tables[at[k]] == arr[k]
      && at[k] in frameOf && frameOf[at[k]] == frame[k]
      && frame[k] in pt && pt[frame[k]] == at[k]
    }

    /** With a table `k` in frame f at address p, which the index does not know yet. */
    function Plus(k: Key, f: nat, p: nat, t: array<PageEnt>, nowLive: map<nat, nat>): Ledger {
      Ledger(frame[k := f], arr[k := t], at[k := p], tables[p := t], nowLive, pt)
    }

    function Noted(f: nat, p: nat): Ledger { this.(pt := pt[f := p]) }

    /** The index knows every table below the PML4, and not the PML4. */
    ghost predicate Known(pinned: set<nat>) {
      && ROOT in frame && frame[ROOT] in pinned && frame[ROOT] !in pt
      && tables.Keys <= frameOf.Keys
      && (forall k {:trigger Indexed(k)} | k in frame && k != ROOT :: Indexed(k))
    }
  }

  /** The reserved list names the frame of every table below the PML4, once, in order of creation. */
  ghost predicate ListedIn(frame: map<Key, nat>, order: seq<Key>, pfns: seq<nat>) {
    && |order| == |pfns|
    && (forall i {:trigger order[i]} | 0 <= i < |order| ::
          order[i] in frame && order[i] != ROOT && pfns[i] == frame[order[i]])
    && (forall i, j {:trigger order[i], order[j]} | 0 <= i < j < |order| :: order[i] != order[j])
    && (forall k {:trigger k in order} | k in frame && k != ROOT :: k in order)
  }

  lemma KnownGrows(b: Ledger, pinned: set<nat>, k: Key, f: nat, p: nat, t: array<PageEnt>, live: map<nat, nat>)
    requires b.Known(pinned) && k !in b.frame && p !in b.tables && f !in b.frame.Values
    requires p in live && live[p] == f && f !in pinned
    requires b.frameOf.Keys <= live.Keys && forall q | q in b.frameOf :: live[q] == b.frameOf[q]
    ensures b.Plus(k, f, p, t, live).Noted(f, p).Known(pinned)
  {
    var c := b.Plus(k, f, p, t, live).Noted(f, p);
    forall q | q in b.frame ensures b.frame[q] != f {
      assert b.frame[q] in b.frame.Values;
    }
    forall q | q in c.frame && q != ROOT ensures c.Indexed(q) {
      if q != k {
        assert b.Indexed(q);
      }
    }
  }

  lemma KnownExtends(b: Ledger, pinned: set<nat>, frameOf: map<nat, nat>)
    requires b.Known(pinned)
    requires b.frameOf.Keys <= frameOf.Keys && forall q | q in b.frameOf :: frameOf[q] == b.frameOf[q]
    ensures b.(frameOf := frameOf).Known(pinned)
  {
    forall q | q in b.frame && q != ROOT ensures b.(frameOf := frameOf).Indexed(q) {
      assert b.Indexed(q);
    }
  }

  /** New pages of the index are none that hold tables. */
  lemma StillApart(b: Ledger, pinned: set<nat>, was: set<nat>, now: set<nat>)
    requires b.Known(pinned) && was !! b.tables.Keys && OnlyNew(was, now, b.frameOf.Keys)
    ensures now !! b.tables.Keys
  {}

  /** A page that was not live before holds no table, and neither does its frame. */
  lemma FreshFrame(b: Ledger, pinned: set<nat>, f: nat, p: nat)
    requires b.Known(pinned) && f !in b.frameOf.Values && f !in pinned && p !in b.frameOf
    ensures p !in b.tables && f !in b.frame.Values
  {
    forall q | q in b.frame ensures b.frame[q] != f {
      if q != ROOT {
        assert b.Indexed(q);
        assert b.frameOf[b.at[q]] in b.frameOf.Values;
      }
    }
  }

  lemma ListedGrows(frame: map<Key, nat>, order: seq<Key>, pfns: seq<nat>, k: Key, f: nat)
    requires ListedIn(frame, order, pfns) && k !in frame && k != ROOT
    ensures ListedIn(frame[k := f], order + [k], pfns + [f])
  {
    forall q | q in frame[k := f] && q != ROOT ensures q in order + [k] {
      assert q in frame ==> q in order;
    }
  }

  lemma WithPage(f: Facts, kind: Kind, key: nat, va: nat)
    requires kind != PageTable
    ensures f.With(kind, key, va).pt == f.pt
  {}

  lemma IndexedAt(b: Ledger, pinned: set<nat>, k: Key)
    requires b.Known(pinned) && k in b.frame && k != ROOT
    ensures b.Indexed(k)
  {}

  lemma RootNotIndexed(b: Ledger, pinned: set<nat>)
    requires b.Known(pinned)
    ensures ROOT in b.frame && b.frame[ROOT] !in b.pt && b.tables.Keys <= b.frameOf.Keys
  {}

  lemma WithTable(f: Facts, pfn: nat, p: nat)
    requires pfn < PFN_LIMIT
    ensures f.With(PageTable, PfnKey(pfn), p) == f.(pt := f.pt[pfn := p])
  {}

  /** What is recorded about the tables stays right when a table is added in a page that has just
      become live. */
  lemma TableAdded(b: Ledger, pinned: set<nat>, s: PTs, order: seq<Key>, listed: seq<nat>,
                   k: Key, a: Attr, f: nat, p: nat, t: array<PageEnt>, live: map<nat, nat>)
    requires b.Known(pinned) && Coherent(s) && s.frame == b.frame && ListedIn(s.frame, order, listed)
    requires k.Parent() in s.frame && k !in s.frame && k != SELF_KEY && 1 <= k.level <= 3
    requires PePageSize !in a.extra && f < PFN_LIMIT
    requires p !in b.frameOf && f !in b.frameOf.Values && f !in pinned && p in live && live[p] == f
    requires b.frameOf.Keys <= live.Keys && forall q | q in b.frameOf :: live[q] == b.frameOf[q]
    ensures Coherent(AddTable(s, k, f, Ent(f, a)))
    ensures b.Plus(k, f, p, t, live).Noted(f, p).Known(pinned)
    ensures ListedIn(s.frame[k := f], order + [k], listed + [f])
  {
    FreshFrame(b, pinned, f, p);
    AddTableCoherent(s, k, f, a);
    ListedGrows(s.frame, order, listed, k, f);
    KnownGrows(b, pinned, k, f, p, t, live);
  }

  lemma LiveFrame(kern: Kernel, p: nat)
    requires kern.Valid() && p in kern.frameOf
    ensures kern.frameOf[p] < PFN_LIMIT && kern.frameOf[p] !in kern.pinned
  {}

  class Host {
    const kern: Kernel
    const index: Index
    const pml4: array<PageEnt>
    var tables: map<nat, array<PageEnt>>     // memory: the pages that hold tables, by address
    ghost var s: PTs                         // the tables as values
    ghost var arr: map<Key, array<PageEnt>>  // where each table is
    ghost var at: map<Key, nat>              // and at which address, the PML4 apart
    ghost var order: seq<Key>                // tables in the order of their creation

    /** The zero-initialised module state: an empty index and a blank PML4, which the image keeps
        in the given frame. */
    constructor (kern: Kernel, index: Index, pml4: array<PageEnt>, ghost frame: nat)
      requires kern.Valid() && index.Valid() && index.pages <= kern.frameOf.Keys
      requires index.facts == NO_FACTS && index.listed == []
      requires pml4 !in index.Repr && kern !in index.Repr
      requires pml4[..] == ZeroTable() && frame in kern.pinned && frame < PFN_LIMIT
      ensures this.kern == kern && this.index == index && this.pml4 == pml4 && Inv()
      ensures s == PTs(map[ROOT := frame], map[ROOT := ZeroTable()]) && arr == map[ROOT := pml4]
    {
      hide Kernel.Valid, Index.Valid, Coherent;
      this.kern, this.index, this.pml4 := kern, index, pml4;
      tables, at, order := map[], map[], [];
      s := PTs(map[ROOT := frame], map[ROOT := ZeroTable()]);
      arr := map[ROOT := pml4];
      new;
      BareCoherent(frame);
    }

    ghost function Arrays(): set<array<PageEnt>>
      reads this`arr
    {
      arr.Values
    }

    /** The arrays hold what `s` says. */
    ghost predicate Mirrored()
      reads this`s, this`arr, Arrays()
    {
      && ROOT in arr && arr[ROOT] == pml4 && arr.Keys == s.tab.Keys
      && (forall k, q {:trigger arr[k], arr[q]} | k in arr && q in arr && arr[k] == arr[q] :: k == q)
      && forall k {:trigger arr[k]} | k in arr :: arr[k].Length == 512 && arr[k][..] == s.tab[k]
    }

    ghost function Book(): Ledger
      reads this, kern, index
    {
      Ledger(s.frame, arr, at, tables, kern.frameOf, index.facts.pt)
    }

    /** What the kernel, the index and the reserved list say fits the tables. */
    ghost predicate Recorded()
      reads this, kern, index
    {
      && Book().Known(kern.pinned) && ListedIn(s.frame, order, index.listed)
      && index.pages <= kern.frameOf.Keys && index.pages !! tables.Keys
    }

    /** The parts of the state do not overlap. */
    ghost predicate Apart()
      reads this, index
    {
      && kern !in index.Repr && this !in index.Repr
      && forall k | k in arr :: arr[k] !in index.Repr
    }

    ghost predicate Inv()
      reads this, kern, index, index.Repr, Arrays()
    {
      && kern.Valid() && index.Valid() && Apart() && Recorded()
      && Coherent(s) && arr.Keys == s.frame.Keys && Mirrored()
    }

    /** Overwrite one entry of table `k`. */
    method SetEntry(pt: array<PageEnt>, i: nat, e: PageEnt, ghost k: Key)
      requires Mirrored() && k in arr && arr[k] == pt && i < 512
      modifies pt, this`s
      ensures Mirrored() && s == SetEnt(old(s), k, i, e)
    {
      pt[i] := e;
      s := SetEnt(s, k, i, e);
    }

    /** A new page becomes the table `k`. */
    method Adopt(p: nat, page: seq<PageEnt>, ghost k: Key, ghost f: nat) returns (t: array<PageEnt>)
      requires Mirrored() && k !in arr && k != ROOT && |page| == 512
      modifies this`tables, this`s, this`arr, this`at, this`order
      ensures Mirrored() && fresh(t)
      ensures tables == old(tables)[p := t] && arr == old(arr)[k := t] && at == old(at)[k := p]
      ensures order == old(order) + [k]
      ensures s == PTs(old(s).frame[k := f], old(s).tab[k := page])
    {
      t := new PageEnt[512](i requires 0 <= i < 512 => page[i]);
      tables := tables[p := t];
      s := PTs(s.frame[k := f], s.tab[k := page]);
      assert t[..] == page;
      arr, at, order := arr[k := t], at[k := p], order + [k];
    }

    lemma ParentTable(k: Key)
      requires Mirrored() && k.Parent() in arr
      ensures k.Parent() in s.tab && |s.tab[k.Parent()]| == 512 && ROOT in arr && arr.Keys == s.tab.Keys
    {
      assert arr[k.Parent()].Length == 512;
    }

    /** Allocate a table and let entry i of its parent point to it. */
    method NewTable(pt: array<PageEnt>, i: nat, a: Attr, level: nat, ghost k: Key)
        returns (p: nat, pfn: nat, t: array<PageEnt>)
      requires kern.Valid() && Mirrored() && k !in arr && level == k.level + 1 && 1 <= k.level <= 3
      requires k.Parent() in arr && arr[k.Parent()] == pt && i == k.prefix % 512
      modifies this`tables, this`s, this`arr, this`at, this`order, pt, kern
      ensures kern.Valid() && kern.Extends(old(kern.frameOf))
      ensures p == 0 ==> kern.failed && s == old(s)
      ensures p != 0 ==> kern.failed == old(kern.failed) && Mirrored() && fresh(t)
      ensures p != 0 ==> p !in old(kern.frameOf) && p in kern.frameOf && kern.frameOf[p] == pfn
      ensures p != 0 ==> pfn < PFN_LIMIT && pfn !in kern.pinned
      ensures p != 0 ==> pfn !in old(kern.frameOf.Values) && kern.frameOf.Keys == old(kern.frameOf.Keys) + {p}
      ensures p != 0 ==> Book() == old(Book()).Plus(k, pfn, p, t, kern.frameOf) && arr == old(arr)[k := t]
      ensures p != 0 ==> order == old(order) + [k] && s == AddTable(old(s), k, pfn, Ent(pfn, a))
      ensures p != 0 ==> s.frame == old(s).frame[k := pfn]
    {
      hide Kernel.Valid, Host.Mirrored;
      ParentTable(k);
      ghost var arrays := Arrays();
      var page;
      p, page := kern.VMalloc();
      if p == 0 {
        return 0, 0, pt;
      }
      pfn := kern.frameOf[p];
      LiveFrame(kern, p);
      SetEntry(pt, i, InitPageEnt(pfn, a, level, false), k.Parent());
      t := Adopt(p, page, k, pfn);
    }

    /** Let the index and the reserved list know the new table. */
    method LinkTable(pfn: nat, p: nat) returns (err: int)
      requires kern.Valid() && index.Valid() && index.pages <= kern.frameOf.Keys && pfn < PFN_LIMIT
      requires Coherent(s) && arr.Keys == s.frame.Keys && Mirrored() && Apart()
      requires Book().Noted(pfn, p).Known(kern.pinned) && index.pages !! tables.Keys
      requires ListedIn(s.frame, order, index.listed + [pfn])
      modifies kern, index, index.Repr
      ensures err == 0 ==> Inv() && kern.failed == old(kern.failed) && fresh(index.Repr - old(index.Repr))
      ensures err == 0 ==> index.facts == old(index.facts).(pt := old(index.facts).pt[pfn := p])
      ensures err != 0 ==> err == ENOMEM && kern.failed
    {
      hide Index.Valid, Kernel.Valid, Coherent, Ledger.Known, ListedIn;
      err := index.Link(kern, PageTable, pfn, p);
      if err == 0 {
        WithTable(old(index.facts), pfn, p);
        StillApart(old(Book()).Noted(pfn, p), kern.pinned, old(index.pages), index.pages);
        KnownExtends(old(Book()).Noted(pfn, p), kern.pinned, kern.frameOf);
      }
    }

    /** A new table in memory, not yet known to the index. */
    method PlaceTable(pt: array<PageEnt>, i: nat, a: Attr, level: nat, ghost k: Key)
        returns (p: nat, pfn: nat, t: array<PageEnt>)
      requires kern.Valid() && Mirrored() && Recorded() && Coherent(s) && arr.Keys == s.frame.Keys
      requires k.Parent() in arr && arr[k.Parent()] == pt && i == k.prefix % 512
      requires k !in s.frame && k != SELF_KEY && 1 <= k.level <= 3 && level == k.level + 1
      requires PePageSize !in a.extra
      modifies this`tables, this`s, this`arr, this`at, this`order, pt, kern
      ensures p == 0 ==> kern.failed && s == old(s)
      ensures p != 0 ==> kern.Valid() && kern.Extends(old(kern.frameOf)) && kern.failed == old(kern.failed)
      ensures p != 0 ==> Mirrored() && Coherent(s) && arr.Keys == s.frame.Keys && index.pages !! tables.Keys
      ensures p != 0 ==> Book().Noted(pfn, p).Known(kern.pinned) && ListedIn(s.frame, order, index.listed + [pfn])
      ensures p != 0 ==> fresh(t) && arr == old(arr)[k := t] && pfn < PFN_LIMIT
      ensures p != 0 ==> s == AddTable(old(s), k, pfn, Ent(pfn, a))
    {
      hide Kernel.Valid, Coherent, Ledger.Known, ListedIn, Host.Mirrored, AddTable, Ledger.Noted;
      ghost var b := Book();
      p, pfn, t := NewTable(pt, i, a, level, k);
      if p != 0 {
        TableAdded(b, kern.pinned, old(s), old(order), index.listed, k, a, pfn, p, t, kern.frameOf);
      }
    }

    /** cr_host_map_alloc_pt: a zeroed page becomes the table below entry i of `pt`. */
    method AllocPt(pt: array<PageEnt>, i: nat, a: Attr, level: nat, ghost k: Key)
        returns (err: int, next: array<PageEnt>, ghost f: nat)
      requires Inv() && k.Parent() in arr && arr[k.Parent()] == pt && i == k.prefix % 512
      requires k !in s.frame && k != SELF_KEY && 1 <= k.level <= 3 && level == k.level + 1
      requires PePageSize !in a.extra
      modifies this, kern, pt, index, index.Repr
      ensures err == 0 ==> Inv() && kern.failed == old(kern.failed) && fresh(index.Repr - old(index.Repr))
      ensures err == 0 ==> fresh(next) && arr == old(arr)[k := next]
      ensures s == AddTable(old(s), k, f, Ent(f, a)) || (err != 0 && s == old(s))
      ensures err == 0 ==> s == AddTable(old(s), k, f, Ent(f, a))
      ensures err == 0 ==> index.facts.ram == old(index.facts.ram) && index.facts.rsvd == old(index.facts.rsvd)
      ensures err != 0 ==> err == ENOMEM && kern.failed
    {
      hide Index.Valid, Kernel.Valid, Coherent, Ledger.Known, ListedIn, Host.Mirrored, AddTable, Ledger.Noted;
      var p: nat, pfn: nat;
      p, pfn, next := PlaceTable(pt, i, a, level, k);
      if p == 0 {
        return ENOMEM, pt, 0;
      }
      f := pfn;
      err := LinkTable(pfn, p);
    }

    /** cr_host_map_link_ram_page and cr_host_map_link_rsvd_page. */
    method LinkPage(kind: Kind, pfn: nat, va: nat) returns (err: int)
      requires Inv() && kind != PageTable
      modifies kern, index, index.Repr
      ensures err == 0 ==> Inv() && kern.failed == old(kern.failed) && fresh(index.Repr - old(index.Repr))
      ensures err == 0 ==> index.facts == old(index.facts).With(kind, PfnKey(pfn), va)
      ensures err != 0 ==> err == ENOMEM && kern.failed
    {
      hide Index.Valid, Kernel.Valid, Coherent, Ledger.Known, ListedIn;
      err := index.Link(kern, kind, pfn, va);
      if err == 0 {
        WithPage(old(index.facts), kind, PfnKey(pfn), va);
        StillApart(old(Book()), kern.pinned, old(index.pages), index.pages);
        assert index.listed == old(index.listed);
        KnownExtends(old(Book()), kern.pinned, kern.frameOf);
      }
    }

    /** Fill the last-level entry of page v. */
    method SetLeaf(pt: array<PageEnt>, i: nat, e: PageEnt, ghost v: nat)
      requires Inv() && TableKey(v, 1) in arr && arr[TableKey(v, 1)] == pt && i == v % 512
      modifies pt, this`s
      ensures Inv() && s == SetEnt(old(s), TableKey(v, 1), i, e)
    {
      hide Index.Valid, Kernel.Valid, Ledger.Known, ListedIn, Coherent;
      SetLeafCoherent(s, v, e);
      SetEntry(pt, i, e, TableKey(v, 1));
    }

    /** crp_amd64_get_table: the table a present entry leads to, found through the index. The
        PML4's own frame is not indexed, so the self-map slot leads nowhere. */
    method GetTable(pe: PageEnt, ghost k: Key, ghost i: nat) returns (err: int, next: array<PageEnt>)
      requires Inv() && k in s.frame && k.level >= 2 && i < 512 && pe == Entry(s, k, i) && pe.Present()
      requires k.Child(i) == SELF_KEY ==> pe.pfn == s.frame[ROOT]
      ensures k.Child(i) != SELF_KEY ==> err == 0 && k.Child(i) in arr && next == arr[k.Child(i)]
      ensures k.Child(i) == SELF_KEY ==> err == ESRCH || err == EINVAL
    {
      hide Index.Valid, Kernel.Valid, ListedIn, Coherent, Ledger.Known, Host.Mirrored;
      RootNotIndexed(Book(), kern.pinned);
      FrameSmall(s, ROOT);
      if k.Child(i) != SELF_KEY {
        EntryLeads(s, k, i);
        IndexedAt(Book(), kern.pinned, k.Child(i));
        FrameSmall(s, k.Child(i));
      }
      var va: nat;
      err, va := index.Xlate(PageTable, pe.pfn);
      next := if err == 0 then tables[va] else pml4;
    }

    /** Every table has a page of its own, which the index does not use. */
    lemma TablesApart(k: Key, q: Key)
      requires Inv() && k in s.frame && q in s.frame && k != ROOT && q != ROOT
      ensures k in at && q in at && at[k] in kern.frameOf && at[k] !in index.pages && (k != q ==> at[k] != at[q])
    {
      hide Index.Valid, Kernel.Valid, Host.Mirrored, ListedIn;
      IndexedAt(Book(), kern.pinned, k);
      IndexedAt(Book(), kern.pinned, q);
      assert at[k] in tables.Keys;
      assert s.frame[k] == s.frame[q] ==> k == q;
    }

    /** A table's array is its value. */
    lemma TableAt(k: Key, i: nat)
      requires Inv() && k in arr && i < 512
      ensures Coherent(s) && k in s.frame && k in s.tab && |s.tab[k]| == 512
      ensures arr[k].Length == 512 && arr[k][i] == Entry(s, k, i)
    {
      assert s.frame[k] < PFN_LIMIT;
    }
  }
}
