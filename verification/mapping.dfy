/** Mapping runs of pages: the descend-fill-climb loop over the table tree. */
module Mapping {
  import opened MapDef
  import opened PageTables
  import opened KernelEnv
  import opened PfnIndex
  import opened HostState

  /** The n frame numbers from b on. */
  function Frames(b: nat, n: nat): (r: seq<nat>)
    ensures |r| == n && forall i | 0 <= i < n :: r[i] == b + i
  {
    seq(n, i => b + i)
  }

  /** The map after the addresses of the pages v0, v0+1, ... are noted for the frames `fs` in turn. */
  function LinkRun(m: map<nat, nat>, v0: nat, fs: seq<nat>): map<nat, nat>
    decreases |fs|
  {
    if fs == [] then m
    else LinkRun(m, v0, fs[..|fs| - 1])[PfnKey(fs[|fs| - 1]) := VaOf(v0 + |fs| - 1)]
  }

  lemma {:induction false} LinkRunConcat(m: map<nat, nat>, v0: nat, fs: seq<nat>, gs: seq<nat>)
    ensures LinkRun(LinkRun(m, v0, fs), v0 + |fs|, gs) == LinkRun(m, v0, fs + gs)
    decreases |gs|
  {
    if gs == [] {
      assert fs + gs == fs;
    } else {
      LinkRunConcat(m, v0, fs, gs[..|gs| - 1]);
      assert (fs + gs)[..|fs + gs| - 1] == fs + gs[..|gs| - 1];
    }
  }

  ghost predicate Distinct(fs: seq<nat>) {
    forall i, j {:trigger fs[i], fs[j]} | 0 <= i < j < |fs| :: fs[i] != fs[j]
  }

  ghost predicate AllPfns(fs: seq<nat>) {
    forall i {:trigger fs[i]} | 0 <= i < |fs| :: fs[i] < PFN_LIMIT
  }

  /** A run without repetition can be read back. */
  lemma {:induction false} LinkRunAt(m: map<nat, nat>, v0: nat, fs: seq<nat>, i: nat)
    requires AllPfns(fs) && Distinct(fs) && i < |fs|
    ensures fs[i] in LinkRun(m, v0, fs) && LinkRun(m, v0, fs)[fs[i]] == VaOf(v0 + i)
    decreases |fs|
  {
    var front := fs[..|fs| - 1];
    if i < |fs| - 1 {
      LinkRunAt(m, v0, front, i);
      assert front[i] == fs[i] && fs[i] != fs[|fs| - 1];
    }
  }

  /** Frames outside the run keep what was noted about them. */
  lemma {:induction false} LinkRunElsewhere(m: map<nat, nat>, v0: nat, fs: seq<nat>, f: nat)
    requires AllPfns(fs) && f !in fs
    ensures f in LinkRun(m, v0, fs) <==> f in m
    ensures f in m ==> LinkRun(m, v0, fs)[f] == m[f]
    decreases |fs|
  {
    if fs != [] {
      var front := fs[..|fs| - 1];
      assert fs[|fs| - 1] in fs && fs[|fs| - 1] < PFN_LIMIT;
      assert forall i | 0 <= i < |front| :: front[i] == fs[i];
      LinkRunElsewhere(m, v0, front, f);
    }
  }

  /** What a mapping request puts where: flags for the tables, and a kind for the index. */
  datatype Req = Req(a: Attr, kind: Kind)

  /** The facts after a run of pages has been noted under the request's kind. */
  function Noted(f: Facts, kind: Kind, v0: nat, fs: seq<nat>): Facts {
    match kind
    case PageTable => f
    case RamPage => f.(ram := LinkRun(f.ram, v0, fs))
    case RsvdPage => f.(rsvd := LinkRun(f.rsvd, v0, fs))
  }

  /** `t`, `g` are the tables and facts `s`, `f` with the pages from v0 on mapped to `fs`. */
  ghost predicate Done(s: PTs, f: Facts, t: PTs, g: Facts, v0: nat, fs: seq<nat>, ahead: nat, q: Req) {
    && Mapped(s, t, v0, fs, ahead, q.a)
    && g.(pt := f.pt) == Noted(f, q.kind, v0, fs)
  }

  lemma DoneIsMapped(s: PTs, f: Facts, t: PTs, g: Facts, v0: nat, fs: seq<nat>, ahead: nat, q: Req)
    requires Done(s, f, t, g, v0, fs, ahead, q)
    ensures Mapped(s, t, v0, fs, ahead, q.a)
  {}

  lemma DoneTrans(s: PTs, f: Facts, t: PTs, g: Facts, u: PTs, h: Facts,
                  v0: nat, fs: seq<nat>, n: nat, gs: seq<nat>, m: nat, q: Req)
    requires Done(s, f, t, g, v0, fs, n, q) && Done(t, g, u, h, v0 + |fs|, gs, m, q)
    requires n <= |fs| + m && ROOT in s.frame
    ensures Done(s, f, u, h, v0, fs + gs, |fs| + m, q)
  {
    MappedTrans(s, t, u, v0, fs, n, gs, m, q.a);
    LinkRunConcat(f.ram, v0, fs, gs);
    LinkRunConcat(f.rsvd, v0, fs, gs);
  }

  lemma DoneRefl(s: PTs, f: Facts, v0: nat, n: nat, q: Req)
    ensures Done(s, f, s, f, v0, [], n, q)
  {
    MappedRefl(s, v0, n, q.a);
  }

  lemma DoneAhead(s: PTs, f: Facts, t: PTs, g: Facts, v0: nat, fs: seq<nat>, n: nat, m: nat, q: Req)
    requires Done(s, f, t, g, v0, fs, n, q) && n <= m
    ensures Done(s, f, t, g, v0, fs, m, q)
  {
    MappedAhead(s, t, v0, fs, n, m, q.a);
  }

  lemma DoneKeepsRoot(s: PTs, f: Facts, t: PTs, g: Facts, v0: nat, fs: seq<nat>, n: nat, q: Req)
    requires Done(s, f, t, g, v0, fs, n, q) && ROOT in s.frame
    ensures ROOT in t.frame && t.frame[ROOT] == s.frame[ROOT] && (SelfMapped(s) ==> SelfMapped(t))
  {}

  /** Noting one page and filling its entry maps it. */
  lemma OnePageDone(s: PTs, f: Facts, v: nat, pfn: nat, q: Req)
    requires Coherent(s) && v < VPN_LIMIT && TableKey(v, 1) in s.frame && q.kind != PageTable
    requires TableKey(v, 1) in s.tab && |s.tab[TableKey(v, 1)]| == 512
    ensures Done(s, f, SetEnt(s, TableKey(v, 1), v % 512, Ent(pfn, q.a)), f.With(q.kind, PfnKey(pfn), VaOf(v)),
                 v, [pfn], 1, q)
  {
    SetLeafMaps(s, v, pfn, q.a);
    var one := [pfn];
    assert one[..|one| - 1] == [];
    assert forall m: map<nat, nat> :: LinkRun(m, v, one) == LinkRun(m, v, [])[PfnKey(pfn) := VaOf(v)];
  }

  /** One page: note it in the index, then write its entry. */
  method FillOne(h: Host, pt: array<PageEnt>, i: nat, va: nat, pfn: nat, q: Req, ghost v: nat) returns (err: int)
    requires h.Inv() && v < VPN_LIMIT && va == VaOf(v) && i == v % 512 && q.kind != PageTable
    requires TableKey(v, 1) in h.arr && h.arr[TableKey(v, 1)] == pt
    modifies h`s, h.kern, pt, h.index, h.index.Repr
    ensures err == 0 ==> h.Inv() && h.kern.failed == old(h.kern.failed) && fresh(h.index.Repr - old(h.index.Repr))
    ensures err == 0 ==> Done(old(h.s), old(h.index.facts), h.s, h.index.facts, v, [pfn], 1, q)
    ensures h.arr == old(h.arr)
    ensures err != 0 ==> err == ENOMEM && h.kern.failed && h.s == old(h.s)
  {
    hide Index.Valid, Kernel.Valid, Coherent, Host.Recorded, Host.Mirrored, Done, SetEnt, Facts.With;
    err := h.LinkPage(q.kind, pfn, va);
    if err != 0 {
      return;
    }
    h.SetLeaf(pt, i, InitPageEnt(pfn, q.a, LVL_PT, true), v);
    FrameSmall(old(h.s), TableKey(v, 1));
    OnePageDone(old(h.s), old(h.index.facts), v, pfn, q);
  }

  lemma SameTable(v: nat, n: nat)
    requires v % 512 + n < 512
    ensures TableKey(v + n, 1) == TableKey(v, 1) && (v + n) % 512 == v % 512 + n
  {}

  lemma FramesStep(b: nat, n: nat)
    ensures Frames(b, n) + [b + n] == Frames(b, n + 1)
  {}

  /** Map one more page at the end of a run of n pages that began at v0 in state (s, f). */
  method FillNext(h: Host, pt: array<PageEnt>, i: nat, va: nat, pfn: nat, q: Req,
                  ghost s: PTs, ghost f: Facts, ghost v0: nat, ghost pfn0: nat, ghost n: nat) returns (err: int)
    requires v0 + n < VPN_LIMIT && va == VaOf(v0 + n) && q.kind != PageTable && pfn == pfn0 + n
    requires v0 % 512 + n == i < 512 && TableKey(v0, 1) in h.arr && h.arr[TableKey(v0, 1)] == pt
    requires h.Inv() && ROOT in s.frame
    requires Done(s, f, h.s, h.index.facts, v0, Frames(pfn0, n), n, q)
    modifies h`s, h.kern, pt, h.index, h.index.Repr
    ensures h.arr == old(h.arr)
    ensures err == 0 ==> h.Inv() && h.kern.failed == old(h.kern.failed) && fresh(h.index.Repr - old(h.index.Repr))
    ensures err == 0 ==> Done(s, f, h.s, h.index.facts, v0, Frames(pfn0, n + 1), n + 1, q)
    ensures err != 0 ==> err == ENOMEM && h.kern.failed && h.s == old(h.s)
  {
    hide *;
    ghost var t, g := h.s, h.index.facts;
    SameTable(v0, n);
    err := FillOne(h, pt, i, va, pfn, q, v0 + n);
    if err == 0 {
      DoneTrans(s, f, t, g, h.s, h.index.facts, v0, Frames(pfn0, n), n, [pfn], 1, q);
      FramesStep(pfn0, n);
    }
  }

  lemma RootTable(h: Host)
    requires h.Inv()
    ensures ROOT in h.s.frame && ROOT in h.arr && h.arr[ROOT] == h.pml4
  {}

  /** How many of `want` pages fit into a table from entry `idx` on. */
  function Fit(want: int, idx: nat): nat {
    if want <= 0 || idx >= 512 then 0 else if want < 512 - idx then want else 512 - idx
  }

  /** crp_amd64_fill_table: fill entries up to the end of the table or of the range. */
  method FillTable(h: Host, pt: array<PageEnt>, idx0: nat, va0: nat, pfn0: nat, pfnLimit: nat, q: Req, ghost v0: nat)
      returns (err: int, va: nat, pfnCur: nat, ghost n: nat)
    requires v0 + Fit(pfnLimit - pfn0, idx0) <= VPN_LIMIT
    requires v0 < VPN_LIMIT && va0 == VaOf(v0) && idx0 == v0 % 512 && q.kind != PageTable
    requires TableKey(v0, 1) in h.arr && h.arr[TableKey(v0, 1)] == pt
    requires h.Inv()
    modifies h`s, h.kern, pt, h.index, h.index.Repr
    ensures err == 0 ==> n == Fit(pfnLimit - pfn0, idx0) && pfnCur == pfn0 + n && va == VaOf(Wrap(v0 + n))
    ensures err == 0 ==> Done(old(h.s), old(h.index.facts), h.s, h.index.facts, v0, Frames(pfn0, n), n, q)
    ensures h.arr == old(h.arr)
    ensures err == 0 ==> h.kern.failed == old(h.kern.failed) && fresh(h.index.Repr - old(h.index.Repr))
    ensures err == 0 ==> h.Inv()
    ensures err != 0 ==> err == ENOMEM && h.kern.failed && n < Fit(pfnLimit - pfn0, idx0)
    ensures err != 0 ==> Mapped(old(h.s), h.s, v0, Frames(pfn0, n), n, q.a)
  {
    hide Host.Inv, Done, Mapped, Frames, VaIncr, VaOf, TableKey;
    ghost var s, f := h.s, h.index.facts;
    RootTable(h);
    var idx := idx0;
    va, pfnCur, n := va0, pfn0, 0;
    DoneRefl(s, f, v0, 0, q);
    assert Frames(pfn0, 0) == [];
    while pfnCur < pfnLimit && idx < 512
      invariant pfnCur == pfn0 + n && idx == idx0 + n <= 512 && n <= Fit(pfnLimit - pfn0, idx0)
      invariant va == VaOf(Wrap(v0 + n))
      invariant h.Inv() && h.kern.failed == old(h.kern.failed) && fresh(h.index.Repr - old(h.index.Repr))
      invariant h.arr == old(h.arr)
      invariant Done(s, f, h.s, h.index.facts, v0, Frames(pfn0, n), n, q)
    {
      DoneIsMapped(s, f, h.s, h.index.facts, v0, Frames(pfn0, n), n, q);
      err := FillNext(h, pt, idx, va, pfnCur, q, s, f, v0, pfn0, n);
      if err != 0 {
        return;
      }
      VaIncrPage(v0 + n);
      pfnCur, va, idx, n := pfnCur + 1, VaIncr(va, PAGE_SIZE), idx + 1, n + 1;
    }
    err := 0;
  }

  /** Every table of `a` is still at its place in `b`. */
  ghost predicate Keeps(a: map<Key, array<PageEnt>>, b: map<Key, array<PageEnt>>) {
    a.Keys <= b.Keys && forall k {:trigger a[k]} {:trigger b[k]} | k in a :: b[k] == a[k]
  }

  lemma KeepsTrans(a: map<Key, array<PageEnt>>, b: map<Key, array<PageEnt>>, c: map<Key, array<PageEnt>>)
    requires Keeps(a, b) && Keeps(b, c)
    ensures Keeps(a, c)
  {}

  lemma AllocDone(s: PTs, t: PTs, f: Facts, g: Facts, v: nat, level: nat, frame: nat, q: Req)
    requires Coherent(s) && v < VPN_LIMIT && 1 <= level <= 3 && q.kind != PageTable
    requires var k := TableKey(v, level); k !in s.frame && k.Parent() in s.frame && k.Parent() in s.tab && k != SELF_KEY
    requires |s.tab[TableKey(v, level).Parent()]| == 512
    requires t == AddTable(s, TableKey(v, level), frame, Ent(frame, q.a))
    requires g.ram == f.ram && g.rsvd == f.rsvd
    ensures Done(s, f, t, g, v, [], 1, q)
  {
    AddTableMaps(s, v, level, frame, q.a);
  }

  lemma AllocMaps(s: PTs, t: PTs, v: nat, level: nat, frame: nat, a: Attr)
    requires Coherent(s) && v < VPN_LIMIT && 1 <= level <= 3
    requires var k := TableKey(v, level); k !in s.frame && k.Parent() in s.frame && k.Parent() in s.tab && k != SELF_KEY
    requires |s.tab[TableKey(v, level).Parent()]| == 512
    requires t == AddTable(s, TableKey(v, level), frame, Ent(frame, a))
    ensures Mapped(s, t, v, [], 1, a)
  {
    AddTableMaps(s, v, level, frame, a);
  }

  /** An entry without PRESENT leads to no table. */
  lemma AbsentChild(s: PTs, v: nat, level: nat)
    requires Coherent(s) && v < VPN_LIMIT && 2 <= level <= 4 && TableKey(v, level) in s.frame
    requires !Entry(s, TableKey(v, level), Up(v, level - 1) % 512).Present()
    ensures TableKey(v, level - 1) !in s.frame
  {
    ChildOfTableKey(v, level);
    assert TableKey(v, level - 1) in s.frame ==> Linked(s, TableKey(v, level - 1));
  }

  /** What the index macros and the keys say about going one level down on the path of page v. */
  lemma OneLevelDown(v: nat, level: nat)
    requires v < VPN_LIMIT && 2 <= level <= 4
    ensures PeIdx(VaOf(v), level) == Up(v, level - 1) % 512 == TableKey(v, level - 1).prefix % 512
    ensures TableKey(v, level).Child(Up(v, level - 1) % 512) == TableKey(v, level - 1)
    ensures TableKey(v, level - 1).Parent() == TableKey(v, level)
    ensures TableKey(v, level).level == level && TableKey(v, level - 1).level == level - 1
    ensures TableKey(v, level - 1) == SELF_KEY <==> level == 4 && Up(v, 3) == SELF_SLOT
  {
    PeIdxOfVpn(v, level);
    ChildOfTableKey(v, level);
  }

  lemma KeepsMore(a: map<Key, array<PageEnt>>, k: Key, t: array<PageEnt>)
    requires k !in a
    ensures Keeps(a, a[k := t]) && a[k := t].Values <= a.Values + {t}
  {}

  lemma KeepsRefl(a: map<Key, array<PageEnt>>)
    ensures Keeps(a, a)
  {}

  lemma AbsentInArr(h: Host, k: Key)
    requires h.Inv() && k !in h.s.frame
    ensures k !in h.arr
  {}

  lemma SelfEntry(s: PTs, k: Key, i: nat)
    requires SelfMapped(s) && Coherent(s) && k in s.frame && k.level >= 2 && i < 512
    ensures ROOT in s.frame
    ensures k.Child(i) == SELF_KEY ==> Entry(s, k, i).Present() && Entry(s, k, i).pfn == s.frame[ROOT]
  {
    hide Entry;
    ChildParent(k, i);
    SelfEnt(s);
  }

  /** One level down: the table page v needs below `pt`, allocated if its entry is not present. */
  method Descend(h: Host, pt: array<PageEnt>, level: nat, va: nat, q: Req, ghost v: nat)
      returns (err: int, next: array<PageEnt>)
    requires v < VPN_LIMIT && va == VaOf(v) && 2 <= level <= 4 && PePageSize !in q.a.extra && q.kind != PageTable
    requires TableKey(v, level) in h.arr && h.arr[TableKey(v, level)] == pt
    requires h.Inv() && SelfMapped(h.s)
    modifies h, h.kern, pt, h.index, h.index.Repr
    ensures err == 0 ==> TableKey(v, level - 1) in h.arr && next == h.arr[TableKey(v, level - 1)]
    ensures err == 0 ==> Keeps(old(h.arr), h.arr) && fresh(h.Arrays() - old(h.Arrays()))
    ensures err == 0 ==> Done(old(h.s), old(h.index.facts), h.s, h.index.facts, v, [], 1, q)
    ensures err == 0 ==> h.Inv() && h.kern.failed == old(h.kern.failed) && fresh(h.index.Repr - old(h.index.Repr))
    ensures err != 0 ==> h.kern.failed || Up(v, 3) == SELF_SLOT
    ensures err != 0 ==> Mapped(old(h.s), h.s, v, [], 1, q.a)
  {
    hide Host.Inv, Coherent, Done, Mapped, AddTable, VaOf, Entry, TableKey, Up, PeIdx, Key.Child,
         Key.Parent, Keeps, SelfMapped;
    ghost var k, c := TableKey(v, level), TableKey(v, level - 1);
    var idx := PeIdx(va, level);
    OneLevelDown(v, level);
    h.TableAt(k, idx);
    SelfEntry(h.s, k, idx);
    if !pt[idx].Present() {
      AbsentChild(h.s, v, level);
      AbsentInArr(h, c);
      ghost var s, f, frame := h.s, h.index.facts, 0;
      ghost var arr := h.arr;
      err, next, frame := h.AllocPt(pt, idx, q.a, level, c);
      MappedRefl(s, v, 1, q.a);
      if h.s != s {
        AllocMaps(s, h.s, v, level - 1, frame, q.a);
      }
      if err == 0 {
        AllocDone(s, h.s, f, h.index.facts, v, level - 1, frame, q);
        KeepsMore(arr, c, next);
      }
    } else {
      err, next := h.GetTable(pt[idx], k, idx);
      MappedRefl(h.s, v, 1, q.a);
      DoneRefl(h.s, h.index.facts, v, 1, q);
      KeepsRefl(h.arr);
    }
  }

  lemma FramesNone(b: nat)
    ensures Frames(b, 0) == []
  {}

  lemma FramesConcat(b: nat, n: nat, m: nat)
    ensures Frames(b, n) + Frames(b + n, m) == Frames(b, n + m)
  {}

  // ---- climbing back ----

  /** The first test of the loop: the mask is 0x1ff << 30 in 32-bit arithmetic, which comes out as
      all the bits from 30 up. */
  predicate Differs1G(a: nat, b: nat) { a / 0x4000_0000 != b / 0x4000_0000 }

  /** The second test: the nine bits from 21 up. */
  predicate Differs2M(a: nat, b: nat) { a / 0x20_0000 % 512 != b / 0x20_0000 % 512 }

  function LevelDelta(vaLast: nat, va: nat): int {
    if Differs1G(vaLast, va) then -3 else if Differs2M(vaLast, va) then -2 else 1
  }

  /** When a last-level table is full the loop climbs, and high enough: at the level it goes to,
      and above, the tables at hand are those of the next page. */
  lemma ClimbHighEnough(v: nat, m: nat)
    requires v % 512 + m == 512 && v + m < VPN_LIMIT
    ensures var level := 1 - LevelDelta(VaOf(v), VaOf(v + m));
            3 <= level <= 4 && forall l: nat | level <= l <= 4 :: TableKey(v + m, l) == TableKey(v, l)
  {
    ClimbTests(v, m);
    UpStep(v, 2);
    UpStep(v + m, 2);
    var level := 1 - LevelDelta(VaOf(v), VaOf(v + m));
    forall l: nat | level <= l <= 4 ensures TableKey(v + m, l) == TableKey(v, l) {
      if l == 3 {
        assert Up(v, 2) == Up(v + m, 2);
      }
    }
  }

  lemma HalvesApart(u: nat, v: nat, level: nat)
    requires u < VPN_HALF <= v && 1 <= level <= 3
    ensures Up(u, level) < Up(v, level)
  {}

  lemma Next512(q: nat)
    ensures (q + 1) % 512 != q % 512 && ((q + 1) / 512 == q / 512 || (q + 1) / 512 == q / 512 + 1)
  {}

  /** Page v + m is the first of the next last-level table. */
  lemma NextTable(v: nat, m: nat)
    requires v % 512 + m == 512
    ensures Up(v + m, 1) == Up(v, 1) + 1 && Up(v + m, 1) % 512 != Up(v, 1) % 512
    ensures Up(v + m, 2) == Up(v, 2) || Up(v + m, 2) == Up(v, 2) + 1
  {
    assert v + m == (v / 512 + 1) * 512;
    Next512(v / 512);
    UpStep(v, 1);
    UpStep(v + m, 1);
  }

  /** What the tests read off the addresses, in page numbers. */
  lemma ClimbTests(v: nat, m: nat)
    requires v % 512 + m == 512 && v + m < VPN_LIMIT
    ensures Differs1G(VaOf(v), VaOf(v + m)) <==> Up(v, 2) != Up(v + m, 2)
    ensures Differs2M(VaOf(v), VaOf(v + m))
  {
    hide Up, VaOf;
    NextTable(v, m);
    PeIdxOfVpn(v, 2);
    PeIdxOfVpn(v + m, 2);
    VaOver1G(v);
    VaOver1G(v + m);
    if v < VPN_HALF <= v + m {
      HalvesApart(v, v + m, 2);
    }
  }

  lemma VaOver1G(v: nat)
    requires v < VPN_LIMIT
    ensures VaOf(v) / 0x4000_0000 == Up(v, 2) + (if v < VPN_HALF then 0 else 0x3_FFFC_0000)
  {
    var q, r := v / 0x4_0000, v % 0x4_0000;
    assert VaOf(v) == (q + (if v < VPN_HALF then 0 else 0x3_FFFC_0000)) * 0x4000_0000 + r * PAGE_SIZE;
    assert r * PAGE_SIZE < 0x4000_0000;
  }

  /** Reading the first mask as nine bits instead climbs just the same. */
  lemma MaskReadingsAgree(v: nat, m: nat)
    requires v % 512 + m == 512 && v + m < VPN_LIMIT
    ensures Differs1G(VaOf(v), VaOf(v + m)) <==> PeIdx(VaOf(v), LVL_PDP) != PeIdx(VaOf(v + m), LVL_PDP)
  {
    hide Up, VaOf, PeIdx, Differs1G;
    ClimbTests(v, m);
    NextTable(v, m);
    PeIdxOfVpn(v, 3);
    PeIdxOfVpn(v + m, 3);
    Next512(Up(v, 2));
  }

  // ---- the loop ----

  /** Descend on behalf of a run of n pages mapped so far. */
  method DescendNext(h: Host, pt: array<PageEnt>, level: nat, va: nat, q: Req,
                     ghost v0: nat, ghost fs: seq<nat>, ghost s: PTs, ghost f: Facts)
      returns (err: int, next: array<PageEnt>)
    requires v0 + |fs| < VPN_LIMIT && va == VaOf(v0 + |fs|) && 2 <= level <= 4
    requires PePageSize !in q.a.extra && q.kind != PageTable
    requires TableKey(v0 + |fs|, level) in h.arr && h.arr[TableKey(v0 + |fs|, level)] == pt
    requires ROOT in s.frame && SelfMapped(s)
    requires Done(s, f, h.s, h.index.facts, v0, fs, |fs| + 1, q)
    requires h.Inv()
    modifies h, h.kern, pt, h.index, h.index.Repr
    ensures err == 0 ==> TableKey(v0 + |fs|, level - 1) in h.arr && next == h.arr[TableKey(v0 + |fs|, level - 1)]
    ensures err == 0 ==> Keeps(old(h.arr), h.arr) && fresh(h.Arrays() - old(h.Arrays()))
    ensures err == 0 ==> Done(s, f, h.s, h.index.facts, v0, fs, |fs| + 1, q)
    ensures err == 0 ==> h.Inv() && h.kern.failed == old(h.kern.failed) && fresh(h.index.Repr - old(h.index.Repr))
    ensures err != 0 ==> h.kern.failed || Up(v0 + |fs|, 3) == SELF_SLOT
    ensures err != 0 ==> Mapped(s, h.s, v0, fs, |fs| + 1, q.a)
  {
    hide Host.Inv, Coherent, Done, Mapped, TableKey, Up, VaOf, Keeps, SelfMapped;
    ghost var t, g := h.s, h.index.facts;
    DoneKeepsRoot(s, f, t, g, v0, fs, |fs| + 1, q);
    err, next := Descend(h, pt, level, va, q, v0 + |fs|);
    if err != 0 {
      DoneIsMapped(s, f, t, g, v0, fs, |fs| + 1, q);
      MappedTrans(s, t, h.s, v0, fs, |fs| + 1, [], 1, q.a);
      assert fs + [] == fs;
    }
    if err == 0 {
      DoneTrans(s, f, t, g, h.s, h.index.facts, v0, fs, |fs| + 1, [], 1, q);
      assert fs + [] == fs;
    }
  }

  /** Fill on behalf of a run of pages mapped so far. */
  method FillMore(h: Host, pt: array<PageEnt>, idx: nat, va0: nat, pfnCur0: nat, pfnLimit: nat, q: Req,
                  ghost v0: nat, ghost pfnBase: nat, ghost n: nat, ghost s: PTs, ghost f: Facts)
      returns (err: int, va: nat, pfnCur: nat, ghost m: nat)
    requires v0 + n < VPN_LIMIT && va0 == VaOf(v0 + n) && q.kind != PageTable && pfnCur0 == pfnBase + n
    requires idx == (v0 + n) % 512 && v0 + n + Fit(pfnLimit - pfnCur0, idx) <= VPN_LIMIT
    requires TableKey(v0 + n, 1) in h.arr && h.arr[TableKey(v0 + n, 1)] == pt
    requires ROOT in s.frame && SelfMapped(s)
    requires Done(s, f, h.s, h.index.facts, v0, Frames(pfnBase, n), n + 1, q)
    requires h.Inv()
    modifies h`s, h.kern, pt, h.index, h.index.Repr
    ensures err == 0 ==> m == Fit(pfnLimit - pfnCur0, idx) && pfnCur == pfnCur0 + m && va == VaOf(Wrap(v0 + n + m))
    ensures err == 0 ==> Done(s, f, h.s, h.index.facts, v0, Frames(pfnBase, n + m), if m == 0 then n + 1 else n + m, q)
    ensures h.arr == old(h.arr)
    ensures err == 0 ==> h.Inv() && h.kern.failed == old(h.kern.failed) && fresh(h.index.Repr - old(h.index.Repr))
    ensures err != 0 ==> h.kern.failed && m < Fit(pfnLimit - pfnCur0, idx)
    ensures err != 0 ==> Mapped(s, h.s, v0, Frames(pfnBase, n + m), n + m + 1, q.a)
  {
    hide Host.Inv, Coherent, Done, Mapped, Frames, TableKey, Up, VaOf, SelfMapped, Fit, Wrap;
    ghost var t, g := h.s, h.index.facts;
    err, va, pfnCur, m := FillTable(h, pt, idx, va0, pfnCur0, pfnLimit, q, v0 + n);
    if err != 0 {
      DoneIsMapped(s, f, t, g, v0, Frames(pfnBase, n), n + 1, q);
      MappedAhead(t, h.s, v0 + n, Frames(pfnCur0, m), m, m + 1, q.a);
      MappedTrans(s, t, h.s, v0, Frames(pfnBase, n), n + 1, Frames(pfnCur0, m), m + 1, q.a);
      FramesConcat(pfnBase, n, m);
    }
    if err == 0 {
      ghost var ahead := if m == 0 then 1 else m;
      DoneAhead(t, g, h.s, h.index.facts, v0 + n, Frames(pfnCur0, m), m, ahead, q);
      DoneTrans(s, f, t, g, h.s, h.index.facts, v0, Frames(pfnBase, n), n + 1, Frames(pfnCur0, m), ahead, q);
      FramesConcat(pfnBase, n, m);
    }
  }

  ghost predicate Holds(arr: map<Key, array<PageEnt>>, ptCur: seq<array<PageEnt>>, l: nat, v: nat) {
    l < |ptCur| && TableKey(v, l) in arr && ptCur[l] == arr[TableKey(v, l)]
  }

  /** The tables at hand from the given level up are those on the path of page v. */
  ghost predicate AtHand(arr: map<Key, array<PageEnt>>, ptCur: seq<array<PageEnt>>, level: int, v: nat) {
    |ptCur| == 5 && forall l: nat {:trigger Holds(arr, ptCur, l, v)} | level <= l <= 4 :: Holds(arr, ptCur, l, v)
  }

  lemma AtHandKeeps(a: map<Key, array<PageEnt>>, b: map<Key, array<PageEnt>>, ptCur: seq<array<PageEnt>>,
                    level: nat, v: nat, next: array<PageEnt>)
    requires AtHand(a, ptCur, level, v) && Keeps(a, b) && 2 <= level <= 4
    requires TableKey(v, level - 1) in b && b[TableKey(v, level - 1)] == next
    ensures AtHand(b, ptCur[level - 1 := next], level - 1, v)
  {
    var now, low := ptCur[level - 1 := next], level - 1;
    forall l: nat | low <= l <= 4 ensures Holds(b, now, l, v) {
      assert level <= l ==> Holds(a, ptCur, l, v);
    }
  }

  lemma AtHandClimbs(a: map<Key, array<PageEnt>>, ptCur: seq<array<PageEnt>>, v: nat, m: nat)
    requires AtHand(a, ptCur, 1, v) && v % 512 + m == 512 && v + m < VPN_LIMIT
    ensures var level := 1 - LevelDelta(VaOf(v), VaOf(v + m)); 3 <= level <= 4 && AtHand(a, ptCur, level, v + m)
  {
    ClimbHighEnough(v, m);
    var level, to := 1 - LevelDelta(VaOf(v), VaOf(v + m)), v + m;
    forall l: nat | level <= l <= 4 ensures Holds(a, ptCur, l, to) {
      assert Holds(a, ptCur, l, v);
      assert TableKey(to, l) == TableKey(v, l);
    }
  }

  lemma AtHandNow(a: map<Key, array<PageEnt>>, ptCur: seq<array<PageEnt>>, level: nat, v: nat)
    requires AtHand(a, ptCur, level, v) && level <= 4
    ensures |ptCur| == 5 && TableKey(v, level) in a && ptCur[level] == a[TableKey(v, level)]
  {
    assert Holds(a, ptCur, level, v);
  }

  lemma AtHandStart(a: map<Key, array<PageEnt>>, pml4: array<PageEnt>, v: nat)
    requires ROOT in a && a[ROOT] == pml4 && v < VPN_LIMIT
    ensures AtHand(a, [pml4, pml4, pml4, pml4, pml4], LVL_PML4, v)
  {}

  lemma FitLess(want: int, idx: nat)
    requires idx < 512
    ensures Fit(want, idx) <= (if want <= 0 then 0 else want)
    ensures want > 0 ==> Fit(want, idx) > 0
    ensures Fit(want, idx) < want ==> idx + Fit(want, idx) == 512
  {}

  lemma PtIdx(v: nat)
    requires v < VPN_LIMIT
    ensures PeIdx(VaOf(v), LVL_PT) == v % 512
  {
    PeIdxOfVpn(v, 1);
  }

  /** At the last level: fill, and if frames are left find out how far to climb. */
  method FillAndClimb(h: Host, ptCur: seq<array<PageEnt>>, va0: nat, pfnCur0: nat, pfnLimit: nat, q: Req,
                      ghost v0: nat, ghost pfnBase: nat, ghost n: nat, ghost s: PTs, ghost f: Facts)
      returns (err: int, va: nat, pfnCur: nat, levelDelta: int, ghost m: nat)
    requires v0 + n < VPN_LIMIT && va0 == VaOf(v0 + n) && q.kind != PageTable && pfnCur0 == pfnBase + n
    requires v0 + n + (pfnLimit - pfnCur0) <= VPN_LIMIT && AtHand(h.arr, ptCur, LVL_PT, v0 + n)
    requires ROOT in s.frame && SelfMapped(s)
    requires Done(s, f, h.s, h.index.facts, v0, Frames(pfnBase, n), n + 1, q)
    requires h.Inv()
    modifies h`s, h.kern, h.Arrays(), h.index, h.index.Repr
    ensures h.arr == old(h.arr)
    ensures err == 0 ==> pfnCur == pfnCur0 + m && va == VaOf(Wrap(v0 + n + m))
    ensures err == 0 && pfnCur >= pfnLimit ==> m == if pfnCur0 < pfnLimit then pfnLimit - pfnCur0 else 0
    ensures err == 0 && pfnCur >= pfnLimit ==>
              Done(s, f, h.s, h.index.facts, v0, Frames(pfnBase, n + m), if m == 0 then n + 1 else n + m, q)
    ensures err == 0 && pfnCur < pfnLimit ==>
              m > 0 && v0 + n + m < VPN_LIMIT && 3 <= 1 - levelDelta <= 4 &&
              AtHand(h.arr, ptCur, 1 - levelDelta, v0 + n + m) &&
              Done(s, f, h.s, h.index.facts, v0, Frames(pfnBase, n + m), n + m + 1, q)
    ensures err == 0 ==> h.Inv() && h.kern.failed == old(h.kern.failed) && fresh(h.index.Repr - old(h.index.Repr))
    ensures err != 0 ==> h.kern.failed && n + m < pfnLimit - pfnBase
    ensures err != 0 ==> Mapped(s, h.s, v0, Frames(pfnBase, n + m), n + m + 1, q.a)
  {
    hide Host.Inv, Coherent, Done, Mapped, Frames, TableKey, Up, SelfMapped, Fit, AtHand, Holds, PeIdx, VaOf,
         LevelDelta;
    levelDelta := 1;
    var ptIdx := PeIdx(va0, LVL_PT);
    PtIdx(v0 + n);
    FitLess(pfnLimit - pfnCur0, ptIdx);
    AtHandNow(h.arr, ptCur, LVL_PT, v0 + n);
    InArrays(h, TableKey(v0 + n, LVL_PT));
    err, va, pfnCur, m := FillMore(h, ptCur[LVL_PT], ptIdx, va0, pfnCur0, pfnLimit, q, v0, pfnBase, n, s, f);
    if err == 0 && pfnCur < pfnLimit {
      AtHandClimbs(h.arr, ptCur, v0 + n, m);
      levelDelta := LevelDelta(va0, va);
      DoneAhead(s, f, h.s, h.index.facts, v0, Frames(pfnBase, n + m), n + m, n + m + 1, q);
    }
  }

  lemma InArrays(h: Host, k: Key)
    requires k in h.arr
    ensures h.arr[k] in h.Arrays()
  {}

  /** cr_amd64_map_pages_aligned, with 4K pages as at every call: the pages from v0 on are mapped to
      the frames pfnBase .. pfnLimit. On the way the level goes down to the last-level table,
      and back up where the page number crosses into another table. */
  method MapAligned(h: Host, va0: nat, pfnBase: nat, pfnLimit: nat, q: Req, ghost v0: nat)
      returns (err: int, va: nat, ghost n: nat)
    requires v0 < VPN_LIMIT && va0 == VaOf(v0) && v0 + (pfnLimit - pfnBase) <= VPN_LIMIT
    requires PePageSize !in q.a.extra && q.kind != PageTable && SelfMapped(h.s)
    requires h.Inv()
    modifies h, h.kern, h.index, h.index.Repr, h.Arrays()
    ensures err == 0 ==> n == (if pfnBase < pfnLimit then pfnLimit - pfnBase else 0) && va == VaOf(Wrap(v0 + n))
    ensures err == 0 ==>
              Done(old(h.s), old(h.index.facts), h.s, h.index.facts, v0, Frames(pfnBase, n), if n == 0 then 1 else n, q)
    ensures err == 0 ==> Keeps(old(h.arr), h.arr) && fresh(h.Arrays() - old(h.Arrays()))
    ensures err == 0 ==> h.Inv() && h.kern.failed == old(h.kern.failed) && fresh(h.index.Repr - old(h.index.Repr))
    ensures err != 0 ==> h.kern.failed || Up(v0 + n, 3) == SELF_SLOT
    ensures err != 0 ==> n == 0 || pfnBase + n < pfnLimit
    ensures err != 0 ==> Mapped(old(h.s), h.s, v0, Frames(pfnBase, n), n + 1, q.a)
  {
    hide Host.Inv, Coherent, Done, Mapped, Frames, TableKey, Up, SelfMapped, Fit, Keeps, AtHand, Holds, PeIdx,
         VaOf, LevelDelta;
    ghost var s, f := h.s, h.index.facts;
    var pfnCur, level: int, levelDelta := pfnBase, LVL_PML4, 1;
    va, n, err := va0, 0, 0;
    RootTable(h);
    AtHandStart(h.arr, h.pml4, v0);
    DoneRefl(s, f, v0, 1, q);
    FramesNone(pfnBase);
    KeepsRefl(h.arr);
    var ptCur: seq<array<PageEnt>> := [h.pml4, h.pml4, h.pml4, h.pml4, h.pml4];
    while level >= LVL_PT
      invariant 1 <= level <= 4 && levelDelta == 1 && err == 0 && pfnCur == pfnBase + n
      invariant (n == 0 || pfnCur < pfnLimit) && va == VaOf(v0 + n) && v0 + n < VPN_LIMIT
      invariant AtHand(h.arr, ptCur, level, v0 + n)
      invariant Keeps(old(h.arr), h.arr) && fresh(h.Arrays() - old(h.Arrays()))
      invariant h.Inv() && h.kern.failed == old(h.kern.failed) && fresh(h.index.Repr - old(h.index.Repr))
      invariant Done(s, f, h.s, h.index.facts, v0, Frames(pfnBase, n), n + 1, q)
      decreases pfnLimit - pfnCur, level
    {
      if level > LVL_PT {
        AtHandNow(h.arr, ptCur, level, v0 + n);
        InArrays(h, TableKey(v0 + n, level));
        ghost var arr := h.arr;
        var next: array<PageEnt>;
        err, next := DescendNext(h, ptCur[level], level, va, q, v0, Frames(pfnBase, n), s, f);
        if err != 0 {
          return;
        }
        AtHandKeeps(arr, h.arr, ptCur, level, v0 + n, next);
        KeepsTrans(old(h.arr), arr, h.arr);
        ptCur := ptCur[level - 1 := next];
      } else {
        ghost var m := 0;
        err, va, pfnCur, levelDelta, m := FillAndClimb(h, ptCur, va, pfnCur, pfnLimit, q, v0, pfnBase, n, s, f);
        n := n + m;
        if err != 0 {
          return;
        }
        if pfnCur >= pfnLimit {
          break;
        }
      }
      level, levelDelta := level - levelDelta, 1;
    }
  }
}
