/** What the module reads off the host: the list of RAM sections, and the host's own page tables. */
module HostWalk {
  import opened MapDef
  import opened PageTables

  // ---- the resource list ----

  /** One of the host's memory resources; `end` is its last byte. */
  datatype Resource = Resource(start: nat, end: nat, systemRam: bool, busy: bool)

  /** A run of page frames, the limit excluded. */
  datatype Section = Section(base: nat, limit: nat)
  {
    predicate Has(f: nat) { base <= f < limit }
  }

  predicate IsRam(r: Resource) { r.systemRam && r.busy }

  /** Both ends are cut to whole pages; the byte after the end is computed in 64 bits. */
  function SectionOf(r: Resource): Section {
    Section(r.start / PAGE_SIZE, (r.end + 1) % VA_LIMIT / PAGE_SIZE)
  }

  /** A resource is RAM and takes up the frame: the frame's last byte, f * 4096 + 4095, is not before the
      resource and not after its end. */
  predicate Covers(r: Resource, f: nat) {
    r.systemRam && r.busy && r.start < (f + 1) * 4096 && (f + 1) * 4096 <= r.end + 1
  }

  /** What counts as RAM, said of the resource list itself. */
  ghost predicate InRam(rs: seq<Resource>, f: nat) {
    exists r {:trigger Covers(r, f)} :: r in rs && Covers(r, f)
  }

  /** The sections of the RAM resources, in list order. */
  function Sections(rs: seq<Resource>): seq<Section> {
    if rs == [] then []
    else (if IsRam(rs[0]) then [SectionOf(rs[0])] else []) + Sections(rs[1..])
  }

  /** A walk over the siblings of the first resource. */
  class PmapWalk {
    const resources: seq<Resource>
    var restart: bool
    var cur: nat          // |resources| stands for the null pointer

    constructor (resources: seq<Resource>)
      ensures this.resources == resources && Valid() && Rest() == Sections(resources)
    {
      this.resources, restart, cur := resources, true, 0;
    }

    ghost predicate Valid()
      reads this
    {
      !restart ==> cur <= |resources|
    }

    /** The sections the walk has yet to yield. */
    ghost function Rest(): seq<Section>
      requires Valid()
      reads this
    {
      if restart then Sections(resources) else Sections(resources[cur..])
    }

    /** CRH_INIT_PMAP_WALK_PARAMS */
    method Restart()
      modifies this
      ensures Valid() && Rest() == Sections(resources)
    {
      restart, cur := true, 0;
    }

    /** cr_host_pmap_walk: each call yields the next section, until there are none, and on demand its
        first frame once more. */
    method Next(wantCur: bool) returns (found: bool, section: Section, cursor: Option<nat>)
      requires Valid()
      modifies this
      ensures Valid() && !restart
      ensures found ==> old(Rest()) == [section] + Rest()
      ensures !found ==> old(Rest()) == [] == Rest()
      ensures cursor == if found && wantCur then Some(section.base) else None
    {
      if restart {
        cur, restart := 0, false;
      }
      found, section, cursor := false, Section(0, 0), None;
      if cur == |resources| {
        return;
      }
      assert resources[0..] == resources;
      while cur < |resources| && !found
        invariant cur <= |resources| && !restart
        invariant cursor == if found && wantCur then Some(section.base) else None
        invariant old(Rest()) == (if found then [section] else []) + Rest()
        decreases |resources| - cur
      {
        assert resources[cur..][1..] == resources[cur + 1..];
        if IsRam(resources[cur]) {
          section, found := SectionOf(resources[cur]), true;
          cursor := if wantCur then Some(section.base) else None;
        }
        cur := cur + 1;
      }
    }
  }

  /** Resources in ascending order, without overlap, ending below the last byte of the address space. */
  ghost predicate Ordered(rs: seq<Resource>) {
    && (forall i | 0 <= i < |rs| :: rs[i].start <= rs[i].end + 1 < VA_LIMIT)
    && (forall i, j | 0 <= i < j < |rs| :: rs[i].end < rs[j].start)
  }

  /** Sections in ascending order, without overlap. */
  ghost predicate Apart(ss: seq<Section>) {
    && (forall i | 0 <= i < |ss| :: ss[i].base <= ss[i].limit)
    && (forall i, j | 0 <= i < j < |ss| :: ss[i].limit <= ss[j].base)
  }

  lemma {:induction false} SectionsFrom(rs: seq<Resource>, s: Section)
    requires s in Sections(rs)
    ensures exists r :: r in rs && IsRam(r) && s == SectionOf(r)
  {
    if IsRam(rs[0]) && s == SectionOf(rs[0]) {
      assert rs[0] in rs;
    } else {
      SectionsFrom(rs[1..], s);
    }
  }

  lemma CutBefore(r: Resource, q: Resource)
    requires r.start <= r.end + 1 < VA_LIMIT && r.end < q.start
    ensures SectionOf(r).base <= SectionOf(r).limit <= SectionOf(q).base
  {}

  /** A section cut from a resource ends before those cut from later ones. */
  lemma SectionBefore(r: Resource, rs: seq<Resource>, s: Section)
    requires Ordered([r] + rs) && s in Sections(rs)
    ensures SectionOf(r).base <= SectionOf(r).limit <= s.base
  {
    hide SectionOf;
    SectionsFrom(rs, s);
    var q :| q in rs && IsRam(q) && s == SectionOf(q);
    var i :| 0 <= i < |rs| && rs[i] == q;
    assert ([r] + rs)[i + 1] == q && ([r] + rs)[0] == r;
    CutBefore(r, q);
  }

  lemma ApartCons(s: Section, ss: seq<Section>)
    requires Apart(ss) && s.base <= s.limit && forall t | t in ss :: s.limit <= t.base
    ensures Apart([s] + ss)
  {}

  /** Cutting to whole pages keeps an ordered list ordered and disjoint. */
  lemma {:induction false} SectionsApart(rs: seq<Resource>)
    requires Ordered(rs)
    ensures Apart(Sections(rs))
  {
    if rs != [] {
      var rest := rs[1..];
      assert rs == [rs[0]] + rest;
      assert forall i | 0 <= i < |rest| :: rest[i] == rs[i + 1];
      SectionsApart(rest);
      if IsRam(rs[0]) {
        assert rs[0].start <= rs[0].end + 1;
        forall s | s in Sections(rest) ensures SectionOf(rs[0]).limit <= s.base {
          SectionBefore(rs[0], rest, s);
        }
        ApartCons(SectionOf(rs[0]), Sections(rest));
      } else {
        assert Sections(rs) == Sections(rest);
      }
    }
  }

  /** A section has exactly the frames its resource takes up. */
  lemma SectionHas(r: Resource, f: nat)
    requires r.end + 1 < VA_LIMIT
    ensures IsRam(r) && SectionOf(r).Has(f) <==> Covers(r, f)
  {}

  /** The sections together have exactly the frames of the RAM resources. */
  lemma {:induction false} SectionsHave(rs: seq<Resource>, f: nat)
    requires forall r {:trigger r in rs} | r in rs :: r.end + 1 < VA_LIMIT
    ensures InRam(rs, f) <==> exists s {:trigger s.Has(f)} :: s in Sections(rs) && s.Has(f)
  {
    hide SectionOf, Covers, IsRam;
    if rs != [] {
      var r, rest := rs[0], rs[1..];
      assert rs == [r] + rest && r in rs;
      assert forall q {:trigger q in rest} | q in rest :: q in rs;
      SectionHas(r, f);
      SectionsHave(rest, f);
      assert Sections(rs) == (if IsRam(r) then [SectionOf(r)] else []) + Sections(rest);
      assert InRam(rs, f) <==> Covers(r, f) || InRam(rest, f);
    }
  }

  // ---- the host's page tables ----

  /** An entry read as a 1G or a 2M entry: the same word, the frame field starting 18 or 9 bits
      further up. */
  function Pfn1G(e: PageEnt): nat { e.pfn / 0x4_0000 }
  function Pfn2M(e: PageEnt): nat { e.pfn / 0x200 }

  /** Entry i of the table in frame t; the zero entry where there is no table. */
  function HostEnt(m: PhysMem, t: nat, i: nat): PageEnt {
    if t in m && i < |m[t]| then m[t][i] else ZERO_ENT
  }

  /** cr_host_virt_to_phys over the host's tables, rooted in frame `root`: no entry is checked for
      PRESENT. The shifted fields do not overlap, so the bitwise or is a sum. */
  function VirtToPhys(m: PhysMem, root: nat, va: nat): nat {
    var pgd := HostEnt(m, root, PeIdx(va, LVL_PML4));
    var pud := HostEnt(m, pgd.pfn, PeIdx(va, LVL_PDP));
    if pud.Large() then Pfn1G(pud) * 0x4_0000 + PeIdx(va, LVL_PD) * PS_2M + PeIdx(va, LVL_PT)
    else
      var pmd := HostEnt(m, pud.pfn, PeIdx(va, LVL_PD));
      if pmd.Large() then Pfn2M(pmd) * 0x200 + PeIdx(va, LVL_PT)
      else HostEnt(m, pmd.pfn, PeIdx(va, LVL_PT)).pfn
  }

  /** Where the hardware translates a page, through 4K, 2M or 1G entries, the function finds the same
      frame. */
  lemma VirtToPhysIsHwWalk(m: PhysMem, root: nat, v: nat)
    requires v < VPN_LIMIT && HwWalk(m, root, v).Some?
    ensures VirtToPhys(m, root, VaOf(v)) == HwWalk(m, root, v).value.pfn
  {
    PeIdxOfVpn(v, 1);
    PeIdxOfVpn(v, 2);
    PeIdxOfVpn(v, 3);
    PeIdxOfVpn(v, 4);
    PageIn1G(v);
    var e4 := m[root][Up(v, 3) % 512];
    var e3 := m[e4.pfn][Up(v, 2) % 512];
    var w, nx := e4.Writable(), e4.nx;
    assert HwWalk(m, root, v) == HwStep(m, e4.pfn, v, 3, w, nx);
    if !e3.Large() {
      var e2 := m[e3.pfn][Up(v, 1) % 512];
      assert HwWalk(m, root, v) == HwStep(m, e3.pfn, v, 2, w && e3.Writable(), nx || e3.nx);
      if !e2.Large() {
        assert HwWalk(m, root, v) ==
               HwStep(m, e2.pfn, v, 1, w && e3.Writable() && e2.Writable(), nx || e3.nx || e2.nx);
      }
    }
  }

  lemma PageIn1G(v: nat)
    ensures v % 0x4_0000 == v / 0x200 % 512 * PS_2M + v % 0x200
  {
    var q, r := v / 0x200, v % 0x200;
    var p, s := q / 512, q % 512;
    assert v == p * 0x4_0000 + (s * 0x200 + r);
    Rest1G(p, s * 0x200 + r);
  }

  lemma Rest1G(p: nat, r: nat)
    requires r < 0x4_0000
    ensures (p * 0x4_0000 + r) % 0x4_0000 == r
  {}

  /** The 512 2M entries that make up a 1G entry, and the 512 4K entries that make up a 2M entry. */
  function Split1G(e: PageEnt): seq<PageEnt> {
    seq(512, (j: nat) => e.(pfn := (Pfn1G(e) * 512 + j) * 512))
  }

  function Split2M(e: PageEnt): seq<PageEnt> {
    seq(512, (i: nat) => e.(pfn := Pfn2M(e) * 512 + i, bits := e.bits - {PePageSize}))
  }

  function HostTable(m: PhysMem, t: nat): seq<PageEnt> { seq(512, (i: nat) => HostEnt(m, t, i)) }

  /** The table below an entry of level 3 or 2, a large entry split. */
  function Pd(m: PhysMem, pud: PageEnt): seq<PageEnt> {
    if pud.Large() then Split1G(pud) else HostTable(m, pud.pfn)
  }

  function Pt(m: PhysMem, pmd: PageEnt): seq<PageEnt> {
    if pmd.Large() then Split2M(pmd) else HostTable(m, pmd.pfn)
  }

  /** A walk that knows 4K pages only, over the host's tables with all large entries split. */
  function Walk4K(m: PhysMem, root: nat, va: nat): nat {
    var pud := HostEnt(m, HostEnt(m, root, PeIdx(va, LVL_PML4)).pfn, PeIdx(va, LVL_PDP));
    Pt(m, Pd(m, pud)[PeIdx(va, LVL_PD)])[PeIdx(va, LVL_PT)].pfn
  }

  /** For every address whatsoever the function agrees with that walk. */
  lemma VirtToPhysIsWalk4K(m: PhysMem, root: nat, va: nat)
    ensures VirtToPhys(m, root, va) == Walk4K(m, root, va)
  {
    var pud := HostEnt(m, HostEnt(m, root, PeIdx(va, LVL_PML4)).pfn, PeIdx(va, LVL_PDP));
    var pmd := Pd(m, pud)[PeIdx(va, LVL_PD)];
    if pud.Large() {
      assert pmd.Large() && pmd.pfn / 0x200 == Pfn1G(pud) * 512 + PeIdx(va, LVL_PD);
    }
  }
}
