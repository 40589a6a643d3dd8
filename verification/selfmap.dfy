/** What the PML4's entry for itself is for: every table of the tree appears as a page. */
module SelfMap {
  import opened MapDef
  import opened PageTables

  /** The page at which a table appears: the self-map slot for each level above it, then the way to it. */
  function SelfPage(k: Key): nat
    requires 1 <= k.level <= 4
  {
    if k.level == 1 then 0xf_8000_0000 + k.prefix
    else if k.level == 2 then 0xf_87c0_0000 + k.prefix
    else if k.level == 3 then 0xf_87c3_e000 + k.prefix
    else 0xf_87c3_e1f0
  }

  /** One step of the hardware walk along a present entry that is not a large page. */
  lemma HwFollows(m: PhysMem, s: PTs, k: Key, v: nat, level: nat, w: bool, nx: bool)
    requires Coherent(s) && Backs(m, s) && k in s.frame && 2 <= level <= 4
    requires Entry(s, k, Up(v, level - 1) % 512).Present() && !Entry(s, k, Up(v, level - 1) % 512).Large()
    ensures var e := Entry(s, k, Up(v, level - 1) % 512);
            HwStep(m, s.frame[k], v, level, w, nx) == HwStep(m, e.pfn, v, level - 1, w && e.Writable(), nx || e.nx)
  {
    FrameSmall(s, k);
    assert m[s.frame[k]] == s.tab[k];
  }

  /** The last step. */
  lemma HwEnds(m: PhysMem, s: PTs, k: Key, v: nat, w: bool, nx: bool)
    requires Coherent(s) && Backs(m, s) && k in s.frame && Entry(s, k, v % 512).Present()
    ensures var e := Entry(s, k, v % 512);
            HwStep(m, s.frame[k], v, 1, w, nx) == Some(Xlat(e.pfn, w && e.Writable(), nx || e.nx))
  {
    FrameSmall(s, k);
    assert m[s.frame[k]] == s.tab[k];
  }

  /** The entry that leads to a table. */
  lemma LinkOf(s: PTs, k: Key)
    requires Coherent(s) && k in s.frame && k != ROOT
    ensures 1 <= k.level <= 3 && k.Parent() in s.frame
    ensures var e := Entry(s, k.Parent(), k.prefix % 512);
            e == LinkEnt(s, k) && e.Present() && !e.Large() && e.pfn == s.frame[k]
  {
    assert Linked(s, k);
    assert s.frame[k] == s.frame[k] && s.frame[k.Parent()] == s.frame[k.Parent()];
    FrameSmall(s, k);
  }

  /** The entries on the way to a table below the PML4 are all writable. */
  ghost predicate LinksWritable(s: PTs) {
    forall k {:trigger LinkEnt(s, k)} | k in s.frame && k != ROOT :: LinkEnt(s, k).Writable()
  }

  // ---- the four indices of the page of a table ----

  lemma Idx1(p: nat)
    requires p < 0x800_0000
    ensures var v := 0xf_8000_0000 + p;
            && Up(v, 3) % 512 == 0x1f0 && Up(v, 2) % 512 == p / 0x4_0000
            && Up(v, 1) % 512 == p / 512 % 512 && v % 512 == p % 512
  {
    UpOf(0x1f0, p, 3);
    UpOf(0x1f0 * 0x200 + p / 0x4_0000, p % 0x4_0000, 2);
    UpOf(0x1f0 * 0x4_0000 + p / 512, p % 512, 1);
    Mod512(p / 0x4_0000, 0x1f0);
    Mod512(p / 512, 0x1f0 * 0x200);
    Mod512(p, 0x1f0 * 0x4_0000);
  }

  lemma Idx2(p: nat)
    requires p < 0x4_0000
    ensures var v := 0xf_87c0_0000 + p;
            Up(v, 3) % 512 == 0x1f0 && Up(v, 2) % 512 == 0x1f0 && Up(v, 1) % 512 == p / 512 && v % 512 == p % 512
  {
    Idx1(0x1f0 * 0x4_0000 + p);
    Mod512(p / 512, 0x1f0);
    Mod512(p, 0x1f0 * 0x200);
  }

  lemma Idx3(p: nat)
    requires p < 512
    ensures var v := 0xf_87c3_e000 + p;
            Up(v, 3) % 512 == 0x1f0 && Up(v, 2) % 512 == 0x1f0 && Up(v, 1) % 512 == 0x1f0 && v % 512 == p
  {
    Idx2(0x1f0 * 0x200 + p);
    Mod512(p, 0x1f0);
  }

  // ---- the recursion ----

  lemma RootPage(m: PhysMem, s: PTs)
    requires Coherent(s) && Backs(m, s) && SelfMapped(s)
    ensures HwWalk(m, s.frame[ROOT], 0xf_87c3_e1f0) == Some(Xlat(s.frame[ROOT], true, true))
  {
    hide HwStep, Coherent, Backs, SelfMapped, Entry, Up;
    var v := 0xf_87c3_e1f0;
    Idx3(0x1f0);
    SelfEnt(s);
    HwFollows(m, s, ROOT, v, 4, true, false);
    HwFollows(m, s, ROOT, v, 3, true, true);
    HwFollows(m, s, ROOT, v, 2, true, true);
    HwEnds(m, s, ROOT, v, true, true);
  }

  lemma TopPage(m: PhysMem, s: PTs, k: Key)
    requires Coherent(s) && Backs(m, s) && SelfMapped(s) && k in s.frame && k.level == 3
    ensures k.prefix < 512 && HwWalk(m, s.frame[ROOT], 0xf_87c3_e000 + k.prefix) ==
                              Some(Xlat(s.frame[k], LinkEnt(s, k).Writable(), true))
  {
    hide HwStep, Coherent, Backs, SelfMapped, Entry, Up, LinkEnt;
    var v := 0xf_87c3_e000 + k.prefix;
    TopKey(s, k);
    Idx3(k.prefix);
    SelfEnt(s);
    LinkOf(s, k);
    HwFollows(m, s, ROOT, v, 4, true, false);
    HwFollows(m, s, ROOT, v, 3, true, true);
    HwFollows(m, s, ROOT, v, 2, true, true);
    HwEnds(m, s, ROOT, v, true, true);
  }

  /** A table of level 3 hangs in the PML4. */
  lemma TopKey(s: PTs, k: Key)
    requires Coherent(s) && k in s.frame && k.level == 3
    ensures k.Parent() == ROOT && k.prefix < 512 && k != ROOT
  {
    LinkOf(s, k);
    assert s.frame[k.Parent()] == s.frame[k.Parent()];
    assert IsKey(k.Parent());
  }

  lemma MiddlePage(m: PhysMem, s: PTs, k: Key)
    requires Coherent(s) && Backs(m, s) && SelfMapped(s) && k in s.frame && k.level == 2
    ensures k.Parent() in s.frame && HwWalk(m, s.frame[ROOT], 0xf_87c0_0000 + k.prefix) ==
            Some(Xlat(s.frame[k], LinkEnt(s, k.Parent()).Writable() && LinkEnt(s, k).Writable(), true))
  {
    hide HwStep, Coherent, Backs, SelfMapped, Entry, Up, LinkEnt;
    var v, k3 := 0xf_87c0_0000 + k.prefix, k.Parent();
    LinkOf(s, k);
    TopKey(s, k3);
    LinkOf(s, k3);
    Idx2(k.prefix);
    SelfEnt(s);
    HwFollows(m, s, ROOT, v, 4, true, false);
    HwFollows(m, s, ROOT, v, 3, true, true);
    HwFollows(m, s, ROOT, v, 2, true, true);
    HwEnds(m, s, k3, v, LinkEnt(s, k3).Writable(), true);
  }

  lemma LastPage(m: PhysMem, s: PTs, k: Key)
    requires Coherent(s) && Backs(m, s) && SelfMapped(s) && k in s.frame && k.level == 1
    ensures k.Parent() in s.frame && k.Parent().Parent() in s.frame
    ensures HwWalk(m, s.frame[ROOT], 0xf_8000_0000 + k.prefix) ==
            Some(Xlat(s.frame[k], LinkEnt(s, k.Parent().Parent()).Writable() && LinkEnt(s, k.Parent()).Writable() &&
                                  LinkEnt(s, k).Writable(), true))
  {
    hide HwStep, Coherent, Backs, SelfMapped, Entry, Up, LinkEnt;
    var v, k2, k3 := 0xf_8000_0000 + k.prefix, k.Parent(), k.Parent().Parent();
    LinkOf(s, k);
    LinkOf(s, k2);
    TopKey(s, k3);
    LinkOf(s, k3);
    Idx1(k.prefix);
    SelfEnt(s);
    HwFollows(m, s, ROOT, v, 4, true, false);
    HwFollows(m, s, ROOT, v, 3, true, true);
    HwFollows(m, s, k3, v, 2, LinkEnt(s, k3).Writable(), true);
    HwEnds(m, s, k2, v, LinkEnt(s, k3).Writable() && LinkEnt(s, k2).Writable(), true);
  }

  /** Under the self-map slot the hardware finds every table at its page, writable if the way to it is,
      and never executable. */
  lemma TableAsPage(m: PhysMem, s: PTs, k: Key)
    requires Coherent(s) && Backs(m, s) && SelfMapped(s) && LinksWritable(s) && k in s.frame
    ensures 1 <= k.level <= 4 && HwWalk(m, s.frame[ROOT], SelfPage(k)) == Some(Xlat(s.frame[k], true, true))
  {
    hide HwStep, HwWalk, Backs, SelfMapped, LinkEnt;
    assert s.frame[k] == s.frame[k] && IsKey(k);
    if k.level == 4 {
      RootPage(m, s);
      return;
    }
    LinkOf(s, k);
    if k.level == 3 {
      TopPage(m, s, k);
    } else if k.level == 2 {
      MiddlePage(m, s, k);
    } else {
      LinkOf(s, k.Parent());
      LastPage(m, s, k);
    }
  }
}
