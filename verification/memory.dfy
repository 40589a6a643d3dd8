/** Physical memory as the module leaves it: the tables the kernel module built, in the frames their
    pages lie in. The hardware walks this; the module itself only ever sees virtual addresses. */
module Memory {
  import opened MapDef
  import opened PageTables
  import opened KernelEnv
  import opened Alloc
  import opened PfnIndex
  import opened HostState
  import opened Mapping
  import opened Unmap

  /** The first n tables created are in memory. */
  ghost predicate Laid(m: PhysMem, s: PTs, order: seq<Key>, n: nat) {
    && n <= |order| && ROOT in s.frame && ROOT in s.tab && s.frame[ROOT] in m && m[s.frame[ROOT]] == s.tab[ROOT]
    && forall i {:trigger order[i]} | 0 <= i < n ::
         order[i] in s.frame && order[i] in s.tab && s.frame[order[i]] in m && m[s.frame[order[i]]] == s.tab[order[i]]
  }

  /** What the index says of a listed frame is where its table is. */
  lemma ListedTable(h: Host, i: nat)
    requires h.Inv() && i < |h.index.listed|
    ensures |h.order| == |h.index.listed| && h.order[i] in h.s.tab && h.order[i] in h.s.frame && h.order[i] != ROOT
    ensures var f := h.index.listed[i];
            && f == h.s.frame[h.order[i]] && PfnKey(f) == f && f in h.index.facts.Of(PageTable)
            && h.index.facts.Of(PageTable)[f] in h.tables
            && h.tables[h.index.facts.Of(PageTable)[f]][..] == h.s.tab[h.order[i]]
  {
    hide Index.Valid, Kernel.Valid, Coherent;
    var k := h.order[i];
    IndexedAt(h.Book(), h.kern.pinned, k);
    FrameSmall(h.s, k);
    assert h.arr[k][..] == h.s.tab[k];
  }

  lemma LaidMore(m: PhysMem, s: PTs, order: seq<Key>, n: nat)
    requires Laid(m, s, order, n) && n < |order| && Coherent(s) && order[n] in s.frame && order[n] != ROOT
    requires forall i, j {:trigger order[i], order[j]} | 0 <= i < j < |order| :: order[i] != order[j]
    ensures order[n] in s.tab && Laid(m[s.frame[order[n]] := s.tab[order[n]]], s, order, n + 1)
  {
    FrameSmall(s, order[n]);
    forall i | 0 <= i < n ensures s.frame[order[i]] != s.frame[order[n]] {
      assert order[i] != order[n];
    }
  }

  lemma LaidAll(h: Host, m: PhysMem)
    requires h.Inv() && Laid(m, h.s, h.order, |h.order|)
    ensures Backs(m, h.s)
  {
    hide Index.Valid, Kernel.Valid, Host.Mirrored, Ledger.Known, Coherent;
    forall k | k in h.s.frame ensures h.s.frame[k] in m && k in h.s.tab && m[h.s.frame[k]] == h.s.tab[k] {
      if k != ROOT {
        assert k in h.order;
      }
    }
  }

  lemma OrderFacts(h: Host)
    requires h.Inv()
    ensures |h.order| == |h.index.listed| && Coherent(h.s)
    ensures forall i, j {:trigger h.order[i], h.order[j]} | 0 <= i < j < |h.order| :: h.order[i] != h.order[j]
  {}

  /** Frames that hold no table keep their contents. */
  ghost predicate OthersKept(m0: PhysMem, m: PhysMem, s: PTs) {
    m0.Keys <= m.Keys && forall f {:trigger m[f]} | f in m && f !in s.frame.Values :: f in m0 && m[f] == m0[f]
  }

  lemma OthersMore(m0: PhysMem, m: PhysMem, s: PTs, k: Key, t: seq<PageEnt>)
    requires OthersKept(m0, m, s) && k in s.frame
    ensures OthersKept(m0, m[s.frame[k] := t], s)
  {
    assert s.frame[k] in s.frame.Values;
  }

  /** The contents of the table in a listed frame, found through the index. */
  method ListedContents(h: Host, pfn: nat, ghost i: nat) returns (t: seq<PageEnt>)
    requires i < |h.index.listed| && h.index.listed[i] == pfn
    requires h.Inv()
    ensures h.Inv() && h.index.lrsvd.Chain() && i < |h.order| && h.order[i] in h.s.tab && t == h.s.tab[h.order[i]]
  {
    hide Host.Inv, RsvdList.Chain, Index.Valid, Coherent;
    ListedTable(h, i);
    IndexValid(h);
    ghost var arrays := h.Arrays();
    var err, va := h.index.Xlate(PageTable, pfn);
    t := h.tables[va][..];
    ListOf(h);
  }

  /** Memory `m` with the module's tables in it. */
  method TablesInMemory(h: Host, m: PhysMem, frame: nat) returns (phys: PhysMem)
    requires ROOT in h.s.frame && frame == h.s.frame[ROOT]
    requires h.Inv()
    ensures Backs(phys, h.s) && OthersKept(m, phys, h.s)
  {
    hide Host.Inv, Laid, OthersKept, RsvdList.Chain, Coherent;
    ghost var i, n := 0, |h.index.listed|;
    RootTable(h);
    h.TableAt(ROOT, 0);
    OrderFacts(h);
    phys := m[frame := h.pml4[..]];
    RootLaid(h, m);
    ListOf(h);
    ChainHead(h.index.lrsvd);
    var litem := h.index.lrsvd.head;
    while litem != null
      invariant h.Inv() && h.index.lrsvd.Chain()
      invariant i <= n == |h.index.lrsvd.items| && litem == if i < n then h.index.lrsvd.items[i] else null
      invariant Laid(phys, h.s, h.order, i) && OthersKept(m, phys, h.s)
      decreases n - i
    {
      ChainAt(h.index.lrsvd, i);
      ListedTable(h, i);
      var t := ListedContents(h, litem.pfn, i);
      LaidMore(phys, h.s, h.order, i);
      OthersMore(m, phys, h.s, h.order[i], h.s.tab[h.order[i]]);
      phys := phys[litem.pfn := t];
      litem, i := litem.next, i + 1;
    }
    LaidAll(h, phys);
  }

  lemma RootLaid(h: Host, m: PhysMem)
    requires h.Inv()
    ensures ROOT in h.s.frame && Laid(m[h.s.frame[ROOT] := h.pml4[..]], h.s, h.order, 0)
    ensures OthersKept(m, m[h.s.frame[ROOT] := h.pml4[..]], h.s)
  {
    assert h.arr[ROOT][..] == h.s.tab[ROOT];
    assert h.s.frame[ROOT] in h.s.frame.Values;
  }
}
