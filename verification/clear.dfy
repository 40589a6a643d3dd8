/** The restartable zero-fill: `rep stosq` over the direct map, the page-fault handler that lets it hop
    over pages that are not present, and the loop that tiles the direct map with such blocks. */
module Clear {
  import opened MapDef
  import opened PageTables

  const UNIT: nat := PAGE_SIZE * PS_2M * 128
  const PAGE_WORDS: nat := 512    // PAGE_SIZE / 8
  const STOSQ: seq<nat> := [0xf3, 0x48, 0xab]   // the `rep stosq` instruction
  const SKIP: nat := 3                          // what the handler adds to RIP to skip it

  // ---- what the fill is about ----

  /** The frame each page of the direct map is present in, if it is. */
  type View = seq<Option<nat>>

  ghost predicate Shown(view: View, f: nat) {
    exists v: nat {:trigger view[v]} :: v < |view| && view[v] == Some(f)
  }

  /** The tables translate the direct map as `view` says, page after page, and the page after its
      end not at all; none of the frames shown holds a table. */
  ghost predicate Window(t: PTs, view: View) {
    && Coherent(t) && |view| < VPN_HALF && Flat(t, |view|) == None
    && (forall v: nat {:trigger view[v]} | v < |view| ::
          if view[v].None? then Flat(t, v) == None
          else Flat(t, v).Some? && Flat(t, v).value.pfn == view[v].value && Flat(t, v).value.writable)
    && (forall f {:trigger Shown(view, f)} | Shown(view, f) :: f !in t.frame.Values)
  }

  /** Word i of page v lies below address `end`. */
  predicate Below(v: nat, i: nat, end: nat) { v * PAGE_SIZE + i * 8 < end }

  /** Page v shows word i of a frame of memory. */
  predicate Shows(view: View, m: PhysMem, v: int, i: int) {
    0 <= v < |view| && 0 <= i < 512 && view[v].Some? && view[v].value in m && i < |m[view[v].value]|
  }

  /** Memory `m` is `m0` with every word shown below `end` zero, and nothing changed in any frame
      that is not shown. */
  ghost predicate Swept(m0: PhysMem, m: PhysMem, view: View, end: nat) {
    && m.Keys == m0.Keys
    && (forall f {:trigger m[f]} {:trigger m0[f]} | f in m0 :: |m[f]| == |m0[f]| && (!Shown(view, f) ==> m[f] == m0[f]))
    && (forall v, i {:trigger Below(v, i, end), view[v]} |
          Shows(view, m, v, i) && Below(v, i, end) :: m[view[v].value][i] == ZERO_ENT)
  }

  lemma SweptNone(m: PhysMem, view: View)
    ensures Swept(m, m, view, 0)
  {}

  /** Filling leaves the tables alone. */
  lemma BacksKept(m0: PhysMem, m: PhysMem, t: PTs, view: View, end: nat)
    requires Backs(m0, t) && Window(t, view) && Swept(m0, m, view, end)
    ensures Backs(m, t)
  {
    forall k | k in t.frame ensures t.frame[k] in m && k in t.tab && m[t.frame[k]] == t.tab[k] {
      assert t.frame[k] in t.frame.Values;
      assert m[t.frame[k]] == m0[t.frame[k]];
    }
  }

  /** Zero word i of frame f. */
  function Stored(m: PhysMem, f: nat, i: nat): PhysMem {
    if f in m && i < |m[f]| then m[f := m[f][i := ZERO_ENT]] else m
  }

  lemma SweptStore(m0: PhysMem, m: PhysMem, view: View, v: nat, i: nat)
    requires Swept(m0, m, view, v * PAGE_SIZE + i * 8) && v < |view| && view[v].Some? && i < 512
    ensures Swept(m0, Stored(m, view[v].value, i), view, v * PAGE_SIZE + i * 8 + 8)
  {
    var f, end := view[v].value, v * PAGE_SIZE + i * 8;
    var n := Stored(m, f, i);
    assert Shown(view, f);
    forall u, j | Shows(view, n, u, j) && Below(u, j, end + 8)
      ensures n[view[u].value][j] == ZERO_ENT
    {
      if u * PAGE_SIZE + j * 8 == end {
        assert u == v && j == i;
      } else {
        assert Below(u, j, end);
      }
    }
  }

  /** Nothing is shown in the rest of a page that is not present. */
  lemma SweptSkip(m0: PhysMem, m: PhysMem, view: View, end: nat, next: nat)
    requires Swept(m0, m, view, end) && end <= next
    requires forall v: nat {:trigger view[v]} |
               v < |view| && end < v * PAGE_SIZE + PAGE_SIZE && v * PAGE_SIZE < next :: view[v].None?
    ensures Swept(m0, m, view, next)
  {
    forall v, i | Shows(view, m, v, i) && Below(v, i, next)
      ensures m[view[v].value][i] == ZERO_ENT
    {
      assert Below(v, i, end);
    }
  }

  lemma SweptLess(m0: PhysMem, m: PhysMem, view: View, end: nat, less: nat)
    requires Swept(m0, m, view, end) && less <= end
    ensures Swept(m0, m, view, less)
  {
    forall v, i | Shows(view, m, v, i) && Below(v, i, less)
      ensures m[view[v].value][i] == ZERO_ENT
    {
      assert Below(v, i, end);
    }
  }

  // ---- the machine ----

  /** The translation of an address; a non-canonical one has none. */
  function Translate(m: PhysMem, root: nat, va: nat): Option<Xlat> {
    if Canonical(va) then HwWalk(m, root, Vpn(va)) else None
  }

  predicate CanWrite(x: Option<Xlat>) { x.Some? && x.value.writable }

  /** In the window, the hardware finds for the page of an address what the view says. */
  lemma SeenAt(m: PhysMem, t: PTs, view: View, va: nat)
    requires Window(t, view) && Backs(m, t) && va <= |view| * PAGE_SIZE
    ensures var v, x := va / PAGE_SIZE, Translate(m, t.frame[ROOT], va);
            if v < |view| && view[v].Some? then CanWrite(x) && x.value.pfn == view[v].value else !CanWrite(x)
  {
    var v := va / PAGE_SIZE;
    assert v < VPN_HALF && Vpn(va) == v && Up(v, 3) != SELF_SLOT;
    WalkIsFlat(m, t, v);
  }

  lemma Page(q: nat)
    ensures q * PAGE_SIZE / PAGE_SIZE == q && q * PAGE_SIZE % PAGE_SIZE == 0
  {}

  lemma Words(q: nat)
    ensures q * PAGE_WORDS / PAGE_WORDS == q && q * PAGE_WORDS % PAGE_WORDS == 0
  {}

  lemma EightTimes(a: nat, q: nat)
    requires a == 8 * q
    ensures a % 8 == 0 && a / 8 == q
  {}

  lemma PageIsWords(a: nat)
    requires a % PAGE_SIZE == 0
    ensures a % 8 == 0 && 8 * (a / 8) == a && a == a / PAGE_SIZE * PAGE_SIZE
  {
    EightTimes(a, 512 * (a / PAGE_SIZE));
  }

  /** From a page start whole pages are left only if the count is a whole number of pages. */
  lemma WholePages(p: nat, sum: nat, rcx: nat)
    requires p * PAGE_SIZE + 8 * rcx == sum * PAGE_SIZE && p <= sum
    ensures rcx == (sum - p) * PAGE_WORDS
  {}

  lemma NextPage(rdi: nat)
    requires rdi % PAGE_SIZE == 0 && rdi < VA_HALF
    ensures (rdi / PAGE_SIZE + 1) * PAGE_SIZE % VA_LIMIT == rdi + PAGE_SIZE
    ensures rdi % 8 == 0 && (rdi + PAGE_SIZE) % 8 == 0 && (rdi + PAGE_SIZE) % PAGE_SIZE == 0
  {
    var p := rdi / PAGE_SIZE;
    assert (p + 1) * PAGE_SIZE == rdi + PAGE_SIZE;
    Page(p + 1);
    PageIsWords(rdi);
    PageIsWords(rdi + PAGE_SIZE);
  }

  lemma NextWords(rcx: nat, q: nat)
    requires rcx == q * PAGE_WORDS && rcx < VA_HALF
    ensures (rcx / PAGE_WORDS + 1) * PAGE_WORDS % VA_LIMIT == rcx + PAGE_WORDS
    ensures rcx / PAGE_WORDS <= 1 ==> rcx <= PAGE_WORDS
  {
    Words(q);
    assert (q + 1) * PAGE_WORDS == rcx + PAGE_WORDS;
  }

  lemma TwoMore(sum: nat, b: nat)
    requires b == sum * PAGE_SIZE + 2 * PAGE_SIZE
    ensures b % PAGE_SIZE == 0
  {
    assert b == (sum + 2) * PAGE_SIZE;
    Page(sum + 2);
  }

  /** At a page start with whole pages left, the handler's masks are plain sums, and the end that RDI and
      RCX point to moves on by two pages. */
  lemma HopSums(rdi: nat, rcx: nat)
    requires rdi % PAGE_SIZE == 0 && (rdi + 8 * rcx) % PAGE_SIZE == 0 && rdi < VA_HALF && rcx < VA_HALF
    ensures (rdi / PAGE_SIZE + 1) * PAGE_SIZE % VA_LIMIT == rdi + PAGE_SIZE
    ensures (rcx / PAGE_WORDS + 1) * PAGE_WORDS % VA_LIMIT == rcx + PAGE_WORDS
    ensures rcx / PAGE_WORDS <= 1 ==> rcx <= PAGE_WORDS
    ensures rdi % 8 == 0 && (rdi + PAGE_SIZE) % 8 == 0
    ensures (rdi + PAGE_SIZE) % PAGE_SIZE == 0 && (rdi + PAGE_SIZE + 8 * (rcx + PAGE_WORDS)) % PAGE_SIZE == 0
  {
    var sum := rdi + 8 * rcx;
    PageIsWords(rdi);
    PageIsWords(sum);
    WholePages(rdi / PAGE_SIZE, sum / PAGE_SIZE, rcx);
    NextPage(rdi);
    NextWords(rcx, sum / PAGE_SIZE - rdi / PAGE_SIZE);
    TwoMore(sum / PAGE_SIZE, rdi + PAGE_SIZE + 8 * (rcx + PAGE_WORDS));
  }

  class Cpu {
    const root: nat               // CR3: the frame of the PML4
    const vaTop: nat              // end of the direct map
    const fill: nat               // address of the `rep stosq` instruction
    var mem: PhysMem
    var rcx: nat
    var rdi: nat
    var rip: nat
    var clearing: bool            // clear_clear_flag

    constructor (root: nat, vaTop: nat, fill: nat, mem: PhysMem)
      ensures this.root == root && this.vaTop == vaTop && this.fill == fill && this.mem == mem && !clearing
    {
      this.root, this.vaTop, this.fill, this.mem := root, vaTop, fill, mem;
      rcx, rdi, rip, clearing := 0, 0, 0, false;
    }

    /** One iteration of `rep stosq`: store a zero word and step, or fault and change nothing. */
    method StoreNext() returns (fault: bool)
      requires rcx > 0
      modifies this`mem, this`rcx, this`rdi
      ensures fault <==> !CanWrite(Translate(old(mem), root, old(rdi)))
      ensures fault ==> mem == old(mem) && rcx == old(rcx) && rdi == old(rdi)
      ensures !fault ==> rcx == old(rcx) - 1 && rdi == (old(rdi) + 8) % VA_LIMIT
      ensures !fault ==>
                mem == Stored(old(mem), Translate(old(mem), root, old(rdi)).value.pfn, old(rdi) % PAGE_SIZE / 8)
    {
      var x := Translate(mem, root, rdi);
      fault := !CanWrite(x);
      if !fault {
        mem := Stored(mem, x.value.pfn, rdi % PAGE_SIZE / 8);
        rcx, rdi := rcx - 1, (rdi + 8) % VA_LIMIT;
      }
    }

    /** cr_clear_cpu_clear_exception: 1 to restart the instruction at the next page, 0 to skip it. */
    method ClearException() returns (status: int)
      modifies this`rcx, this`rdi
      ensures status == if old(rdi) < vaTop && old(rcx) / PAGE_WORDS > 1 then 1 else 0
      ensures status == 0 ==> rcx == old(rcx) && rdi == old(rdi)
      ensures status == 1 ==> rdi == (old(rdi) / PAGE_SIZE + 1) * PAGE_SIZE % VA_LIMIT
      ensures status == 1 ==> rcx == (old(rcx) / PAGE_WORDS + 1) * PAGE_WORDS % VA_LIMIT
    {
      if rdi >= vaTop {
        return 0;
      }
      var c, d := rcx / PAGE_WORDS * PAGE_WORDS, rdi / PAGE_SIZE * PAGE_SIZE;
      if c > PAGE_WORDS {
        rcx, rdi := (c + PAGE_WORDS) % VA_LIMIT, (d + PAGE_SIZE) % VA_LIMIT;
        return 1;
      }
      return 0;
    }

    /** cr_clear_cpu_exception; outside of a fill the registers are shown and the machine stops. */
    method Exception() returns (status: int)
      modifies this`rcx, this`rdi, this`rip
      ensures clearing ==> status == if old(rdi) < vaTop && old(rcx) / PAGE_WORDS > 1 then 1 else 0
      ensures !clearing ==> status == -1
      ensures rip == if status == 0 then (old(rip) + SKIP) % VA_LIMIT else old(rip)
      ensures status != 1 ==> rcx == old(rcx) && rdi == old(rdi)
      ensures status == 1 ==> rdi == (old(rdi) / PAGE_SIZE + 1) * PAGE_SIZE % VA_LIMIT
      ensures status == 1 ==> rcx == (old(rcx) / PAGE_WORDS + 1) * PAGE_WORDS % VA_LIMIT
    {
      if clearing {
        status := ClearException();
      } else {
        status := -1;
      }
      if status == 0 {
        rip := (rip + SKIP) % VA_LIMIT;
      }
    }

    /** What holds whenever the fill instruction is about to run: what is left reaches the end of the
        block, though it may reach further, and a page is entered at its start. */
    ghost predicate Filling(m0: PhysMem, view: View, va: nat, end: nat)
      reads this
    {
      && va <= rdi <= vaTop && rdi % 8 == 0 && clearing
      && end <= rdi + 8 * rcx && (rdi + 8 * rcx) % PAGE_SIZE == 0 && 8 * rcx <= end - va + (rdi - va)
      && (rdi % PAGE_SIZE != 0 ==> rdi / PAGE_SIZE < |view| && view[rdi / PAGE_SIZE].Some?)
      && Swept(m0, mem, view, rdi)
    }

    /** What a fill needs to know of the machine. */
    ghost predicate Set(m0: PhysMem, t: PTs, view: View)
    {
      && Window(t, view) && Backs(m0, t) && root == t.frame[ROOT]
      && vaTop == |view| * PAGE_SIZE && fill + |STOSQ| < VA_LIMIT
    }

    /** A fault at the start of a page that is not present: the handler hops over it, or ends the block
        where nothing of it is left to fill. */
    method Hop(ghost m0: PhysMem, ghost view: View, ghost va: nat, ghost end: nat)
      requires Filling(m0, view, va, end) && rip == fill && rcx > 0 && rdi % PAGE_SIZE == 0
      requires vaTop == |view| * PAGE_SIZE && |view| < VPN_HALF && end <= vaTop && fill + |STOSQ| < VA_LIMIT
      requires rdi / PAGE_SIZE < |view| ==> view[rdi / PAGE_SIZE].None?
      modifies this`rcx, this`rdi, this`rip
      ensures rip == fill ==> Filling(m0, view, va, end) && rdi == old(rdi) + PAGE_SIZE && rcx == old(rcx) + PAGE_WORDS
      ensures rip != fill ==> rip == fill + |STOSQ| && rdi == old(rdi) && Swept(m0, mem, view, end)
    {
      hide Swept;
      HopSums(rdi, rcx);
      SweptSkip(m0, mem, view, rdi, rdi + PAGE_SIZE);
      var status := Exception();
      if status == 0 {
        SweptLess(m0, mem, view, if rdi < vaTop then rdi + PAGE_SIZE else rdi, end);
      }
    }

    /** One round of the fill instruction: it ends, stores a word, or faults and is handled. */
    method Round(ghost m0: PhysMem, ghost t: PTs, ghost view: View, ghost va: nat, ghost end: nat)
      requires Filling(m0, view, va, end) && rip == fill && Set(m0, t, view) && end <= vaTop
      modifies this`mem, this`rcx, this`rdi, this`rip
      ensures rip == fill ==> Filling(m0, view, va, end) && rdi > old(rdi)
      ensures rip != fill ==> rip == fill + |STOSQ| && rdi == old(rdi) && Swept(m0, mem, view, end)
    {
      hide Swept, Window, Backs, Canonical, HwWalk;
      if rcx == 0 {
        SweptLess(m0, mem, view, rdi, end);
        rip := (rip + |STOSQ|) % VA_LIMIT;
        return;
      }
      WindowSmall(t, view);
      BacksKept(m0, mem, t, view, rdi);
      SeenAt(mem, t, view, rdi);
      var fault := StoreNext();
      if fault {
        Hop(m0, view, va, end);
      } else {
        WordOf(old(rdi));
        SweptStore(m0, old(mem), view, old(rdi) / PAGE_SIZE, old(rdi) % PAGE_SIZE / 8);
      }
    }

    /** crp_clear_clear_block. Every round moves RDI up, RCX may grow; RDI never passes the end of the
        direct map, because the page there is not present. */
    method ClearBlock(va: nat, nbytes: nat, ghost m0: PhysMem, ghost t: PTs, ghost view: View)
      requires Set(m0, t, view) && Swept(m0, mem, view, va)
      requires va % PAGE_SIZE == 0 && nbytes % PAGE_SIZE == 0 && va + nbytes <= vaTop
      modifies this
      ensures Swept(m0, mem, view, va + nbytes) && !clearing && rip == fill + |STOSQ|
    {
      hide Swept, Window, Backs;
      clearing := true;
      rcx, rdi, rip := nbytes / 8, va, fill;
      BlockStart(va, nbytes);
      while rip == fill
        invariant rip == fill ==> Filling(m0, view, va, va + nbytes)
        invariant rip != fill ==> rip == fill + |STOSQ| && Swept(m0, mem, view, va + nbytes)
        decreases vaTop - rdi, rip == fill
      {
        Round(m0, t, view, va, va + nbytes);
      }
      clearing := false;
    }

    /** The loop of cr_clear_clear: the blocks tile the direct map, and every word that shows in it is zero. */
    method ClearAll(ghost t: PTs, ghost view: View)
      requires Set(mem, t, view)
      modifies this
      ensures Swept(old(mem), mem, view, vaTop) && (!old(clearing) ==> !clearing)
    {
      hide Swept, Window, Backs;
      var vaCur := 0;
      SweptNone(mem, view);
      while vaCur < vaTop
        invariant vaCur % UNIT == 0 && (!old(clearing) ==> !clearing)
        invariant Swept(old(mem), mem, view, if vaCur < vaTop then vaCur else vaTop)
      {
        var nbytes := UNIT - vaCur % UNIT;
        if nbytes > vaTop - vaCur {
          nbytes := vaTop - vaCur;
        }
        Tile(vaCur, vaTop);
        ClearBlock(vaCur, nbytes, old(mem), t, view);
        vaCur := vaCur + UNIT;
      }
    }

    /** cr_clear_clear: fill, then raise an exception. It finds no fill under way, so the handler gives up
        and the machine resets. */
    method ClearAndReset(ghost t: PTs, ghost view: View) returns (status: int)
      requires Set(mem, t, view) && !clearing
      modifies this
      ensures Swept(old(mem), mem, view, vaTop) && status == -1
    {
      ClearAll(t, view);
      status := Exception();
    }
  }

  lemma BlockStart(va: nat, nbytes: nat)
    requires va % PAGE_SIZE == 0 && nbytes % PAGE_SIZE == 0
    ensures 8 * (nbytes / 8) == nbytes && va % 8 == 0 && (va + nbytes) % PAGE_SIZE == 0
  {
    PageIsWords(va);
    PageIsWords(nbytes);
    PagesSum(va / PAGE_SIZE, nbytes / PAGE_SIZE);
  }

  lemma PagesSum(p: nat, q: nat)
    ensures (p * PAGE_SIZE + q * PAGE_SIZE) % PAGE_SIZE == 0
  {
    assert p * PAGE_SIZE + q * PAGE_SIZE == (p + q) * PAGE_SIZE;
  }

  lemma Tile(va: nat, top: nat)
    requires va % UNIT == 0 && top % PAGE_SIZE == 0 && va < top
    ensures va % PAGE_SIZE == 0 && (top - va) % PAGE_SIZE == 0 && UNIT % PAGE_SIZE == 0 && (va + UNIT) % UNIT == 0
  {
    var q, p := va / UNIT, top / PAGE_SIZE;
    assert va + UNIT == (q + 1) * UNIT;
    Page(q * 0x1_0000);
    Page(p - q * 0x1_0000);
    Units(q + 1);
  }

  lemma Units(q: nat)
    ensures q * UNIT % UNIT == 0
  {}

  lemma WindowSmall(t: PTs, view: View)
    requires Window(t, view)
    ensures |view| < VPN_HALF
  {}

  /** An address stepped by one word stays in its page or enters the next at its start. */
  lemma WordOf(a: nat)
    requires a % 8 == 0 && a < VA_HALF
    ensures a % PAGE_SIZE / 8 < 512 && a / PAGE_SIZE * PAGE_SIZE + a % PAGE_SIZE / 8 * 8 == a
    ensures (a + 8) % VA_LIMIT == a + 8 && (a + 8) % 8 == 0
    ensures (a + 8) % PAGE_SIZE == 0 || (a + 8) / PAGE_SIZE == a / PAGE_SIZE
  {}
}
