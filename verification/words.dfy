/** Page entries as the 64-bit words they are: where each field lies, and what the words of the entries
    the module makes are. */
module Words {
  import opened MapDef

  function Weight(b: PeBit): (w: nat)
    ensures w > 0
  {
    match b
    case PePresent => 0x001
    case PeReadWrite => 0x002
    case PeUserSupervisor => 0x004
    case PeWriteThrough => 0x008
    case PeCacheDisable => 0x010
    case PeAccessed => 0x020
    case PeDirty => 0x040
    case PePageSize => 0x080
    case PeGlobal => 0x100
  }

  function BitIn(b: PeBit, s: set<PeBit>): nat { if b in s then 1 else 0 }

  /** The nine flag bits, bit 0 first. */
  function BitsWord(s: set<PeBit>): nat {
    BitIn(PePresent, s) * 0x001 + BitIn(PeReadWrite, s) * 0x002 + BitIn(PeUserSupervisor, s) * 0x004 +
    BitIn(PeWriteThrough, s) * 0x008 + BitIn(PeCacheDisable, s) * 0x010 + BitIn(PeAccessed, s) * 0x020 +
    BitIn(PeDirty, s) * 0x040 + BitIn(PePageSize, s) * 0x080 + BitIn(PeGlobal, s) * 0x100
  }

  /** struct cra_page_ent, from the low bits up: 9 flags, 3 bits, 40 bits of frame number, 11 bits, NX. */
  function Word(e: PageEnt): nat {
    BitsWord(e.bits) + e.avl0 * 0x200 + e.pfn * 0x1000 + e.avl3 * 0x10_0000_0000_0000 +
    (if e.nx then 0x8000_0000_0000_0000 else 0)
  }

  /** The word of an entry fits into 64 bits, each field into its own. */
  predicate Packed(e: PageEnt) { e.avl0 < 8 && e.pfn < PFN_FIELD && e.avl3 < 0x800 }

  /** A word read back field by field. */
  function EntOf(w: nat): PageEnt {
    PageEnt((set b: PeBit | w % 0x200 / Weight(b) % 2 == 1),
            w / 0x200 % 8, w / 0x1000 % PFN_FIELD, w / 0x10_0000_0000_0000 % 0x800, w / 0x8000_0000_0000_0000 % 2 == 1)
  }

  // ---- the layout ----

  lemma {:induction false} MulStep(c: nat, p: nat, q: nat)
    requires p < q
    ensures c * p + c <= c * q
    decreases q
  {
    assert c * q == c * (q - 1) + c;
    if p < q - 1 {
      MulStep(c, p, q - 1);
    }
  }

  lemma DivUnique(x: nat, c: nat, q: nat, r: nat)
    requires x == c * q + r && r < c
    ensures x / c == q && x % c == r
  {
    var p := x / c;
    assert x == c * p + x % c;
    if p < q {
      MulStep(c, p, q);
    } else if q < p {
      MulStep(c, q, p);
    }
  }

  /** A field of n values at weight c, with `lo` below it and `hi` above it. */
  lemma Field(w: nat, lo: nat, c: nat, f: nat, n: nat, hi: nat)
    requires w == lo + c * (f + n * hi) && lo < c && f < n
    ensures w / c % n == f && w % c == lo
  {
    DivUnique(w, c, f + n * hi, lo);
    DivUnique(f + n * hi, n, hi, f);
  }

  lemma BitsSmall(s: set<PeBit>)
    ensures BitsWord(s) < 0x200
  {}

  lemma BitAt(s: set<PeBit>, b: PeBit)
    ensures BitsWord(s) / Weight(b) % 2 == BitIn(b, s)
  {
    hide BitIn;
    BitsSum(s);
    var x0, x1, x2 := BitIn(PePresent, s), BitIn(PeReadWrite, s), BitIn(PeUserSupervisor, s);
    var x3, x4, x5 := BitIn(PeWriteThrough, s), BitIn(PeCacheDisable, s), BitIn(PeAccessed, s);
    var x6, x7, x8 := BitIn(PeDirty, s), BitIn(PePageSize, s), BitIn(PeGlobal, s);
    var h7 := x8;
    var h6 := x7 + 2 * h7;
    var h5 := x6 + 2 * h6;
    var h4 := x5 + 2 * h5;
    var h3 := x4 + 2 * h4;
    var h2 := x3 + 2 * h3;
    var h1 := x2 + 2 * h2;
    var h0 := x1 + 2 * h1;
    var w := BitsWord(s);
    match b
    case PePresent => Field(w, 0, 0x001, x0, 2, h0);
    case PeReadWrite => Field(w, w - 0x002 * h0, 0x002, x1, 2, h1);
    case PeUserSupervisor => Field(w, w - 0x004 * h1, 0x004, x2, 2, h2);
    case PeWriteThrough => Field(w, w - 0x008 * h2, 0x008, x3, 2, h3);
    case PeCacheDisable => Field(w, w - 0x010 * h3, 0x010, x4, 2, h4);
    case PeAccessed => Field(w, w - 0x020 * h4, 0x020, x5, 2, h5);
    case PeDirty => Field(w, w - 0x040 * h5, 0x040, x6, 2, h6);
    case PePageSize => Field(w, w - 0x080 * h6, 0x080, x7, 2, h7);
    case PeGlobal => Field(w, w - 0x100 * h7, 0x100, x8, 2, 0);
  }

  lemma BitsSum(s: set<PeBit>)
    ensures forall b: PeBit {:trigger BitIn(b, s)} :: BitIn(b, s) < 2
  {}

  /** No two fields overlap: an entry can be read back from its word. */
  lemma WordRoundTrip(e: PageEnt)
    requires Packed(e)
    ensures EntOf(Word(e)) == e && Word(e) < 0x1_0000_0000_0000_0000
  {
    hide BitsWord, Weight;
    var b, nx := BitsWord(e.bits), if e.nx then 1 else 0;
    var w := Word(e);
    BitsSmall(e.bits);
    Field(w, b, 0x200, e.avl0, 8, e.pfn + PFN_FIELD * (e.avl3 + 0x800 * nx));
    Field(w, b + e.avl0 * 0x200, 0x1000, e.pfn, PFN_FIELD, e.avl3 + 0x800 * nx);
    Field(w, b + e.avl0 * 0x200 + e.pfn * 0x1000, 0x10_0000_0000_0000, e.avl3, 0x800, nx);
    Field(w, w - 0x8000_0000_0000_0000 * nx, 0x8000_0000_0000_0000, nx, 2, 0);
    forall x: PeBit ensures b / Weight(x) % 2 == BitIn(x, e.bits) {
      BitAt(e.bits, x);
    }
    assert EntOf(w).bits == e.bits;
  }

  /** What the hardware reads off the word is what the predicates on entries say. */
  lemma WordFlags(e: PageEnt)
    requires Packed(e)
    ensures e.Present() <==> Word(e) % 0x200 / 0x001 % 2 == 1
    ensures e.Writable() <==> Word(e) % 0x200 / 0x002 % 2 == 1
    ensures e.Large() <==> Word(e) % 0x200 / 0x080 % 2 == 1
    ensures e.nx <==> Word(e) / 0x8000_0000_0000_0000 % 2 == 1
    ensures e.pfn == Word(e) / 0x1000 % 0x100_0000_0000
  {
    WordRoundTrip(e);
    assert e == EntOf(Word(e));
    assert Weight(PePresent) == 0x001 && Weight(PeReadWrite) == 0x002 && Weight(PePageSize) == 0x080;
  }

  // ---- the words of particular entries ----

  /** Only the blank entry is the zero word. */
  lemma ZeroWord(e: PageEnt)
    ensures Word(e) == 0 <==> e == ZERO_ENT
  {
    if Word(e) == 0 {
      hide BitsWord, Weight;
      forall b: PeBit ensures b !in e.bits {
        BitAt(e.bits, b);
      }
      assert e.bits == {};
    }
  }

  lemma BitsAdd(s: set<PeBit>, b: PeBit)
    requires b !in s
    ensures BitsWord(s + {b}) == BitsWord(s) + Weight(b)
  {
    hide BitIn;
    BitInAdd(s, b);
  }

  lemma BitInAdd(s: set<PeBit>, b: PeBit)
    requires b !in s
    ensures BitIn(b, s) == 0
    ensures forall x: PeBit {:trigger BitIn(x, s + {b})} :: BitIn(x, s + {b}) == if x == b then 1 else BitIn(x, s)
  {}

  /** Clearing PRESENT takes bit 0 off the word and leaves the rest. */
  lemma ClearPresentWord(e: PageEnt)
    ensures Word(e.ClearPresent()) == if e.Present() then Word(e) - 1 else Word(e)
  {
    hide BitsWord;
    if e.Present() {
      var rest := e.bits - {PePresent};
      BitsAdd(rest, PePresent);
      assert rest + {PePresent} == e.bits;
    } else {
      assert e.bits - {PePresent} == e.bits;
    }
  }

  /** cr_amd64_init_page_ent as words: PRESENT and the requested bits, the frame number in the field that
      goes with the level, NX in bit 63. */
  lemma InitWord(pfn: nat, a: Attr, level: nat, mapDirect: bool)
    requires PePresent !in a.extra && PePageSize !in a.extra
    ensures var w, nx := Word(InitPageEnt(pfn, a, level, mapDirect)), if a.nx then 0x8000_0000_0000_0000 else 0;
            w == if mapDirect && level == 3 then 0x81 + BitsWord(a.extra) + pfn % 0x40_0000 * 0x4000_0000 + nx
                 else if mapDirect && level == 2 then 0x81 + BitsWord(a.extra) + pfn % 0x8000_0000 * 0x20_0000 + nx
                 else 0x01 + BitsWord(a.extra) + pfn % 0x100_0000_0000 * 0x1000 + nx
    ensures Packed(InitPageEnt(pfn, a, level, mapDirect))
  {
    hide BitsWord;
    BitsAdd(a.extra, PePresent);
    BitsAdd(a.extra + {PePresent}, PePageSize);
    assert {PePresent} + a.extra == a.extra + {PePresent};
    assert {PePresent, PePageSize} + a.extra == a.extra + {PePresent} + {PePageSize};
  }

  /** An ordinary entry for a frame that its field can hold. */
  lemma EntWord(pfn: nat, a: Attr)
    requires pfn < 0x100_0000_0000 && PePresent !in a.extra && PePageSize !in a.extra
    ensures Word(Ent(pfn, a)) ==
            0x01 + BitsWord(a.extra) + pfn * 0x1000 + (if a.nx then 0x8000_0000_0000_0000 else 0)
  {
    InitWord(pfn, a, LVL_PML4, false);
  }

  /** The 1G and the 2M reading of an entry: 22 bits from bit 30, 31 bits from bit 21. */
  lemma LargeFields(e: PageEnt)
    requires Packed(e)
    ensures Word(e) / 0x4000_0000 % 0x40_0000 == e.pfn / 0x4_0000
    ensures Word(e) / 0x20_0000 % 0x8000_0000 == e.pfn / 0x200
  {
    hide BitsWord;
    var nx := if e.nx then 1 else 0;
    BitsSmall(e.bits);
    var lo := BitsWord(e.bits) + e.avl0 * 0x200;
    Field(Word(e), lo + e.pfn % 0x4_0000 * 0x1000, 0x4000_0000, e.pfn / 0x4_0000, 0x40_0000, e.avl3 + 0x800 * nx);
    Field(Word(e), lo + e.pfn % 0x200 * 0x1000, 0x20_0000, e.pfn / 0x200, 0x8000_0000, e.avl3 + 0x800 * nx);
  }
}
