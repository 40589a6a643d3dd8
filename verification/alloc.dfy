/** The two packers of the host layer: the bump allocator and the list of reserved frames. */
module Alloc {
  import opened MapDef
  import opened KernelEnv

  function PageOf(addr: nat): nat { addr / PAGE_SIZE * PAGE_SIZE }

  /** A block of bytes. */
  datatype Block = Block(addr: nat, len: nat)
  {
    predicate Disjoint(b: Block) { addr + len <= b.addr || b.addr + b.len <= addr }

    /** Inside one of the given pages. */
    predicate Inside(pages: set<nat>) { PageOf(addr) in pages && addr % PAGE_SIZE + len <= PAGE_SIZE }
  }

  /** What cr_host_malloc returns and leaves behind, `page` being the kernel's answer when asked. */
  datatype MallocResult = MallocResult(p: nat, tail: nat, rem: nat)

  function MallocStep(tail: nat, rem: nat, count: nat, page: nat): MallocResult {
    if count >= PAGE_SIZE then MallocResult(0, tail, rem)
    else if count > rem && page == 0 then MallocResult(0, 0, PAGE_SIZE)
    else
      var t, r := if count > rem then page else tail, if count > rem then PAGE_SIZE else rem;
      if count < r then MallocResult(t, t + count, r - count) else MallocResult(t, t, 0)
  }

  /** The free rest lies in a real page after a request exactly when the request did not ask the
      kernel in vain. After a vain one the next request is refused although nothing failed for it,
      and the one after that gets an address in the never allocated page 0. */
  lemma MallocNeedsItsPage(tail: nat, rem: nat, count: nat, page: nat, next: nat)
    requires rem > 0 ==> PageOf(tail) > 0
    requires tail % PAGE_SIZE + rem <= PAGE_SIZE && page % PAGE_SIZE == 0
    requires 0 < next && 2 * next <= PAGE_SIZE
    ensures var s1 := MallocStep(tail, rem, count, page);
            (s1.rem > 0 ==> PageOf(s1.tail) > 0) <==> !(rem < count < PAGE_SIZE && page == 0)
    ensures rem < count < PAGE_SIZE && page == 0 ==>
              var s1 := MallocStep(tail, rem, count, page);
              var s2 := MallocStep(s1.tail, s1.rem, next, page);
              var s3 := MallocStep(s2.tail, s2.rem, next, page);
              s2.p == 0 && s3.p == next && PageOf(s3.p) == 0
  {
    var s1 := MallocStep(tail, rem, count, page);
    if s1.rem > 0 && count <= rem {
      assert s1.tail / PAGE_SIZE == tail / PAGE_SIZE;
    }
  }

  /** Blocks handed out are pairwise disjoint, inside the pages, and clear of the free rest
      [tail, tail + rem), which ends where its page ends. */
  ghost predicate SoundBlocks(blocks: seq<Block>, pages: set<nat>, tail: nat, rem: nat) {
    && 0 !in pages
    && (rem > 0 ==> tail > 0 && PageOf(tail) in pages && tail % PAGE_SIZE + rem == PAGE_SIZE)
    && (rem > 0 ==> forall i | 0 <= i < |blocks| :: blocks[i].Disjoint(Block(tail, rem)))
    && (forall i | 0 <= i < |blocks| :: blocks[i].Inside(pages))
    && (forall i, j | 0 <= i < j < |blocks| :: blocks[i].Disjoint(blocks[j]))
  }

  /** A page the kernel has just handed out touches nothing in earlier pages. */
  lemma FreshPage(blocks: seq<Block>, pages: set<nat>, tail: nat, rem: nat, page: nat)
    requires SoundBlocks(blocks, pages, tail, rem)
    requires page !in pages && page % PAGE_SIZE == 0 && page > 0
    ensures SoundBlocks(blocks, pages + {page}, page, PAGE_SIZE)
  {
    forall i | 0 <= i < |blocks| ensures blocks[i].Disjoint(Block(page, PAGE_SIZE)) {
      assert PageOf(blocks[i].addr) in pages;
    }
  }

  /** Taking `count` bytes off the front of the free rest. */
  lemma Carve(blocks: seq<Block>, pages: set<nat>, tail: nat, rem: nat, count: nat)
    requires SoundBlocks(blocks, pages, tail, rem) && 0 < count <= rem
    ensures SoundBlocks(blocks + [Block(tail, count)], pages, tail + count, rem - count)
  {
    var bs, b := blocks + [Block(tail, count)], Block(tail, count);
    assert b.Inside(pages);
    assert forall i | 0 <= i < |blocks| :: bs[i] == blocks[i] && blocks[i].Disjoint(Block(tail, rem));
  }

  class MallocState {
    var tail: nat
    var rem: nat
    ghost var blocks: seq<Block>   // every non-empty block handed out
    ghost var pages: set<nat>

    constructor ()
      ensures Sound() && blocks == [] && pages == {}
    {
      tail, rem, blocks, pages := 0, 0, [], {};
    }

    ghost predicate Sound()
      reads this
    {
      SoundBlocks(blocks, pages, tail, rem)
    }

    /** Take a new page as the free rest; `rem` is set even when there is no page. */
    method Refill(kern: Kernel)
      requires kern.Valid() && Sound() && pages <= kern.frameOf.Keys
      modifies this, kern
      ensures kern.Valid() && pages <= kern.frameOf.Keys && kern.Extends(old(kern.frameOf))
      ensures rem == PAGE_SIZE && blocks == old(blocks) && OnlyNew(old(pages), pages, old(kern.frameOf.Keys))
      ensures tail != 0 ==> Sound() && kern.failed == old(kern.failed)
      ensures tail == 0 ==> kern.failed
    {
      rem := PAGE_SIZE;
      var page;
      tail, page := kern.VMalloc();
      if tail != 0 {
        FreshPage(blocks, pages, old(tail), old(rem), tail);
        pages := pages + {tail};
      }
    }

    /** cr_host_malloc; `count` is the number of items times their size, `page` the kernel's answer
        if it was asked. */
    method Malloc(kern: Kernel, count: nat) returns (p: nat, ghost page: nat)
      requires kern.Valid() && Sound() && pages <= kern.frameOf.Keys
      modifies this, kern
      ensures kern.Valid() && pages <= kern.frameOf.Keys && kern.Extends(old(kern.frameOf))
      ensures OnlyNew(old(pages), pages, old(kern.frameOf.Keys))
      ensures MallocResult(p, tail, rem) == MallocStep(old(tail), old(rem), count, page)
      ensures 0 < count < PAGE_SIZE && p == 0 ==> kern.failed
      ensures p != 0 ==> Sound() && kern.failed == old(kern.failed)
      ensures old(kern.failed) ==> kern.failed
      ensures blocks == old(blocks) + (if count > 0 && p != 0 then [Block(p, count)] else [])
    {
      page := 0;
      if count >= PAGE_SIZE {
        return 0, page;
      } else if count > rem {
        Refill(kern);
        page := tail;
        if tail == 0 {
          return 0, page;
        }
      }
      p := tail;
      if count > 0 {
        Carve(blocks, pages, tail, rem, count);
        blocks := blocks + [Block(p, count)];
      }
      if count < rem {
        rem := rem - count;
        tail := tail + count;
      } else {
        rem := 0;
      }
    }
  }

  // ---- the reserved-frame list ----

  /** Distance between two list nodes in a page: link and item, made a multiple of 8 by rounding
      down and keeping the low byte only. */
  function Stride(itemSize: nat): nat {
    if (8 + itemSize) % 8 != 0 then (8 + itemSize) % 256 / 8 * 8 else 8 + itemSize
  }

  /** Two successive nodes do not overlap exactly when the item size is a multiple of 8. */
  lemma StrideHoldsNode(itemSize: nat)
    ensures Stride(itemSize) >= 8 + itemSize <==> itemSize % 8 == 0
  {}

  class LItem {
    const addr: nat
    var next: LItem?
    var pfn: nat

    constructor (addr: nat, pfn: nat)
      ensures this.addr == addr && this.pfn == pfn && next == null
    {
      this.addr, this.pfn, next := addr, pfn, null;
    }
  }

  class RsvdList {
    const itemSize: nat
    var head: LItem?
    var pageCur: nat
    var pageOff: nat
    ghost var items: seq<LItem>
    ghost var pfns: seq<nat>       // the frames listed, in append order
    ghost var blocks: seq<Block>   // where each node lies
    ghost var pages: set<nat>

    constructor (itemSize: nat)
      requires itemSize % 8 == 0 && 8 + itemSize <= PAGE_SIZE
      ensures Chain() && Packed() && pfns == [] && items == [] && pages == {} && this.itemSize == itemSize
    {
      this.itemSize := itemSize;
      head, pageCur, pageOff := null, 0, 0;
      items, pfns, blocks, pages := [], [], [], {};
    }

    /** The nodes linked from `head` are `items`, carrying `pfns`. */
    ghost predicate Chain()
      reads this`head, this`items, this`pfns, this`blocks, items
    {
      && |pfns| == |items| == |blocks|
      && head == (if items == [] then null else items[0])
      && (forall i {:trigger items[i].next} | 0 <= i < |items| ::
            items[i].next == if i + 1 < |items| then items[i + 1] else null)
      && (forall i {:trigger items[i].pfn} | 0 <= i < |items| :: items[i].pfn == pfns[i])
      && (forall i {:trigger items[i].addr} | 0 <= i < |items| :: Block(items[i].addr, 8 + itemSize) == blocks[i])
      && (forall i, j | 0 <= i < j < |items| :: items[i] != items[j])
    }

    ghost predicate Packed()
      reads this`head, this`pageCur, this`pageOff, this`blocks, this`pages
    {
      && itemSize % 8 == 0 && 8 + itemSize <= PAGE_SIZE && pageOff <= PAGE_SIZE
      && (head != null ==> pageCur > 0 && pageCur % PAGE_SIZE == 0 && pageCur in pages)
      && SoundBlocks(blocks, pages, pageCur + pageOff, FreeRest())
    }

    ghost function Items(): set<LItem>
      reads this`items
    {
      set li | li in items
    }

    ghost function FreeRest(): nat
      reads this`head, this`pageOff
    {
      if head == null || pageOff > PAGE_SIZE then 0 else PAGE_SIZE - pageOff
    }

    /** Hang a new node on the last one, found by following the links. */
    method LinkLast(li: LItem)
      requires Chain() && li !in items && li.next == null
      modifies this`head, this`items, this`pfns, this`blocks, items
      ensures Chain() && head != null
      ensures items == old(items) + [li] && pfns == old(pfns) + [li.pfn]
      ensures blocks == old(blocks) + [Block(li.addr, 8 + itemSize)]
    {
      if head == null {
        head := li;
      } else {
        var last := head;
        ghost var i := 0;
        while last.next != null
          invariant 0 <= i < |items| && last == items[i]
          decreases |items| - i
        {
          last, i := last.next, i + 1;
        }
        last.next := li;
      }
      items, pfns, blocks := items + [li], pfns + [li.pfn], blocks + [Block(li.addr, 8 + itemSize)];
    }

    /** Reserve a stride of bytes, in a new page when the current one has no room. */
    method Reserve(kern: Kernel, stride: nat) returns (err: int, addr: nat)
      requires kern.Valid() && Packed() && pages <= kern.frameOf.Keys && stride == 8 + itemSize
      modifies this`pageCur, this`pageOff, this`pages, kern
      ensures kern.Valid() && pages <= kern.frameOf.Keys && kern.Extends(old(kern.frameOf))
      ensures OnlyNew(old(pages), pages, old(kern.frameOf.Keys))
      ensures err != 0 ==> err == ENOMEM && kern.failed && Packed()
      ensures err == 0 ==> kern.failed == old(kern.failed) && pageOff <= PAGE_SIZE
      ensures err == 0 ==> pageCur > 0 && pageCur % PAGE_SIZE == 0 && pageCur in pages
      ensures err == 0 ==>
                SoundBlocks(blocks + [Block(addr, stride)], pages, pageCur + pageOff, PAGE_SIZE - pageOff)
    {
      if head == null || stride > PAGE_SIZE - pageOff {
        var p, page := kern.VMalloc();
        if p == 0 {
          return ENOMEM, 0;
        }
        FreshPage(blocks, pages, pageCur + pageOff, FreeRest(), p);
        pageCur, pageOff, pages := p, 0, pages + {p};
      }
      addr := pageCur + pageOff;
      Carve(blocks, pages, addr, PAGE_SIZE - pageOff, stride);
      pageOff := pageOff + stride;
      return 0, addr;
    }

    /** cr_host_list_append followed by the initialisation of the item. */
    method Append(kern: Kernel, pfn: nat) returns (err: int)
      requires kern.Valid() && Chain() && Packed() && pages <= kern.frameOf.Keys
      modifies this, Items(), kern
      ensures kern.Valid() && pages <= kern.frameOf.Keys && kern.Extends(old(kern.frameOf))
      ensures Chain() && Packed() && OnlyNew(old(pages), pages, old(kern.frameOf.Keys))
      ensures err == 0 ==> pfns == old(pfns) + [pfn] && kern.failed == old(kern.failed)
      ensures err == 0 ==> fresh(Items() - old(Items()))
      ensures err != 0 ==> err == ENOMEM && kern.failed && pfns == old(pfns) && items == old(items)
    {
      var addr: nat;
      err, addr := Reserve(kern, Stride(itemSize));
      if err == 0 {
        var li := new LItem(addr, pfn);
        LinkLast(li);
      }
    }
  }
}
