/** The environment: the kernel's page allocator and its virtual-to-physical map. Nothing is
    known about it but this contract: a page it hands out is new and lies in a frame that no
    other live page and no pinned frame (module image, VGA window) occupies. */
module KernelEnv {
  import opened MapDef

  /** A set of pages has only grown by pages that were not live before. */
  predicate OnlyNew(was: set<nat>, now: set<nat>, live: set<nat>) {
    was <= now && (now - was) !! live
  }

  lemma OnlyNewTrans(a: set<nat>, b: set<nat>, c: set<nat>, live: set<nat>, later: set<nat>)
    requires OnlyNew(a, b, live) && OnlyNew(b, c, later) && live <= later
    ensures OnlyNew(a, c, live)
  {}

  /** Three owners share no page. */
  predicate Separate(a: set<nat>, b: set<nat>, c: set<nat>) { a !! b && a !! c && b !! c }

  class Kernel {
    const pinned: set<nat>
    var frameOf: map<nat, nat>   // live pages: address to frame
    ghost var failed: bool       // some allocation has failed

    constructor (pinned: set<nat>)
      ensures Valid() && this.pinned == pinned && frameOf == map[] && !failed
    {
      this.pinned, frameOf, failed := pinned, map[], false;
    }

    ghost predicate Valid()
      reads this
    {
      forall p {:trigger frameOf[p]} | p in frameOf ::
        0 < p < VA_LIMIT && p % PAGE_SIZE == 0 && frameOf[p] < PFN_LIMIT && frameOf[p] !in pinned
    }

    /** Pages that were live still are, in the same frames. */
    ghost predicate Extends(was: map<nat, nat>)
      reads this
    {
      was.Keys <= frameOf.Keys && forall p {:trigger frameOf[p]} {:trigger was[p]} | p in was :: frameOf[p] == was[p]
    }

    /** cr_host_vmalloc of one page, and the page's contents after the memset; 0 when the kernel has
        none to give. */
    method VMalloc() returns (p: nat, page: seq<PageEnt>)
      requires Valid()
      modifies this
      ensures Valid()
      ensures p == 0 ==> failed && frameOf == old(frameOf)
      ensures p != 0 ==> page == ZeroTable()
      ensures p != 0 ==> failed == old(failed) && p !in old(frameOf) && p in frameOf
      ensures p != 0 ==> frameOf == old(frameOf)[p := frameOf[p]] && frameOf[p] !in old(frameOf.Values)
    {
      var used := frameOf.Values + pinned;
      page := ZeroTable();
      if * {
        p, failed := 0, true;
      } else if exists q, f: nat ::
                  0 < q < VA_LIMIT / PAGE_SIZE && 0 <= f < PFN_LIMIT && q * PAGE_SIZE !in frameOf && f !in used {
        var q, f: nat :| 0 < q < VA_LIMIT / PAGE_SIZE && 0 <= f < PFN_LIMIT && q * PAGE_SIZE !in frameOf && f !in used;
        p := q * PAGE_SIZE;
        frameOf := frameOf[p := f];
      } else {
        p, failed := 0, true;
      }
    }
  }
}
