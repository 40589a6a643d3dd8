/** The 4-level radix tree from page frame numbers to what is known about a frame: the address
    of the page table it holds, and the addresses it is mapped at as RAM or as image page. */
module PfnIndex {
  import opened MapDef
  import opened PageTables
  import opened KernelEnv
  import opened Alloc

  datatype Kind = PageTable | RamPage | RsvdPage

  /** The finite maps the tree stands for: frame number to address, one for each kind. */
  datatype Facts = Facts(pt: map<nat, nat>, ram: map<nat, nat>, rsvd: map<nat, nat>)
  {
    function Of(kind: Kind): map<nat, nat> {
      match kind
      case PageTable => pt
      case RamPage => ram
      case RsvdPage => rsvd
    }

    function With(kind: Kind, key: nat, v: nat): (r: Facts)
      ensures forall q {:trigger r.Of(q)} :: r.Of(q) == if q == kind then Of(q)[key := v] else Of(q)
    {
      match kind
      case PageTable => this.(pt := pt[key := v])
      case RamPage => this.(ram := ram[key := v])
      case RsvdPage => this.(rsvd := rsvd[key := v])
    }
  }

  const NO_FACTS: Facts := Facts(map[], map[], map[])

  const LEAF_SIZE: nat := 28

  /** A leaf in memory, packed: a 4-byte type, then the three addresses. */
  datatype LeafField = TypeField | VaField(kind: Kind)

  function FieldAt(f: LeafField): Block {
    match f
    case TypeField => Block(0, 4)
    case VaField(PageTable) => Block(4, 8)
    case VaField(RamPage) => Block(12, 8)
    case VaField(RsvdPage) => Block(20, 8)
  }

  /** The fields follow one another without a gap, and the last one ends where the leaf does. */
  lemma LeafLayout()
    ensures FieldAt(VaField(PageTable)).addr == FieldAt(TypeField).addr + FieldAt(TypeField).len
    ensures FieldAt(VaField(RamPage)).addr == FieldAt(VaField(PageTable)).addr + FieldAt(VaField(PageTable)).len
    ensures FieldAt(VaField(RsvdPage)).addr == FieldAt(VaField(RamPage)).addr + FieldAt(VaField(RamPage)).len
    ensures FieldAt(TypeField).addr == 0
    ensures FieldAt(VaField(RsvdPage)).addr + FieldAt(VaField(RsvdPage)).len == LEAF_SIZE
  {}

  /** Where a field of the leaf at an address is. */
  function FieldOf(addr: nat, f: LeafField): Block { Block(addr + FieldAt(f).addr, FieldAt(f).len) }

  lemma FieldsDisjoint(a: nat, f: LeafField, b: nat, g: LeafField)
    requires if a == b then f != g else Block(a, LEAF_SIZE).Disjoint(Block(b, LEAF_SIZE))
    ensures FieldOf(a, f).Disjoint(FieldOf(b, g))
  {}

  class TreeLeaf {
    const addr: nat
    var kinds: set<Kind>
    var vaPt: nat
    var vaRam: nat
    var vaRsvd: nat

    constructor (addr: nat)
      ensures this.addr == addr && kinds == {}
    {
      this.addr := addr;
      kinds, vaPt, vaRam, vaRsvd := {}, 0, 0, 0;
    }

    function Va(kind: Kind): nat
      reads this
    {
      match kind
      case PageTable => vaPt
      case RamPage => vaRam
      case RsvdPage => vaRsvd
    }
  }

  const RSVD_ITEM_SIZE: nat := 8   // the one field of an item, a frame number

  /** A node of the list of reserved frames: the link, then the item. */
  function LinkAt(): Block { Block(0, 8) }
  function PfnAt(): Block { Block(8, 8) }

  lemma ItemLayout()
    ensures LinkAt().addr == 0 && PfnAt().addr == LinkAt().addr + LinkAt().len
    ensures PfnAt().addr + PfnAt().len == 8 + RSVD_ITEM_SIZE
  {}

  /** A slot of a tree node: empty, the next node down, or a leaf. */
  datatype Slot = Null | ToNode(node: array<Slot>) | ToLeaf(leaf: TreeLeaf)

  /** The index a frame number has in the node of a given level. */
  function PfnIdx(pfn: nat, level: nat): nat {
    if level == 4 then pfn / 0x800_0000 % 512
    else if level == 3 then pfn / 0x4_0000 % 512
    else if level == 2 then pfn / 0x200 % 512
    else pfn % 512
  }

  /** Frame numbers are told apart by their low 36 bits. */
  function PfnKey(pfn: nat): nat { pfn % PFN_LIMIT }

  lemma PfnIdxOfKey(pfn: nat, level: nat)
    requires 1 <= level <= 4
    ensures PfnIdx(pfn, level) == Up(PfnKey(pfn), level - 1) % 512
  {
    UpHigh(pfn % PFN_LIMIT, pfn / PFN_LIMIT, level - 1);
  }

  function NullSlots(): (s: seq<Slot>)
    ensures |s| == 512 && forall i | 0 <= i < 512 :: s[i] == Null
  {
    seq(512, i => Null)
  }

  /** The nodes of the tree by level and frame-number prefix, what their slots hold, and in which page
      each node below the root lies. */
  datatype Shape = Shape(dir: map<Key, array<Slot>>, slots: map<Key, seq<Slot>>, at: map<Key, nat>)
  {
    /** Node `k` hangs in its parent. */
    ghost predicate Hangs(k: Key) {
      && k in dir && k.Parent() in slots
      && k.prefix % 512 < |slots[k.Parent()]|
      && slots[k.Parent()][k.prefix % 512] == ToNode(dir[k])
    }

    /** Slot i of node `k` leads to a node, or says exactly which leaf there is. */
    ghost predicate SlotOk(leaves: map<nat, TreeLeaf>, k: Key, i: nat) {
      k in slots && i < |slots[k]| && k.level >= 1 ==>
        if k.level >= 2 then slots[k][i] != Null ==> k.Child(i) in dir
        else slots[k][i] == if k.prefix * 512 + i in leaves then ToLeaf(leaves[k.prefix * 512 + i]) else Null
    }

    /** Each node below the root has a page of its own. */
    ghost predicate Housed() {
      && at.Keys == dir.Keys - {ROOT}
      && forall k, q {:trigger at[k], at[q]} | k in at && q in at && at[k] == at[q] :: k == q
    }

    /** Nodes form a tree below the root and lead to exactly the leaves. */
    ghost predicate Tree(leaves: map<nat, TreeLeaf>) {
      && ROOT in dir && dir.Keys == slots.Keys && Housed()
      && (forall k {:trigger dir[k]} {:trigger slots[k]} | k in dir :: IsKey(k) && |slots[k]| == 512)
      && (forall k {:trigger Hangs(k)} | k in dir && k != ROOT :: Hangs(k))
      && (forall k, i: nat {:trigger SlotOk(leaves, k, i)} | k in dir :: SlotOk(leaves, k, i))
      && (forall p {:trigger leaves[p]} {:trigger p in leaves} | p in leaves :: p < PFN_LIMIT && TableKey(p, 1) in dir)
    }

    function Grown(k: Key, i: nat, n: array<Slot>, page: nat): Shape
      requires k in slots && i < |slots[k]| && k.level >= 1
    {
      Shape(dir[k.Child(i) := n], slots[k := slots[k][i := ToNode(n)]][k.Child(i) := NullSlots()],
            at[k.Child(i) := page])
    }

    function Planted(p: nat, leaf: TreeLeaf): Shape
      requires TableKey(p, 1) in slots && p % 512 < |slots[TableKey(p, 1)]|
    {
      Shape(dir, slots[TableKey(p, 1) := slots[TableKey(p, 1)][p % 512 := ToLeaf(leaf)]], at)
    }
  }

  /** The root alone, empty, is a tree without leaves. */
  lemma BareTree(root: array<Slot>, slots: seq<Slot>)
    requires |slots| == 512 && forall i | 0 <= i < 512 :: slots[i] == Null
    ensures Shape(map[ROOT := root], map[ROOT := slots], map[]).Tree(map[])
  {}

  lemma EmptySlotHasNoNode(s: Shape, leaves: map<nat, TreeLeaf>, k: Key, i: nat)
    requires s.Tree(leaves) && k in s.dir && k.level >= 2 && i < 512 && s.slots[k][i] == Null
    ensures k.Child(i) !in s.dir
  {
    ChildParent(k, i);
    assert k.Child(i) in s.dir ==> s.Hangs(k.Child(i));
  }

  lemma GrownHangs(s: Shape, leaves: map<nat, TreeLeaf>, k: Key, i: nat, n: array<Slot>, page: nat, q: Key)
    requires s.Tree(leaves) && k in s.dir && k.level >= 2 && i < 512 && k.Child(i) !in s.dir
    requires q != ROOT && (q in s.dir || q == k.Child(i))
    ensures s.Grown(k, i, n, page).Hangs(q)
  {
    ChildParent(k, i);
    if q in s.dir {
      assert s.Hangs(q);
    }
  }

  lemma GrownSlotOk(s: Shape, leaves: map<nat, TreeLeaf>, k: Key, i: nat, n: array<Slot>, page: nat, q: Key, j: nat)
    requires s.Tree(leaves) && k in s.dir && k.level >= 2 && i < 512 && k.Child(i) !in s.dir
    requires q in s.dir || q == k.Child(i)
    ensures s.Grown(k, i, n, page).SlotOk(leaves, q, j)
  {
    if q in s.dir {
      assert s.SlotOk(leaves, q, j);
    } else if q.level == 1 && j < 512 {
      assert TableKey(q.prefix * 512 + j, 1) == q;
    }
  }

  lemma GrownHoused(s: Shape, k: Key, i: nat, n: array<Slot>, page: nat)
    requires s.Housed() && page !in s.at.Values && k.level >= 1 && k in s.slots && i < |s.slots[k]|
    requires k.Child(i) !in s.dir && k.Child(i) != ROOT
    ensures s.Grown(k, i, n, page).Housed()
    ensures s.Grown(k, i, n, page).at.Values == s.at.Values + {page}
  {
    var t := s.Grown(k, i, n, page);
    forall q | q in s.at ensures s.at[q] != page { assert s.at[q] in s.at.Values; }
    forall p ensures p in t.at.Values <==> p in s.at.Values + {page} {
      if p in s.at.Values {
        var q :| q in s.at && s.at[q] == p;
        assert t.at[q] == p;
      }
      if p == page { assert t.at[k.Child(i)] == page; }
    }
  }

  lemma GrownIsTree(s: Shape, leaves: map<nat, TreeLeaf>, k: Key, i: nat, n: array<Slot>, page: nat)
    requires s.Tree(leaves) && k in s.dir && k.level >= 2 && i < 512 && s.slots[k][i] == Null
    requires page !in s.at.Values
    ensures k.Child(i) !in s.dir && s.Grown(k, i, n, page).Tree(leaves)
    ensures s.Grown(k, i, n, page).at.Values == s.at.Values + {page}
  {
    var t := s.Grown(k, i, n, page);
    EmptySlotHasNoNode(s, leaves, k, i);
    GrownHoused(s, k, i, n, page);
    forall q | q in t.dir && q != ROOT ensures t.Hangs(q) {
      GrownHangs(s, leaves, k, i, n, page, q);
    }
    forall q, j: nat | q in t.dir ensures t.SlotOk(leaves, q, j) {
      GrownSlotOk(s, leaves, k, i, n, page, q, j);
    }
  }

  lemma PlantedSlotOk(s: Shape, leaves: map<nat, TreeLeaf>, p: nat, leaf: TreeLeaf, q: Key, j: nat)
    requires s.Tree(leaves) && TableKey(p, 1) in s.dir && q in s.dir
    ensures s.Planted(p, leaf).SlotOk(leaves[p := leaf], q, j)
  {
    assert s.SlotOk(leaves, q, j);
    if q.level == 1 && j < 512 && q.prefix * 512 + j == p {
      assert q == TableKey(p, 1);
    }
  }

  lemma PlantedIsTree(s: Shape, leaves: map<nat, TreeLeaf>, p: nat, leaf: TreeLeaf)
    requires s.Tree(leaves) && TableKey(p, 1) in s.dir && p < PFN_LIMIT
    ensures s.Planted(p, leaf).Tree(leaves[p := leaf])
  {
    var t, more := s.Planted(p, leaf), leaves[p := leaf];
    forall q | q in t.dir && q != ROOT ensures t.Hangs(q) {
      assert s.Hangs(q);
    }
    forall q, j: nat | q in t.dir ensures t.SlotOk(more, q, j) {
      PlantedSlotOk(s, leaves, p, leaf, q, j);
    }
  }

  /** A leaf is reached through nodes on every level. */
  lemma PathOfLeaf(s: Shape, leaves: map<nat, TreeLeaf>, p: nat)
    requires s.Tree(leaves) && p in leaves
    ensures TableKey(p, 1) in s.dir && TableKey(p, 2) in s.dir && TableKey(p, 3) in s.dir
  {
    ChildOfTableKey(p, 2);
    ChildOfTableKey(p, 3);
    assert s.Hangs(TableKey(p, 1)) && s.Hangs(TableKey(p, 2));
  }

  /** The allocator has handed out one block for each leaf, of a leaf's size, and no others. */
  ghost predicate LeafBlocks(leaves: map<nat, TreeLeaf>, planted: seq<nat>, blocks: seq<Block>) {
    && |planted| == |blocks|
    && (forall i {:trigger planted[i]} {:trigger blocks[i]} | 0 <= i < |planted| ::
          planted[i] in leaves && blocks[i] == Block(leaves[planted[i]].addr, LEAF_SIZE))
    && (forall i, j {:trigger planted[i], planted[j]} | 0 <= i < j < |planted| :: planted[i] != planted[j])
    && (forall p {:trigger p in planted} | p in leaves :: p in planted)
  }

  lemma LeafBlocksMore(leaves: map<nat, TreeLeaf>, planted: seq<nat>, blocks: seq<Block>, key: nat, leaf: TreeLeaf)
    requires LeafBlocks(leaves, planted, blocks) && key !in leaves
    ensures LeafBlocks(leaves[key := leaf], planted + [key], blocks + [Block(leaf.addr, LEAF_SIZE)])
  {
    var more := leaves[key := leaf];
    forall p | p in more ensures p in planted + [key] {
      assert p in leaves ==> p in planted;
    }
  }

  lemma HeapGrows(heap: set<nat>, more: set<nat>, list: set<nat>, nodes: set<nat>, live: set<nat>)
    requires Separate(heap, list, nodes) && heap <= live && list <= live && nodes <= live && OnlyNew(heap, more, live)
    ensures Separate(more, list, nodes) && OnlyNew(heap + list + nodes, more + list + nodes, live)
  {}

  lemma ListGrows(heap: set<nat>, list: set<nat>, more: set<nat>, nodes: set<nat>, live: set<nat>)
    requires Separate(heap, list, nodes) && heap <= live && list <= live && nodes <= live && OnlyNew(list, more, live)
    ensures Separate(heap, more, nodes) && OnlyNew(heap + list + nodes, heap + more + nodes, live)
  {}

  lemma NodesGrow(heap: set<nat>, list: set<nat>, nodes: set<nat>, more: set<nat>, live: set<nat>)
    requires Separate(heap, list, nodes) && heap <= live && list <= live && nodes <= live && OnlyNew(nodes, more, live)
    ensures Separate(heap, list, more) && OnlyNew(heap + list + nodes, heap + list + more, live)
  {}

  class Index {
    const root: array<Slot>
    const heap: MallocState
    const lrsvd: RsvdList
    ghost var shape: Shape
    ghost var leaves: map<nat, TreeLeaf>    // every leaf, by frame number
    ghost var planted: seq<nat>             // frames that have a leaf, in the order of their leaves
    ghost var facts: Facts                  // what the tree stands for
    ghost var listed: seq<nat>              // the reserved frames, in order
    ghost var pages: set<nat>               // pages of the allocator, the list and the nodes
    ghost var Repr: set<object>

    /** The zeroed tree root, and an allocator and a list that have not been used. */
    constructor (root: array<Slot>, heap: MallocState, lrsvd: RsvdList)
      requires root.Length == 512 && forall i | 0 <= i < 512 :: root[i] == Null
      requires heap.Sound() && heap.pages == {} && heap.blocks == []
      requires lrsvd.Chain() && lrsvd.Packed() && lrsvd.pages == {} && lrsvd.pfns == []
      requires lrsvd.itemSize == RSVD_ITEM_SIZE
      ensures Valid() && facts == NO_FACTS && listed == [] && pages == {}
      ensures Repr == {heap, lrsvd, root}
    {
      this.root, this.heap, this.lrsvd := root, heap, lrsvd;
      leaves, planted, facts := map[], [], NO_FACTS;
      shape := Shape(map[ROOT := root], map[ROOT := root[..]], map[]);
      listed, pages, Repr := [], {}, {heap, lrsvd, root};
      new;
      BareTree(root, root[..]);
    }

    ghost function Nodes(): set<array<Slot>>
      reads this`shape
    {
      shape.dir.Values
    }

    /** The arrays hold what the shape says. */
    ghost predicate Mirrored()
      reads this`shape, Nodes()
    {
      && ROOT in shape.dir && shape.dir[ROOT] == root
      && (forall k, q {:trigger shape.dir[k], shape.dir[q]} |
            k in shape.dir && q in shape.dir && shape.dir[k] == shape.dir[q] :: k == q)
      && forall k {:trigger shape.dir[k]} | k in shape.dir ::
           k in shape.slots && shape.dir[k].Length == 512 && shape.dir[k][..] == shape.slots[k]
    }

    /** What the leaves say is what `facts` says. */
    ghost predicate Tells()
      reads this`leaves, this`facts, leaves.Values
    {
      && (forall p, q {:trigger leaves[p], leaves[q]} | p in leaves && q in leaves && leaves[p] == leaves[q] :: p == q)
      && forall kind, p {:trigger p in facts.Of(kind)} ::
           && (p in facts.Of(kind) <==> p in leaves && kind in leaves[p].kinds)
           && (p in facts.Of(kind) ==> facts.Of(kind)[p] == leaves[p].Va(kind))
    }

    /** Every leaf lies in a block of the allocator that is its own. */
    ghost predicate Seated()
      reads this`leaves, this`planted, heap
    {
      heap.Sound() && LeafBlocks(leaves, planted, heap.blocks)
    }

    ghost predicate Parts()
      reads this`shape, this`leaves, this`planted, this`facts, Nodes(), leaves.Values, heap, lrsvd, lrsvd.Items()
    {
      && shape.Tree(leaves) && Mirrored() && Tells() && Seated()
      && lrsvd.Chain() && lrsvd.Packed() && lrsvd.itemSize == RSVD_ITEM_SIZE
    }

    ghost predicate Owns()
      reads this, lrsvd
    {
      && heap in Repr && lrsvd in Repr && this !in Repr
      && (forall n | n in Nodes() :: n in Repr)
      && (forall l | l in leaves.Values :: l in Repr)
      && (forall li | li in lrsvd.Items() :: li in Repr)
    }

    ghost predicate Valid()
      reads this, Repr
    {
      && heap in Repr && lrsvd in Repr && Owns() && Parts()
      && listed == lrsvd.pfns && pages == heap.pages + lrsvd.pages + shape.at.Values
      && Separate(heap.pages, lrsvd.pages, shape.at.Values)
    }

    /** The leaves of two frames lie in the allocator's live pages and share no byte, and no field of
        either lies on a field of the other. */
    lemma LeavesApart(p: nat, q: nat, f: LeafField, g: LeafField)
      requires Valid() && p in leaves && q in leaves && p != q
      ensures Block(leaves[p].addr, LEAF_SIZE).Disjoint(Block(leaves[q].addr, LEAF_SIZE))
      ensures Block(leaves[p].addr, LEAF_SIZE).Inside(heap.pages) && heap.pages <= pages
      ensures FieldOf(leaves[p].addr, f).Disjoint(FieldOf(leaves[q].addr, g))
    {
      hide Shape.Tree, Index.Mirrored, Index.Tells, RsvdList.Chain, RsvdList.Packed;
      assert p in planted && q in planted;
      var i :| 0 <= i < |planted| && planted[i] == p;
      var j :| 0 <= j < |planted| && planted[j] == q;
      assert heap.blocks[i] == Block(leaves[p].addr, LEAF_SIZE) && heap.blocks[j] == Block(leaves[q].addr, LEAF_SIZE);
      FieldsDisjoint(leaves[p].addr, f, leaves[q].addr, g);
    }

    /** The nodes of the reserved list lie in live pages and share no byte. */
    lemma ItemsApart(i: nat, j: nat)
      requires Valid() && i < j < |lrsvd.items|
      ensures Block(lrsvd.items[i].addr, 8 + RSVD_ITEM_SIZE).Disjoint(Block(lrsvd.items[j].addr, 8 + RSVD_ITEM_SIZE))
      ensures Block(lrsvd.items[i].addr, 8 + RSVD_ITEM_SIZE).Inside(lrsvd.pages) && lrsvd.pages <= pages
    {
      hide Shape.Tree, Index.Mirrored, Index.Tells, Index.Seated;
      assert lrsvd.blocks[i] == Block(lrsvd.items[i].addr, 8 + RSVD_ITEM_SIZE);
      assert lrsvd.blocks[j] == Block(lrsvd.items[j].addr, 8 + RSVD_ITEM_SIZE);
    }

    /** Nodes, leaves and list nodes never share a page, and no two nodes do. */
    lemma NodesApart(k: Key, q: Key)
      requires Valid() && k in shape.dir && q in shape.dir && k != ROOT && q != ROOT && k != q
      ensures k in shape.at && q in shape.at && shape.at[k] != shape.at[q]
      ensures shape.at[k] in pages && shape.at[k] !in heap.pages && shape.at[k] !in lrsvd.pages
      ensures heap.pages !! lrsvd.pages
    {
      hide Index.Mirrored, Index.Tells, RsvdList.Chain, RsvdList.Packed;
      assert shape.at[k] in shape.at.Values;
    }

    lemma RootNode()
      requires Mirrored()
      ensures ROOT in shape.dir && shape.dir[ROOT] == root
    {}

    /** What a slot on the path of a frame says, above the last level. */
    lemma NodeSlot(key: nat, level: nat, i: nat)
      requires Valid() && key < PFN_LIMIT && 2 <= level <= 4 && i == Up(key, level - 1) % 512
      requires TableKey(key, level) in shape.dir
      ensures shape.dir[TableKey(key, level)].Length == 512
      ensures var slot := shape.dir[TableKey(key, level)][i];
              if slot.Null? then key !in leaves
              else slot.ToNode? && TableKey(key, level - 1) in shape.dir &&
                   slot.node == shape.dir[TableKey(key, level - 1)]
    {
      hide Index.Tells;
      var k := TableKey(key, level);
      ChildOfTableKey(key, level);
      if key in leaves { PathOfLeaf(shape, leaves, key); }
      assert shape.dir[k][i] == shape.slots[k][i];
      assert shape.SlotOk(leaves, k, i);
      assert TableKey(key, level - 1) in shape.dir ==> shape.Hangs(TableKey(key, level - 1));
    }

    /** The last slot on the path of a frame holds its leaf, if it has one. */
    lemma LeafSlot(key: nat)
      requires Valid() && key < PFN_LIMIT && TableKey(key, 1) in shape.dir
      ensures shape.dir[TableKey(key, 1)].Length == 512
      ensures var slot := shape.dir[TableKey(key, 1)][key % 512];
              if key in leaves then slot.ToLeaf? && slot.leaf == leaves[key] else slot.Null?
    {
      hide Index.Tells;
      assert shape.dir[TableKey(key, 1)][key % 512] == shape.slots[TableKey(key, 1)][key % 512];
      assert shape.SlotOk(leaves, TableKey(key, 1), key % 512);
    }

    lemma LeafTells(kind: Kind, key: nat)
      requires Valid()
      ensures Mirrored()
      ensures key in facts.Of(kind) <==> key in leaves && kind in leaves[key].kinds
      ensures key in facts.Of(kind) ==> facts.Of(kind)[key] == leaves[key].Va(kind)
    {}

    /** cr_host_map_xlate_pfn. */
    method Xlate(kind: Kind, pfn: nat) returns (err: int, r: nat)
      requires Valid()
      ensures err == 0 <==> PfnKey(pfn) in facts.Of(kind)
      ensures err == 0 ==> r == facts.Of(kind)[PfnKey(pfn)]
      ensures err != 0 ==> err == if PfnKey(pfn) in leaves then EINVAL else ESRCH
    {
      hide Index.Valid, Index.Mirrored, Facts.Of;
      ghost var key := PfnKey(pfn);
      var level, node := 4, root;
      LeafTells(kind, key);
      RootNode();
      while level > 1
        invariant 1 <= level <= 4
        invariant TableKey(key, level) in shape.dir && shape.dir[TableKey(key, level)] == node
      {
        PfnIdxOfKey(pfn, level);
        NodeSlot(key, level, PfnIdx(pfn, level));
        var slot := node[PfnIdx(pfn, level)];
        if slot.Null? {
          return ESRCH, 0;
        }
        node, level := slot.node, level - 1;
      }
      PfnIdxOfKey(pfn, 1);
      LeafSlot(key);
      var slot := node[PfnIdx(pfn, 1)];
      if slot.Null? {
        return ESRCH, 0;
      } else if kind in slot.leaf.kinds {
        return 0, slot.leaf.Va(kind);
      } else {
        return EINVAL, 0;
      }
    }

    /** Hang an empty node below slot i of `node`. */
    method Hang(node: array<Slot>, i: nat, n: array<Slot>, ghost page: nat, ghost k: Key)
      requires shape.Tree(leaves) && Mirrored() && n !in Nodes() && n[..] == NullSlots() && page !in shape.at.Values
      requires k in shape.dir && shape.dir[k] == node && k.level >= 2 && i < 512 && node[i] == Null
      modifies this`shape, node
      ensures shape.Tree(leaves) && Mirrored()
      ensures shape.dir == old(shape.dir)[k.Child(i) := n] && node[i] == ToNode(n) && k.Child(i) !in old(shape.dir)
      ensures shape.at.Values == old(shape.at.Values) + {page}
    {
      hide Shape.Tree, Shape.Housed;
      assert node[i] == shape.slots[k][i];
      GrownIsTree(shape, leaves, k, i, n, page);
      node[i] := ToNode(n);
      shape := shape.Grown(k, i, n, page);
    }

    /** Make a page that has just become live a new, empty node below slot i of `node`. */
    method Grow(node: array<Slot>, i: nat, page: nat, ghost k: Key)
      requires shape.Tree(leaves) && Mirrored() && page !in shape.at.Values
      requires k in shape.dir && shape.dir[k] == node && k.level >= 2 && i < 512 && node[i] == Null
      modifies this`shape, node
      ensures shape.Tree(leaves) && Mirrored()
      ensures fresh(Nodes() - old(Nodes())) && k in shape.dir && shape.dir[k] == node && !node[i].Null?
      ensures shape.at.Values == old(shape.at.Values) + {page}
    {
      hide Shape.Tree;
      var n := new Slot[512](j => Null);
      assert n[..] == NullSlots();
      Hang(node, i, n, page, k);
    }

    /** Follow slot i of node `k` to the node it leads to. */
    method Follow(node: array<Slot>, i: nat, ghost k: Key) returns (next: array<Slot>)
      requires shape.Tree(leaves) && Mirrored()
      requires k in shape.dir && shape.dir[k] == node && k.level >= 2 && i < 512 && !node[i].Null?
      ensures k.Child(i) in shape.dir && shape.dir[k.Child(i)] == next
    {
      assert node[i] == shape.slots[k][i];
      assert shape.SlotOk(leaves, k, i);
      ChildParent(k, i);
      assert shape.Hangs(k.Child(i));
      next := node[i].node;
    }

    lemma NodeLength(k: Key)
      requires Mirrored() && k in shape.dir
      ensures shape.dir[k].Length == 512
    {}

    /** The node below slot i of `node`, put there if it is missing. */
    method Step(kern: Kernel, node: array<Slot>, i: nat, ghost k: Key) returns (err: int, next: array<Slot>)
      requires shape.Tree(leaves) && Mirrored() && kern.Valid() && shape.at.Values <= kern.frameOf.Keys
      requires k in shape.dir && shape.dir[k] == node && k.level >= 2 && i < 512
      modifies this`shape, node, kern
      ensures kern.Valid() && kern.Extends(old(kern.frameOf))
      ensures err != 0 ==> err == ENOMEM && kern.failed
      ensures err == 0 ==> shape.Tree(leaves) && Mirrored() && kern.failed == old(kern.failed)
      ensures err == 0 ==> fresh(Nodes() - old(Nodes())) && shape.at.Values <= kern.frameOf.Keys
      ensures err == 0 ==> OnlyNew(old(shape.at.Values), shape.at.Values, old(kern.frameOf.Keys))
      ensures err == 0 ==> k.Child(i) in shape.dir && shape.dir[k.Child(i)] == next
    {
      hide Shape.Tree, Index.Mirrored, Kernel.Valid;
      ghost var nodes := Nodes();
      NodeLength(k);
      if node[i].Null? {
        var p, page := kern.VMalloc();
        if p == 0 {
          return ENOMEM, node;
        }
        Grow(node, i, p, k);
      }
      next := Follow(node, i, k);
      err := 0;
    }

    /** Walk to the node that holds the leaf of a frame, growing the tree where it ends. */
    method Descend(kern: Kernel, pfn: nat) returns (err: int, node: array<Slot>)
      requires shape.Tree(leaves) && Mirrored() && kern.Valid() && shape.at.Values <= kern.frameOf.Keys
      modifies this`shape, Nodes(), kern
      ensures kern.Valid() && kern.Extends(old(kern.frameOf))
      ensures err != 0 ==> err == ENOMEM && kern.failed
      ensures err == 0 ==> shape.Tree(leaves) && Mirrored() && kern.failed == old(kern.failed)
      ensures err == 0 ==> fresh(Nodes() - old(Nodes())) && shape.at.Values <= kern.frameOf.Keys
      ensures err == 0 ==> OnlyNew(old(shape.at.Values), shape.at.Values, old(kern.frameOf.Keys))
      ensures err == 0 ==> TableKey(PfnKey(pfn), 1) in shape.dir && node == shape.dir[TableKey(PfnKey(pfn), 1)]
    {
      hide Shape.Tree, Kernel.Valid, Index.Mirrored;
      RootNode();
      ghost var key := PfnKey(pfn);
      var level := 4;
      node := root;
      err := 0;
      while level > 1
        invariant 1 <= level <= 4
        invariant kern.Valid() && kern.Extends(old(kern.frameOf)) && kern.failed == old(kern.failed)
        invariant shape.Tree(leaves) && Mirrored()
        invariant fresh(Nodes() - old(Nodes())) && shape.at.Values <= kern.frameOf.Keys
        invariant OnlyNew(old(shape.at.Values), shape.at.Values, old(kern.frameOf.Keys))
        invariant TableKey(key, level) in shape.dir && shape.dir[TableKey(key, level)] == node
      {
        PfnIdxOfKey(pfn, level);
        ChildOfTableKey(key, level);
        assert node in Nodes();
        ghost var at, live := shape.at.Values, kern.frameOf.Keys;
        err, node := Step(kern, node, PfnIdx(pfn, level), TableKey(key, level));
        if err != 0 {
          return;
        }
        OnlyNewTrans(old(shape.at.Values), at, shape.at.Values, old(kern.frameOf.Keys), live);
        level := level - 1;
      }
    }

    /** The pages of the allocator, of the list and of the nodes are live, and none is shared. */
    ghost predicate PagesLive(kern: Kernel)
      reads this`shape, heap, lrsvd, kern
    {
      && heap.pages <= kern.frameOf.Keys && lrsvd.pages <= kern.frameOf.Keys
      && shape.at.Values <= kern.frameOf.Keys && Separate(heap.pages, lrsvd.pages, shape.at.Values)
    }

    ghost function AllPages(): set<nat>
      reads this`shape, heap, lrsvd
    {
      heap.pages + lrsvd.pages + shape.at.Values
    }

    /** Let slot i of a last node lead to a leaf for frame `key`. */
    method Hook(node: array<Slot>, leaf: TreeLeaf, ghost key: nat, i: nat)
      requires shape.Tree(leaves) && Mirrored() && key < PFN_LIMIT && i == key % 512
      requires TableKey(key, 1) in shape.dir && node == shape.dir[TableKey(key, 1)]
      modifies this`shape, node
      ensures shape.Tree(leaves[key := leaf]) && Mirrored() && shape.dir == old(shape.dir) && shape.at == old(shape.at)
      ensures node[i] == ToLeaf(leaf)
    {
      hide Shape.Tree, Shape.Housed;
      PlantedIsTree(shape, leaves, key, leaf);
      node[i] := ToLeaf(leaf);
      shape := shape.Planted(key, leaf);
    }

    /** Hang a blank leaf for frame `key` in its node. */
    method Plant(node: array<Slot>, leaf: TreeLeaf, ghost key: nat, i: nat)
      requires shape.Tree(leaves) && Mirrored() && Tells() && leaf.kinds == {}
      requires key < PFN_LIMIT && i == key % 512 && key !in leaves && leaf !in leaves.Values
      requires TableKey(key, 1) in shape.dir && node == shape.dir[TableKey(key, 1)]
      modifies this`shape, this`leaves, node
      ensures shape.Tree(leaves) && Mirrored() && Tells()
      ensures Nodes() == old(Nodes()) && leaves == old(leaves)[key := leaf] && shape.at == old(shape.at)
      ensures node[i] == ToLeaf(leaf)
    {
      hide Shape.Tree, Index.Mirrored;
      NodeLength(TableKey(key, 1));
      Hook(node, leaf, key, i);
      ghost var nodes := Nodes();
      leaves := leaves[key := leaf];
    }

    /** The leaf in slot i of the last node, if there is one. */
    method Held(node: array<Slot>, i: nat, ghost key: nat) returns (leaf: TreeLeaf?)
      requires shape.Tree(leaves) && Mirrored() && key < PFN_LIMIT && i == key % 512
      requires TableKey(key, 1) in shape.dir && node == shape.dir[TableKey(key, 1)]
      ensures leaf == if key in leaves then leaves[key] else null
    {
      assert node[i] == shape.slots[TableKey(key, 1)][i];
      assert shape.SlotOk(leaves, TableKey(key, 1), i);
      if node[i].Null? {
        return null;
      }
      return node[i].leaf;
    }

    /** Allocate a leaf and plant it. */
    method NewLeaf(kern: Kernel, node: array<Slot>, i: nat, ghost key: nat) returns (err: int, leaf: TreeLeaf?)
      requires shape.Tree(leaves) && Mirrored() && Tells() && Seated() && PagesLive(kern) && kern.Valid()
      requires key < PFN_LIMIT && i == key % 512 && key !in leaves
      requires TableKey(key, 1) in shape.dir && node == shape.dir[TableKey(key, 1)]
      modifies this`shape, this`leaves, this`planted, node, heap, kern
      ensures kern.Valid() && kern.Extends(old(kern.frameOf))
      ensures err != 0 ==> err == ENOMEM && kern.failed
      ensures err == 0 ==> shape.Tree(leaves) && Mirrored() && Tells() && Seated() && PagesLive(kern)
      ensures err == 0 ==> kern.failed == old(kern.failed) && Nodes() == old(Nodes())
      ensures err == 0 ==> leaf != null && fresh(leaf) && leaves == old(leaves)[key := leaf]
      ensures err == 0 ==> OnlyNew(old(AllPages()), AllPages(), old(kern.frameOf.Keys))
    {
      hide Shape.Tree, Index.Mirrored, Index.Tells, Kernel.Valid, OnlyNew, Separate, LeafBlocks;
      ghost var pages0, live, nodes := heap.pages, kern.frameOf.Keys, Nodes();
      var addr, page := heap.Malloc(kern, LEAF_SIZE);
      if addr == 0 {
        return ENOMEM, null;
      }
      HeapGrows(pages0, heap.pages, lrsvd.pages, shape.at.Values, live);
      leaf := new TreeLeaf(addr);
      LeafBlocksMore(leaves, planted, old(heap.blocks), key, leaf);
      Plant(node, leaf, key, i);
      planted := planted + [key];
      err := 0;
    }

    /** The node that holds the leaf of a frame, in pages that the index owns. */
    method FindNode(kern: Kernel, pfn: nat) returns (err: int, node: array<Slot>)
      requires shape.Tree(leaves) && Mirrored() && PagesLive(kern) && kern.Valid()
      modifies this`shape, Nodes(), kern
      ensures kern.Valid() && kern.Extends(old(kern.frameOf))
      ensures err != 0 ==> err == ENOMEM && kern.failed
      ensures err == 0 ==> shape.Tree(leaves) && Mirrored() && PagesLive(kern) && kern.failed == old(kern.failed)
      ensures err == 0 ==> fresh(Nodes() - old(Nodes()))
      ensures err == 0 ==> TableKey(PfnKey(pfn), 1) in shape.dir && node == shape.dir[TableKey(PfnKey(pfn), 1)]
      ensures err == 0 ==> OnlyNew(old(AllPages()), AllPages(), old(kern.frameOf.Keys))
    {
      hide Shape.Tree, Index.Mirrored, Kernel.Valid, OnlyNew, Separate;
      ghost var at := shape.at.Values;
      err, node := Descend(kern, pfn);
      if err == 0 {
        NodesGrow(heap.pages, lrsvd.pages, at, shape.at.Values, old(kern.frameOf.Keys));
      }
    }

    /** The leaf of a frame, made if there is none. */
    method LeafFor(kern: Kernel, pfn: nat) returns (err: int, leaf: TreeLeaf?)
      requires shape.Tree(leaves) && Mirrored() && Tells() && Seated() && PagesLive(kern) && kern.Valid()
      modifies this`shape, this`leaves, this`planted, Nodes(), heap, kern
      ensures kern.Valid() && kern.Extends(old(kern.frameOf))
      ensures err != 0 ==> err == ENOMEM && kern.failed
      ensures err == 0 ==> shape.Tree(leaves) && Mirrored() && Tells() && Seated() && PagesLive(kern)
      ensures err == 0 ==> kern.failed == old(kern.failed)
      ensures err == 0 ==> fresh(Nodes() - old(Nodes())) && fresh(leaves.Values - old(leaves.Values))
      ensures err == 0 ==> PfnKey(pfn) in leaves && leaf == leaves[PfnKey(pfn)]
      ensures err == 0 ==> OnlyNew(old(AllPages()), AllPages(), old(kern.frameOf.Keys))
    {
      hide Shape.Tree, Index.Mirrored, Index.Tells, Index.Seated, Kernel.Valid, OnlyNew, Index.PagesLive,
           Index.AllPages;
      ghost var live0 := kern.frameOf.Keys;
      var node: array<Slot>;
      err, node := FindNode(kern, pfn);
      if err != 0 {
        return err, null;
      }
      ghost var all, live := AllPages(), kern.frameOf.Keys;
      PfnIdxOfKey(pfn, 1);
      leaf := Held(node, PfnIdx(pfn, 1), PfnKey(pfn));
      if leaf == null {
        err, leaf := NewLeaf(kern, node, PfnIdx(pfn, 1), PfnKey(pfn));
        if err == 0 {
          OnlyNewTrans(old(AllPages()), all, AllPages(), live0, live);
        }
      }
    }

    /** Note on a leaf that its frame is of a kind, and the address that goes with it. */
    method Mark(leaf: TreeLeaf, kind: Kind, v: nat, ghost key: nat)
      requires Tells() && key in leaves && leaves[key] == leaf
      modifies leaf, this`facts
      ensures Tells() && facts == old(facts).With(kind, key, v)
    {
      leaf.kinds := leaf.kinds + {kind};
      match kind {
        case PageTable => leaf.vaPt := v;
        case RamPage => leaf.vaRam := v;
        case RsvdPage => leaf.vaRsvd := v;
      }
      facts := facts.With(kind, key, v);
    }

    /** Find or make the leaf of a frame and note the pair on it. */
    method Note(kern: Kernel, kind: Kind, pfn: nat, v: nat) returns (err: int)
      requires shape.Tree(leaves) && Mirrored() && Tells() && Seated() && PagesLive(kern) && kern.Valid()
      modifies this`shape, this`leaves, this`planted, this`facts, Nodes(), leaves.Values, heap, kern
      ensures kern.Valid() && kern.Extends(old(kern.frameOf))
      ensures err != 0 ==> err == ENOMEM && kern.failed
      ensures err == 0 ==> shape.Tree(leaves) && Mirrored() && Tells() && Seated() && PagesLive(kern)
      ensures err == 0 ==> kern.failed == old(kern.failed) && facts == old(facts).With(kind, PfnKey(pfn), v)
      ensures err == 0 ==> fresh(Nodes() - old(Nodes())) && fresh(leaves.Values - old(leaves.Values))
      ensures err == 0 ==> OnlyNew(old(AllPages()), AllPages(), old(kern.frameOf.Keys))
    {
      hide Shape.Tree, Index.Mirrored, Index.Tells, Index.Seated, Kernel.Valid, OnlyNew, Index.PagesLive;
      var leaf: TreeLeaf?;
      err, leaf := LeafFor(kern, pfn);
      if err == 0 {
        Mark(leaf, kind, v, PfnKey(pfn));
      }
    }

    /** Put a frame on the list of reserved frames. */
    method Reserve(kern: Kernel, pfn: nat) returns (err: int)
      requires Parts() && PagesLive(kern) && kern.Valid()
      modifies lrsvd, lrsvd.Items(), kern
      ensures kern.Valid() && kern.Extends(old(kern.frameOf))
      ensures err != 0 ==> err == ENOMEM && kern.failed
      ensures err == 0 ==> Parts() && PagesLive(kern) && kern.failed == old(kern.failed)
      ensures err == 0 ==> fresh(lrsvd.Items() - old(lrsvd.Items()))
      ensures err == 0 ==> lrsvd.pfns == old(lrsvd.pfns) + [pfn]
      ensures err == 0 ==> OnlyNew(old(AllPages()), AllPages(), old(kern.frameOf.Keys))
    {
      hide Shape.Tree, Kernel.Valid, SoundBlocks, RsvdList.Packed, RsvdList.Chain, Index.Seated, OnlyNew, Separate;
      ghost var pages0, live := lrsvd.pages, kern.frameOf.Keys;
      err := lrsvd.Append(kern, pfn);
      ListGrows(heap.pages, pages0, lrsvd.pages, shape.at.Values, live);
    }

    method LinkParts(kern: Kernel, kind: Kind, pfn: nat, v: nat) returns (err: int)
      requires Parts() && PagesLive(kern) && kern.Valid()
      modifies this`shape, this`leaves, this`planted, this`facts, Nodes(), leaves.Values
      modifies heap, lrsvd, lrsvd.Items(), kern
      ensures kern.Valid() && kern.Extends(old(kern.frameOf))
      ensures err != 0 ==> err == ENOMEM && kern.failed
      ensures err == 0 ==> Parts() && PagesLive(kern) && kern.failed == old(kern.failed)
      ensures err == 0 ==> fresh(Nodes() - old(Nodes())) && fresh(leaves.Values - old(leaves.Values))
      ensures err == 0 ==> fresh(lrsvd.Items() - old(lrsvd.Items()))
      ensures err == 0 ==> facts == old(facts).With(kind, PfnKey(pfn), v)
      ensures err == 0 ==> lrsvd.pfns == old(lrsvd.pfns) + (if kind == PageTable then [pfn] else [])
      ensures err == 0 ==> OnlyNew(old(AllPages()), AllPages(), old(kern.frameOf.Keys))
    {
      hide Shape.Tree, Index.Mirrored, Index.Tells, Index.Seated, Kernel.Valid, SoundBlocks, RsvdList.Packed,
           RsvdList.Chain, OnlyNew, Index.PagesLive;
      err := Note(kern, kind, pfn, v);
      if err != 0 {
        return;
      }
      ghost var all, live := AllPages(), kern.frameOf.Keys;
      if kind == PageTable {
        err := Reserve(kern, pfn);
        if err == 0 {
          OnlyNewTrans(old(AllPages()), all, AllPages(), old(kern.frameOf.Keys), live);
        }
      }
    }

    /** Bring the ghost summary up to date with the parts. */
    ghost method Summarise()
      requires Parts() && heap in Repr && lrsvd in Repr && this !in Repr
      requires Separate(heap.pages, lrsvd.pages, shape.at.Values)
      modifies this`listed, this`pages, this`Repr
      ensures Valid() && listed == lrsvd.pfns && pages == AllPages()
      ensures Repr == old(Repr) + Nodes() + leaves.Values + lrsvd.Items()
    {
      hide Index.Parts;
      listed, pages := lrsvd.pfns, heap.pages + lrsvd.pages + shape.at.Values;
      Repr := Repr + Nodes() + leaves.Values + lrsvd.Items();
    }

    /** crp_host_map_link_page: the pair (kind, pfn) is noted with its address; a page table is also
        appended to the list of reserved frames. */
    method Link(kern: Kernel, kind: Kind, pfn: nat, v: nat) returns (err: int)
      requires Valid() && kern.Valid() && pages <= kern.frameOf.Keys
      modifies this, Repr, kern
      ensures kern.Valid() && kern.Extends(old(kern.frameOf))
      ensures err != 0 ==> err == ENOMEM && kern.failed
      ensures err == 0 ==> Valid() && pages <= kern.frameOf.Keys && kern.failed == old(kern.failed)
      ensures err == 0 ==> fresh(Repr - old(Repr))
      ensures err == 0 ==> facts == old(facts).With(kind, PfnKey(pfn), v)
      ensures err == 0 ==> listed == old(listed) + (if kind == PageTable then [pfn] else [])
      ensures err == 0 ==> OnlyNew(old(pages), pages, old(kern.frameOf.Keys))
    {
      hide Shape.Tree, Index.Parts, Kernel.Valid, Facts.With, Facts.Of, OnlyNew, Separate;
      err := LinkParts(kern, kind, pfn, v);
      if err == 0 {
        Summarise();
      }
    }
  }
}
