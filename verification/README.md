# A verified model of clearram

clearram is a kernel module that zero-fills all RAM of a running x86-64 machine. When it is loaded it builds
page tables of its own, in which all RAM appears from address 0 on and the module's image stays where it was; the
frames that hold these tables and the image are then taken out of the RAM mapping. On a write to its device node
the module stops all other CPUs, switches to its tables, and fills the RAM mapping with zeroes, hopping over the
pages that are not present in a page-fault handler.

This project models that in Dafny and proves what it is for: **after a successful initialisation and fill, every
frame of every RAM section is zero, except those that hold a page table of the module or a page of its image, and
these are untouched** (`EndToEnd.InitThenClear`). Everything below serves that statement or stands beside it.

## How it is modelled

| file | what it models |
|---|---|
| `mapdef.dfy` | page entries, virtual addresses, index arithmetic (`mapdef.h`, `cr_amd64_init_page_ent`) |
| `words.dfy` | page entries as the 64-bit words they are |
| `pagetables.dfy` | the page tables as values; a hardware walk over physical memory; what it means that pages are mapped |
| `selfmap.dfy` | what the PML4's entry for itself gives: every table as a page |
| `kernel.dfy` | the environment: the page allocator and the virtual-to-physical map |
| `alloc.dfy` | the bump allocator and the linked list of reserved frames (`subr_host.c`) |
| `pfnindex.dfy` | the 4-level radix tree from frame numbers to addresses (`subr_host.c`) |
| `host.dfy` | the tables in memory together with the index that finds them again |
| `mapping.dfy` | the descend, fill and climb loop (`cr_amd64_map_pages_aligned`) |
| `blocks.dfy` | which part of a section a pass maps (`cr_amd64_map_pages_unaligned`) |
| `hostwalk.dfy` | the walk over RAM sections, and the walk of the host's own page tables (`subr_Linux.c`) |
| `order.dfy` | the order in which the three passes lay out RAM |
| `rammap.dfy`, `image.dfy`, `unmap.dfy`, `lkminit.dfy` | `cr_host_lkm_init` |
| `clear.dfy` | `rep stosq`, the exception handler, and the fill loop (`subr_clear.c`) |
| `memory.dfy`, `endtoend.dfy` | physical memory with the tables in it; both parts together |
| `rendezvous.dfy` | stopping the other CPUs, as a state machine over all interleavings (`subr_Linux.c`) |
| `largepages.dfy` | why mapping with 1G and 2M pages is not part of the claim |

State that the source changes in place is changed in place here: tables and tree nodes are arrays, the list, the
allocator, the index, the walk and the CPU are classes. Beside the arrays runs a ghost value, `PTs`, that says
for each table (named by its level and by the page-number prefix it translates) in which frame it lies and what its
512 entries are; `Host.Inv` ties the two together. A page number `v` is the virtual address without its
offset, out of 2^36; `VaOf(v)` is its canonical address, `Up(v, l)` the prefix that selects a table of level `l`.

- `Coherent(s)`: the tables form a tree below the PML4, the self-map slot apart. Each has a frame of its own, its
  parent points to it, and every present non-leaf entry leads to a table.
- `Mapped(s, t, v0, fs, n, a)`: `t` is `s` with the pages `v0`, `v0 + 1`, ... mapped to the frames `fs`; the tables
  these need have been added and none beyond what `n` pages need; no other translation changed. `Done` adds
  what the index has noted. Every mapping operation, from one entry to all of RAM, is specified by this one relation,
  and runs compose by one lemma.
- `Flat(s, v)`: the translation read off the tables; `HwWalk(m, root, v)`: what the hardware finds in physical
  memory. They agree (`WalkIsFlat`), so all theorems end in statements about `HwWalk`.
- `Ready(t, ss, img, fs)`: what initialisation leaves behind, entry by entry, and what the fill relies on.
- `InRam(rs, f)`: some resource of the list that is busy system RAM holds the last byte of frame `f`, said in byte
  addresses; all theorems on "RAM" can be read with it (`Order.RamFrameIs`).
- `Word(e)`: the 64-bit word of a page entry, which the entry can be read back from.
- `Swept(m0, m, view, end)`: every word shown below address `end` is zero, and no frame that is not shown has changed.

What the code relies on appears as a precondition or as the contract of the environment: frame numbers below 2^36
(the tree has 4 x 9 bits); fewer than 2^35 pages of RAM, so that addresses of the direct map do not change sign;
RAM resources in ascending order without overlap; the image in the kernel half of the address space, in frames that
the kernel never hands out, which also holds for the VGA frames 0xb8 to 0xbf; a page that `vmalloc` returns is new,
zeroed, and lies in a frame that no other live page has. `Initialise.Load` shows that the start state exists. That
page-table and image frames are RAM, and that the image is not under the self-map slot 0x1f0, is not assumed: where
it is not so, initialisation fails, and `Initialise.LkmInit` says that it fails for no other reason but a failed
allocation.

## Where the code needs care

- `cr_host_malloc` sets `rem` even when the kernel had no page (`subr_host.c:272`): `Alloc.MallocNeedsItsPage` says
  exactly when the free rest stays real, and where the second request after a failed one ends up.
- `cr_host_list_append` rounds its stride down (`subr_host.c:99-102`): `Alloc.StrideHoldsNode` says exactly
  for which item sizes two nodes do not overlap. The one item size in use is fine.
- `0x1ff << (9 + 9 + 12)` overflows `int` (`subr_map.c:123`). The model takes the value it comes out as, all bits from
  30 up; `Mapping.MaskReadingsAgree` shows that the nine bits that were meant decide the same.
- The handler adds a page to RCX where it should take one off (`subr_clear.c:119`), so a block that meets absent pages
  overruns its end. `Clear.Cpu.ClearBlock` holds all the same: RDI is the measure, and the page after the
  direct map is not present.
- The number of CPUs online serves as a bound on CPU ids (`subr_Linux.c:104-105`): `Rendezvous.ExitIffIdsSmall`
  says exactly when the waiting loop can be left.
- A direct 1G or 2M entry gets an unscaled frame number (`subr_amd64.c:255-264`): `LargePages.Direct1G` and
  `LargePages.Direct2M` say that it is right for frame 0 only.
- The comment at `clearram.c:99-101` speaks of image pages appended to the reserved list and of a second mapping of
  that list. The code does neither: it clears the image pages in a loop of their own (`clearram.c:185-205`). The model
  follows the code.

## Model

| member | source | states |
|---|---|---|
| EndToEnd.InitThenClear | clearram.c:118-205 | initialisation and fill together: every frame that the resource list calls RAM and that is neither listed nor an image page ends as 512 zero words, every other frame of physical memory is as it was before the fill, and the exception after the fill is not taken for one of its faults; failure only by a failed allocation, an image under the self-map, or a reserved frame outside RAM |
| EndToEnd.ClearAfterInit | subr_clear.c:76-93 | the same for the fill alone, on any memory that holds tables as initialisation leaves them |
| EndToEnd.ReadyIsWindow | clearram.c:164-205 | what initialisation leaves is what the fill needs: the page after the direct map absent, no page shows a table |
| EndToEnd.ShownFrames | clearram.c:164-205 | the direct map shows a frame if and only if it is RAM and not reserved |
| Initialise.LkmInit | clearram.c:114-205 | on success the tables translate page v to the v-th RAM frame in pass order unless it is reserved, the image to itself, the VGA buffer to 0xb8.., and nothing else outside the self-map slot; clear_va_top is 4096 times the total length of the sections; the three causes of failure |
| Initialise.Build | clearram.c:114-163 | self-map, RAM passes, image clone and VGA window, one after the other, add up to the state the unmapping starts from |
| Initialise.BuildRam | clearram.c:114-143 | after the RAM passes over N pages exactly ceil(N/512) + ceil(N/512^2) + ceil(N/512^3) tables are on the reserved list |
| Initialise.Reserve | clearram.c:164-205 | the two unmapping loops leave exactly the reserved frames without a page in the direct map; they fail only on a reserved frame that is not RAM |
| Initialise.ReadyWalk | clearram.c:118-143 | on any memory that holds the tables the hardware walk gives the direct map, and a fault on the page after it |
| Initialise.ReadyImage | clearram.c:144-163 | the hardware walk gives every image page its host frame with NX clear on all four levels, the VGA pages 0xb8..0xbf in order |
| Initialise.ReadyWords | clearram.c:128-183 | every last-level word: 0x8000000000000013 + frame * 4096 for RAM and the VGA window, the same less PRESENT for a reserved frame, 0xb + frame * 4096 for the image, 0 elsewhere |
| Initialise.ReadyLinkWord | subr_host.c:158-161 | every word that leads to a table: the flags of RAM below the direct map, those of the image elsewhere, and the table's frame |
| Initialise.ReadySelfMap | clearram.c:114-117 | the self-map word is 0x800000000000000b + frame * 4096; through it the hardware finds every table of the module as a writable, non-executable page, the PML4 itself at page 0xf87c3e1f0 |
| SelfMap.TableAsPage | clearram.c:114-117 | the recursion in general: the page 0x1f0 * 2^27 + the page number's prefix of a last-level table translates to that table's frame, and so on for each level |
| Initialise.ReadyElsewhere | clearram.c:114-205 | every page outside the direct map, the image and the self-map slot faults |
| Initialise.OnePageEach | clearram.c:164-205 | self-protection: no page up to clear_va_top translates to a reserved frame; every other RAM frame is reached at exactly one page |
| Initialise.PagesExact | clearram.c:164-205 | the pages unmapped are exactly those of the direct map whose frame is reserved |
| Initialise.RamAfter | clearram.c:118-205 | the translation of a direct-map page at the end, in terms of the four levels of its path |
| Initialise.ImageAfter | clearram.c:144-205 | unmapping disturbs no image page, and the window replaced the clone |
| Initialise.ListedExactly | subr_host.c:68-77 | the reserved list holds the frame of every table but the PML4, no other frame, each once |
| Initialise.ListedCount | subr_host.c:68-77 | the list is as long as there are tables below the PML4 |
| Initialise.TableNotPinned | subr_host.c:149-169 | no table lies in a frame of the image or of the VGA window |
| Initialise.Load | clearram.c:120-122 | the module as loaded meets every precondition of initialisation |
| Unmap.ClearPage | clearram.c:170-183 | the walk through the index reaches the last-level entry of the page and clears PRESENT there, and nothing else |
| Unmap.UnmapFrame | clearram.c:165-183 | a reserved frame is unmapped at the address noted for it as RAM; it fails if and only if none is noted |
| Unmap.UnmapListed | clearram.c:164-184 | every listed frame is unmapped, one page each, and no other entry changes |
| Unmap.UnmapImage | clearram.c:185-205 | every image frame is unmapped, one page each, and no other entry changes |
| ImageMap.ClonePages | subr_map.c:143-168 | page i from the destination on is mapped to the frame the host has page i of the source in; a destination given by the caller is advanced by the run, and not given it is the source itself |
| ImageMap.MapVga | clearram.c:153-163 | the pages of the VGA buffer are mapped to 0xb8..0xbf in order |
| ImageMap.VgaPass | clearram.c:153-163 | a level 1 call alone maps the whole VGA range, as no 2M boundary lies inside |
| RamMap.MapSelf | clearram.c:114-117 | the PML4 points to itself in slot 0x1f0 and nothing else changes |
| RamMap.MapRam | clearram.c:118-143 | the three passes map page v to the v-th frame in pass order and leave clear_va_top behind the last |
| RamMap.MapLevel | clearram.c:123-143 | one pass maps its part of every section, in list order |
| RamMap.AboveAligned | subr_map.c:244-247 | every pass begins at an address aligned to its unit |
| RamMap.PrefixAligned | subr_map.c:244-247 | and so it resumes in every section |
| RamMap.TableCount | subr_map.c:99-112 | mapping n pages from 0 on needs ceil(n/512) + ceil(n/512^2) + ceil(n/512^3) tables: none is made early or twice |
| Order.RamFrameIs | subr_Linux.c:193-206 | a frame lies in a section if and only if a busy system-RAM resource of the list takes it up |
| Order.RamOrderHolds | clearram.c:118-143 | the direct map holds exactly the frames of the RAM sections |
| Order.RamOrderDistinct | clearram.c:118-143 | no frame is mapped twice in the direct map |
| Order.RamOrderLength | clearram.c:118-143 | the direct map is as long as all sections together |
| Order.RamOrderAligned | subr_map.c:244-247 | every page lies as far into its block, of the level whose pass mapped it, as its frame does |
| Blocks.MapUnaligned | subr_map.c:252-292 | one call maps exactly the frames of its level's pass over the section, in order, at the next addresses |
| Blocks.MapBlock | subr_map.c:281-288 | the aligned mapper is only ever called with a first frame and an address both aligned to the unit of the pass's level |
| Blocks.BlockAligned | subr_map.c:244-247 | what a pass has mapped before a block is made of whole blocks |
| Blocks.NextBlock | subr_map.c:258-281 | one round yields the next run of frames of the pass, aligned to the level's unit, or rightly none |
| Blocks.AlignBlockLimit | subr_map.c:205-224 | the aligned interior of a range, if there is one |
| Blocks.GetBlockFirst | subr_map.c:175-191 | from inside a block on: up to its end exactly when a whole block follows |
| Blocks.GetBlockLast | subr_map.c:192-204 | from a boundary on: what is left after the whole blocks, if anything |
| Blocks.OnePassEach | subr_map.c:226-249 | every frame of a section belongs to exactly one of the three passes, and no frame outside to any |
| Blocks.PassHolds | subr_map.c:258-290 | a pass maps a frame if and only if the frame's aligned block fits the section and the next larger one does not |
| Blocks.PassDistinct | subr_map.c:258-290 | a pass maps no frame twice |
| Blocks.PassLengths | subr_map.c:258-290 | the three passes together map as many frames as the section has |
| Blocks.PassAligned | subr_map.c:244-247 | a pass goes by whole aligned blocks, so a frame's place in it is congruent to the frame |
| Mapping.MapAligned | subr_map.c:80-135 | on success pages v0.. are mapped to pfn_base..pfn_limit across any table boundaries, the address is advanced by the range, and all else is unchanged; on failure an allocation failed or the next page is under the self-map, and the pages before it, and only those, are mapped. The loop keeps its level in 1..4 with the right tables at hand and ends by (frames left, level) |
| Mapping.FillAndClimb | subr_map.c:114-131 | filling ends the run, or the level climbed to has the tables of the next page at hand |
| Mapping.FillTable | subr_map.c:43-59 | entries are filled up to the end of the table or of the range, each noted in the index; where that fails its entry is not written |
| Mapping.Descend | subr_map.c:99-112 | the table one level down on the path, found or allocated; the tables stay a tree |
| Mapping.ClimbHighEnough | subr_map.c:120-130 | after a full table the loop climbs to level 3 or 4, and from there up the tables at hand are those of the next page |
| Mapping.ClimbTests | subr_map.c:123-128 | what the two mask tests say in page numbers: the first is true exactly when a 1G boundary is crossed, the second always |
| Mapping.MaskReadingsAgree | subr_map.c:123-124 | the mask as it overflows and the mask as it was meant decide the same |
| Mapping.DoneTrans | subr_map.c:80-135 | two runs of pages, one after the other, are one run |
| Mapping.LinkRunAt | subr_host.c:78-81 | after a run of pages the index gives for each frame the address of its page |
| HostState.Host.AllocPt | subr_host.c:149-169 | a zeroed table in a new frame, its parent's entry pointing to it with the requested flags, indexed and listed; the whole invariant is kept |
| HostState.Host.GetTable | subr_map.c:31-42 | a present non-leaf entry leads to exactly the table made for it; the self-map slot is refused, as the PML4 is not indexed |
| HostState.Host.LinkPage | subr_host.c:186-198 | a page's address is noted under its kind and no table changes |
| HostState.Host.SetLeaf | subr_map.c:49-50 | filling a last-level entry keeps the tables a tree |
| HostState.Host.constructor | clearram.c:120-122 | zeroed state with a blank PML4 meets the invariant |
| HostState.Host.TablesApart | subr_host.c:155-158 | every table has a page of its own, which neither the index nor another table uses |
| HostState.TableAdded | subr_host.c:155-169 | tree, index and list all stay right when a table is added in a page that has just become live |
| HostState.FreshFrame | subr_host.c:155-161 | a page that was not live holds no table, and neither does its frame |
| KernelEnv.Kernel.VMalloc | subr_Linux.c:145-154 | the environment's contract: a page handed out is new, zeroed, live from now on, and in a frame of its own; or there is none |
| PfnIndex.Index.Link | subr_host.c:29-87 | the pair (kind, frame) gets its address and every other pair keeps its own, also on the same leaf; a page table is listed too |
| PfnIndex.Index.LeavesApart | subr_host.c:60-67 | the leaves of two frames lie in live pages of the allocator and share no byte, so no field of one is overwritten through the other |
| PfnIndex.Index.NodesApart | subr_host.c:48-55 | every tree node has a live page of its own, which holds no leaf and no list node |
| PfnIndex.Index.ItemsApart | subr_host.c:111-113 | the nodes of the reserved list lie in live pages and share no byte |
| PfnIndex.LeafLayout | hostdef.h:86-89 | the four fields of a packed leaf follow one another and take up 28 bytes |
| PfnIndex.ItemLayout | hostdef.h:42-45 | link and frame number of a list node follow one another and take up the node |
| PfnIndex.Index.Xlate | subr_host.c:204-244 | the tree refines a finite map from (kind, frame) to address: found if and only if noted; EINVAL exactly when the frame is known under other kinds only |
| PfnIndex.GrownIsTree | subr_host.c:48-55 | a new node keeps the tree a tree |
| PfnIndex.PlantedIsTree | subr_host.c:60-67 | a new leaf keeps the tree a tree and is found under its own frame |
| PfnIndex.PfnIdxOfKey | subr_host.c:36-47 | the four indices tell frames apart by their low 36 bits |
| Alloc.MallocState.Malloc | subr_host.c:263-285 | blocks handed out are pairwise disjoint, inside allocated pages, and clear of the free rest |
| Alloc.MallocNeedsItsPage | subr_host.c:271-276 | the free rest stays in a real page if and only if the kernel was not asked in vain; otherwise the second request after gets an address in page 0 |
| Alloc.Carve | subr_host.c:277-283 | taking bytes off the free rest keeps all blocks disjoint |
| Alloc.RsvdList.Append | subr_host.c:93-124 | the chain of nodes spells the frames in append order, and packed nodes never overlap |
| Alloc.RsvdList.LinkLast | subr_host.c:114-122 | the new node is hung on the last one, found by following the links |
| Alloc.StrideHoldsNode | subr_host.c:99-102 | two successive nodes do not overlap if and only if the item size is a multiple of 8 |
| PageTables.WalkIsFlat | mapdef.h:42-71 | outside the self-map slot the hardware walk of coherent tables reads exactly the last-level entry and the flags of its path |
| PageTables.MappedWalk | subr_map.c:61-78 | after a run the hardware walk takes page v0 + i to the i-th frame and every other page where it went before |
| PageTables.MappedTranslates | subr_map.c:61-78 | the same on the tables, with the requested flags where all tables of the path are new |
| PageTables.MappedTrans | subr_map.c:80-135 | mapping composes, tables included |
| PageTables.EntryLeads | subr_map.c:31-42 | a present non-leaf entry holds the frame of the table below it |
| PageTables.AddTableCoherent | subr_host.c:155-162 | adding a table below an absent entry keeps the tables a tree |
| PageTables.SetLeafCoherent | subr_map.c:49-50 | last-level entries do not bear on the tree |
| MapDef.PeIdxOfVpn | mapdef.h:109-118 | the index macros read the page number's nine bits at each level, also from sign-extended addresses |
| MapDef.VaIncrPage | mapdef.h:89-90 | stepping a page gives the next canonical address; the top page wraps to 0 |
| MapDef.VaOfVpn | mapdef.h:89-90 | page numbers and canonical page addresses correspond |
| Words.WordRoundTrip | mapdef.h:47-53 | the fields of an entry do not overlap in its 64-bit word: it can be read back |
| Words.WordFlags | mapdef.h:32-53 | PRESENT, READ_WRITE, PAGE_SIZE, NX and the frame number are the bits the hardware looks at |
| Words.InitWord | subr_amd64.c:247-268 | the word of an initialised entry: PRESENT, the requested bits, the frame number in the field of its level, NX |
| Words.EntWord | subr_amd64.c:252-266 | an ordinary entry is 1 + the requested bits + frame * 4096 + NX * 2^63 |
| Words.ZeroWord | subr_clear.c:37 | an entry's word is 0 if and only if the entry is blank |
| Words.ClearPresentWord | clearram.c:181 | clearing PRESENT takes 1 off a present entry's word |
| Words.LargeFields | mapdef.h:54-71 | the 1G and 2M layouts read 22 bits from bit 30 and 31 bits from bit 21 of the same word |
| LargePages.Direct1G | subr_amd64.c:255-258 | a direct 1G entry for an aligned frame leads to that frame if and only if it is frame 0 |
| LargePages.Direct2M | subr_amd64.c:260-263 | a direct 2M entry for an aligned frame leads to that frame if and only if it is frame 0 |
| HostWalk.PmapWalk.Next | subr_Linux.c:181-208 | each call yields the next RAM section of the list, in order and once each, then none; on demand also a cursor at its first frame |
| HostWalk.SectionHas | subr_Linux.c:195-198 | in byte addresses: a section has exactly the frames whose last byte the resource holds |
| HostWalk.SectionsHave | subr_Linux.c:193-206 | all sections together have exactly the frames of the RAM resources |
| HostWalk.SectionsApart | subr_Linux.c:197-198 | cutting ordered resources to whole pages leaves ordered, disjoint sections |
| HostWalk.VirtToPhysIsHwWalk | subr_Linux.c:216-242 | where the hardware translates an address, through 4K, 2M or 1G entries, the function finds the same frame |
| HostWalk.VirtToPhysIsWalk4K | subr_Linux.c:216-242 | for every address the function agrees with a walk that knows 4K pages only, over the tables with all 1G and 2M entries split |
| Clear.Cpu.ClearAll | subr_clear.c:76-93 | the blocks tile the direct map: every word that shows in it ends zero, no frame that does not show changes |
| Clear.Cpu.ClearAndReset | subr_clear.c:76-96 | after the fill the exception that resets the machine gets status -1: the fill's flag is down |
| Clear.Cpu.ClearBlock | subr_clear.c:34-48 | for any pattern of absent pages the block ends, by clear_va_top - RDI, past the three bytes of the instruction and with its flag down, and all it should cover is zero |
| Clear.Cpu.Round | subr_clear.c:39-46 | one round of the fill instruction ends it, stores a word, or faults and is handled, and RDI never passes clear_va_top |
| Clear.Cpu.Hop | subr_clear.c:113-125 | a fault happens at the start of an absent page; the handler moves RDI on by a page and RCX up by a page's words, or ends the block where nothing of it is left |
| Clear.Cpu.StoreNext | subr_clear.c:44 | one iteration of the string store through the hardware walk of the memory it writes to |
| Clear.Cpu.ClearException | subr_clear.c:104-126 | when the instruction is restarted and with which registers |
| Clear.Cpu.Exception | subr_clear.c:206-226 | during a fill the handler's status is passed on, 0 adds 3 to RIP, 1 restarts it; outside of a fill the status is -1 |
| Clear.SeenAt | subr_clear.c:34-48 | in the window the hardware can write an address if and only if its page is shown |
| Clear.BacksKept | subr_clear.c:34-48 | the fill never touches the tables it runs on |
| Clear.SweptStore | subr_clear.c:44 | a zero stored at the sweep's edge moves the edge on by a word |
| Clear.SweptSkip | subr_clear.c:116-121 | hopping over absent pages skips nothing that shows |
| Memory.TablesInMemory | subr_host.c:155-161 | the tables found through list and index, each in its frame, are all the hardware walks |
| Rendezvous.OutIsFinal | subr_Linux.c:94-116 | once the waiting loop is left, in any interleaving, all other CPUs online have halted and no step is left to anyone |
| Rendezvous.OutMeansHalted | subr_Linux.c:110-114 | leaving the loop means that every other CPU has released the lock and halted |
| Rendezvous.ExitIffIdsSmall | subr_Linux.c:104-114 | the loop can be left if and only if all other CPU ids are below the number of CPUs online |
| Rendezvous.WaitsForever | subr_Linux.c:104-114 | with CPUs 0 and 2 online and CPU 0 stopping the others, the wait never ends |
| Rendezvous.CanFinish | subr_Linux.c:94-116 | then from every reachable state the loop can still be left: there is no deadlock |
| Rendezvous.Exclusive | subr_Linux.c:79-81 | at most one CPU is between lock and unlock |
| Rendezvous.ReachableInv | subr_Linux.c:73-116 | in every interleaving the counter is the number of CPUs past their increment |
| Rendezvous.StepCount | subr_Linux.c:79-81 | no increment is lost, although load and store are separate steps |

## Left out

- Mapping.MapAligned: mapping with 1G or 2M pages is not modelled. No call asks for it, and neither the climb
  distances nor the entries would be right (`LargePages.Direct1G`, `LargePages.Direct2M`). The page size and the three
  function arguments are fixed to what the calls pass.
- Mapping.FillTable: fills last-level tables only, in steps of one page, for the same reason.
- Blocks.MapUnaligned: passes the 4K page size on, as both calls do.
- HostWalk.VirtToPhysIsHwWalk: says nothing about addresses the host does not translate; the code does not check for
  PRESENT and reads whatever the entries hold (`HostWalk.VirtToPhysIsWalk4K` says what it reads).
- Clear.Cpu.StoreNext: the processor's Accessed and Dirty bits, the TLB, and caches are not modelled; the tables are
  walked afresh for each store. The image's own variables, the stack and the VGA text are not part of the
  modelled memory, so "untouched" means untouched by the fill.
- Clear.Cpu.Exception: the register dump and the delays are left out; in the unreachable case of a fault outside of
  the fill the model only returns -1. What the assembly stub then does with it is not part of this model.
- Rendezvous.Step: lock and interrupt delivery are single steps; the loads and stores between them happen in program
  order, as the lock makes them on this machine. A CPU that goes online or offline meanwhile is not modelled.
- Image base and page count, read from the module loader (`clearram.c:105-113`), are parameters.
- clear_va_top is the result of initialisation and a constant of the fill, not a field of one global record.
- What a failed initialisation leaves behind as a whole: the source frees nothing. `Mapping.MapAligned` says which pages
  a failed call has mapped; nothing more is said of the index, the list and the tables then.
- The descriptor tables, the switch of CR3 and stack, exception entry, port I/O, the delays and the final reset: hardware
  effects with no property to prove.
- The character device, loading and unloading, kernel messages, VGA text output.
- `subr_FreeBSD.c` and the FreeBSD parts of `clearram.c`: thin wrappers, whose initialisation is unfinished
  (`clearram.c:111-112`).
- `cr_host_map_free` and `cr_host_mfree`, which are empty, and `cr_host_list_free`, which is never called.
