# The flattened device tree and the Xilinx I2C transmitter

This project models two parts of PYNQ-PRIO and proves what they are for.

The first is the flattened device tree of dtc 1.4.4, in both of its implementations. libfdt edits a packed blob in
place: header, reservation map, structure block and strings stand in one array of bytes, and every edit moves what is
behind it. dtc holds linked nodes and writes them out. The format is that of chapter 5 of the Devicetree
Specification.

The second is the transmit side of the Xilinx I2C driver, an interrupt thread that feeds a FIFO of 16 words which the
controller drains at any time.

## How the blob is modelled

Three layers stand on each other.

- `Tree`: a node has a name, properties and children. The edits of libfdt are functions on it.
- `StructBlock`, `Concrete`: the structure block as tokens, each with its bytes, and a concrete node: the tree together
  with what only the bytes know (name offsets, bytes in alignment gaps, NOP tags). `Den` is the tree it denotes.
- `FdtBase.Fdt`: an array of bytes and the fields of the header. `Holds` says that the structure block starts with the
  bytes of some tokens and that their names stand in the strings.

`Decode.DecodeUnique` shows that a blob denotes at most one tree. A method that edits a blob is given, as ghosts, the
tokens before a node, the node, and the tokens after it (`Focus`); it answers the new node, and its contract relates the
trees of the two and says that the tokens around have not changed. `Paths` turns this into statements about nodes of a
whole blob by their place. NOP tags are part of concrete nodes everywhere, so that every lookup and traversal is stated
for blobs with NOPs inside the root node.

## The parts

| files | what they hold |
|---|---|
| `bytes`, `structblock`, `tree`, `concrete`, `walk`, `focus`, `paths`, `shape`, `decode`, `results` | bytes, tokens, trees, and how they denote one another |
| `fdt`, `fdt_ro`, `traversal`, `naming`, `lookup`, `ancestors` | reading: tags, nodes, properties, paths, phandles, ancestors |
| `blockedit`, `propedit`, `tokenedit`, `nodeedit`, `room`, `fdt_rw`, `fdt_wip`, `memrsv`, `pack` | editing and the room it takes, NOPs, reservation map, packing and opening |
| `fdt_sw` | the sequential writer |
| `overlay`, `overlay_reloc`, `overlay_refs`, `overlay_fixups`, `overlay_merge`, `overlay_room`, `overlay_apply`, `overlay_sound`, `reloc_laws`, `fixup_laws`, `target_laws`, `merge_laws`, `remerge`, `fixup_text` | applying an overlay, and what it means |
| `livetree`, `livetree_exact`, `livetree_any`, `livenode`, `livetree_overlay` | dtc's merge of live trees with tombstones |
| `markers`, `references`, `path_refs` | values with markers, giving out phandles, filling in references |
| `checker` | the scheduler of dtc's checks |
| `flattree`, `flatio`, `flatin`, `flatlink`, `dtblob` | writing and reading the flat format in all five versions |
| `proptext` | property values as source text |
| `xiic` | the I2C driver |

Where the source works step by step, so does the model: classes with the source's fields, methods with its loops, each
proved against a function on trees, bytes or words; the laws are lemmas about those functions.

`dafny verify dfyconfig.toml` checks the whole project.

## Model

| member | source | states |
|---|---|---|
| OverlayApply.Apply | PYNQ-PRIO/device_tree_overlays/dtc-1.4.4/libfdt/fdt_overlay.c:633-677 | applying an overlay: the answer and the tree in the base afterwards are exactly those of folding deep merges of the relocated and fixed-up overlay into the resolved targets, fragment by fragment, in the room that the base has; an error before the merge leaves the base untouched, one in it leaves what had been merged by then; both magic numbers are erased as documented |
| FixupLaws.PlainResolves | PYNQ-PRIO/device_tree_overlays/dtc-1.4.4/libfdt/fdt_overlay.c:350-518 | end to end, for base and overlay as they are handed in: in the overlay that is merged, every cell that `__fixups__` lists, and no later entry lists again, holds the phandle, not 0, of the node at the path that the label has in `__symbols__` of the base |
| FixupLaws.FixupsResolve | PYNQ-PRIO/device_tree_overlays/dtc-1.4.4/libfdt/fdt_overlay.c:350-518 | the same for any overlay whose fixups do not change what their own paths mean |
| FixupLaws.FixupsKeep | PYNQ-PRIO/device_tree_overlays/dtc-1.4.4/libfdt/fdt_overlay.c:350-518 | bytes in no listed cell are those they were |
| FixupLaws.OneOutcomes | PYNQ-PRIO/device_tree_overlays/dtc-1.4.4/libfdt/fdt_overlay.c:350-389 | when an entry can be carried out, and the error when it cannot |
| TargetLaws.TargetByPhandle | PYNQ-PRIO/device_tree_overlays/dtc-1.4.4/libfdt/fdt_overlay.c:51-64 | a fragment that names a phandle is merged into the first node of the base that has it, and is an error exactly where no node has it |
| TargetLaws.TargetByPath | PYNQ-PRIO/device_tree_overlays/dtc-1.4.4/libfdt/fdt_overlay.c:66-82 | without a phandle it is merged into the node at its target-path |
| TargetLaws.FragmentByPhandle | PYNQ-PRIO/device_tree_overlays/dtc-1.4.4/libfdt/fdt_overlay.c:601-631 | where a single node has the phandle, exactly that node becomes its merge with the `__overlay__` child: nodes beside it stay, those above keep names, properties and number of children |
| TargetLaws.FragmentByPath | PYNQ-PRIO/device_tree_overlays/dtc-1.4.4/libfdt/fdt_overlay.c:601-631 | the same for a target-path |
| OverlaySound.PlainIsSound | PYNQ-PRIO/device_tree_overlays/dtc-1.4.4/libfdt/fdt_overlay.c:633-677 | a condition on base and overlay as they are handed in that is enough for the one of the application: absolute paths, tables without phandles that describe neither themselves nor a target-path |
| OverlayRoom.FragmentsExplained | PYNQ-PRIO/device_tree_overlays/dtc-1.4.4/libfdt/fdt_overlay.c:601-631 | the merge answers 0 only with the tree that the fragments mean; any other answer is NOSPACE, the error of a header that forbids edits, or that of a fragment without a target |
| OverlayRoom.FragmentsConserve | PYNQ-PRIO/device_tree_overlays/dtc-1.4.4/libfdt/fdt_overlay.c:601-631 | conservation over a whole merge: the bytes of the tree, of the strings and of the gap behind them are as many as before |
| EditRoom.MergedIn | PYNQ-PRIO/device_tree_overlays/dtc-1.4.4/libfdt/fdt_overlay.c:539-584 | a merge that does not run out of room is the deep merge |
| OverlayApply.MergeOverlay | PYNQ-PRIO/device_tree_overlays/dtc-1.4.4/libfdt/fdt_overlay.c:601-631 | the loop over the fragments: answer, tree and room left are those of the fold of the merges although every edit shifts the blob |
| OverlayApply.GetTarget | PYNQ-PRIO/device_tree_overlays/dtc-1.4.4/libfdt/fdt_overlay.c:51-83 | the target of a fragment, by phandle, path or alias, is the node that the trees say it is, with the right error otherwise |
| OverlayApply.AdjustLocalPhandles | PYNQ-PRIO/device_tree_overlays/dtc-1.4.4/libfdt/fdt_overlay.c:176-182 | in-place relocation of all phandles of the overlay: it denotes the relocated tree, or the error of the first node that cannot be relocated |
| OverlayApply.UpdateLocalReferences | PYNQ-PRIO/device_tree_overlays/dtc-1.4.4/libfdt/fdt_overlay.c:307-325 | in-place shift of all cells that `__local_fixups__` lists |
| OverlayApply.FixupPhandles | PYNQ-PRIO/device_tree_overlays/dtc-1.4.4/libfdt/fdt_overlay.c:492-518 | every entry of `__fixups__` sets its cell to the phandle of the node that the label stands for in the base |
| OverlayMerge.ApplyNode | PYNQ-PRIO/device_tree_overlays/dtc-1.4.4/libfdt/fdt_overlay.c:539-584 | the recursive merge on bytes: the target in focus becomes the right-biased deep merge as far as the room goes, NOSPACE exactly where it ends, and everything around it, and its offset, stay |
| OverlayMerge.ApplyKids | PYNQ-PRIO/device_tree_overlays/dtc-1.4.4/libfdt/fdt_overlay.c:559-581 | the loop over the children of an overlay node: found or newly added children are merged in order, as far as the room goes |
| OverlayMerge.ApplyProps | PYNQ-PRIO/device_tree_overlays/dtc-1.4.4/libfdt/fdt_overlay.c:544-557 | the loop over the properties of an overlay node: each is set on the target, as far as the room goes |
| OverlayReloc.PhandleAddOffset | PYNQ-PRIO/device_tree_overlays/dtc-1.4.4/libfdt/fdt_overlay.c:99-122 | one phandle property increased: not found, wrong length, overflow of the phandle space, or the new value in place |
| OverlayReloc.AdjustNodePhandles | PYNQ-PRIO/device_tree_overlays/dtc-1.4.4/libfdt/fdt_overlay.c:139-160 | the recursion over the overlay: the node becomes its relocation, the blob keeps its shape |
| OverlayRefs.UpdateNodeRefs | PYNQ-PRIO/device_tree_overlays/dtc-1.4.4/libfdt/fdt_overlay.c:203-288 | the recursion over a fixups node and the node it describes, both in the same buffer: the described node becomes its update, the fixups stay |
| OverlayFixups.FixupOnePhandle | PYNQ-PRIO/device_tree_overlays/dtc-1.4.4/libfdt/fdt_overlay.c:350-389 | one cell set to the phandle behind a label, with all error exits |
| OverlayFixups.FixupEntries | PYNQ-PRIO/device_tree_overlays/dtc-1.4.4/libfdt/fdt_overlay.c:410-473 | the parsing loop over the `path:property:offset` entries of a property |
| OverlayFixups.GetLabelPhandle | PYNQ-PRIO/device_tree_overlays/dtc-1.4.4/libfdt/fdt_overlay.c:359-373 | the phandle that a label of the base stands for |
| RelocLaws.PhandlesAreFresh | PYNQ-PRIO/device_tree_overlays/dtc-1.4.4/libfdt/fdt_overlay.c:99-122 | after shifting by the largest phandle of the base, a phandle of the overlay is not all-ones, and it is used nowhere in the base and not 0 exactly when it was not 0 before |
| RelocLaws.UpdateShifts | PYNQ-PRIO/device_tree_overlays/dtc-1.4.4/libfdt/fdt_overlay.c:203-288 | for every cell of the overlay: it is shifted as often as the fixups list it, and names are untouched |
| RelocLaws.UpdateExactly | PYNQ-PRIO/device_tree_overlays/dtc-1.4.4/libfdt/fdt_overlay.c:203-288 | the references of a node can be moved exactly when every node, property and cell that its fixups speak of is there; else it is a bad overlay |
| RelocLaws.OffsetOutcomes | PYNQ-PRIO/device_tree_overlays/dtc-1.4.4/libfdt/fdt_overlay.c:99-122 | the four outcomes for one phandle property, told apart by the property alone |
| RelocLaws.OtherProps | PYNQ-PRIO/device_tree_overlays/dtc-1.4.4/libfdt/fdt_overlay.c:139-160 | relocating phandles changes no other property of any node |
| RelocLaws.ReferencesFollow | PYNQ-PRIO/device_tree_overlays/dtc-1.4.4/libfdt/fdt_overlay.c:139-288 | a cell that named an overlay node and is listed once still names that node after relocation, and the unchecked addition does not overflow |
| MergeLaws.MergeIsUnion | PYNQ-PRIO/device_tree_overlays/dtc-1.4.4/libfdt/fdt_overlay.c:539-584 | the meaning of the deep merge: at every path and name the overlay's value if it has one, else the base's; the nodes are those of both |
| Remerge.SettlesExactly | PYNQ-PRIO/device_tree_overlays/dtc-1.4.4/libfdt/fdt_overlay.c:539-584 | merging the same overlay node a second time changes nothing, whatever its properties and whatever the base, exactly when the names of siblings settle: a name that also stands for a node with a unit address comes after that node, and so on below for those that may be merged into one node |
| Remerge.MergeTwice | PYNQ-PRIO/device_tree_overlays/dtc-1.4.4/libfdt/fdt_overlay.c:539-584 | applying the same overlay node a second time changes nothing when its names settle; properties may repeat |
| Remerge.UnambiguousSettles | PYNQ-PRIO/device_tree_overlays/dtc-1.4.4/libfdt/fdt_overlay.c:539-584 | names settle wherever no name can be taken for a sibling's |
| Remerge.TwiceDiffers | PYNQ-PRIO/device_tree_overlays/dtc-1.4.4/libfdt/fdt_ro.c:58-76 | a concrete overlay with siblings `a` and `a@1`, in this order, for which a second merge makes a different tree |
| MergeLaws.FragmentElsewhere | PYNQ-PRIO/device_tree_overlays/dtc-1.4.4/libfdt/fdt_overlay.c:601-631 | a fragment changes nothing beside its target, and above it neither names nor properties nor the number of children |
| MergeLaws.FragmentsElsewhere | PYNQ-PRIO/device_tree_overlays/dtc-1.4.4/libfdt/fdt_overlay.c:601-631 | the same for all fragments, each merged into what the ones before it made: a node that no fragment names, nor any above it, keeps name, properties and number of children, and is as it was when none names a node below it |
| MergeLaws.MergePropsValue | PYNQ-PRIO/device_tree_overlays/dtc-1.4.4/libfdt/fdt_overlay.c:544-557 | the value under a name after merging properties: the overlay's last word, else the old one |
| FixupText.ListRoundTrip | PYNQ-PRIO/device_tree_overlays/dtc-1.4.4/livetree.c:834-875 | what dtc writes into `__fixups__` is taken apart by libfdt's loop into the same entries in the same order |
| FixupText.EntryRoundTrip | PYNQ-PRIO/device_tree_overlays/dtc-1.4.4/livetree.c:834-852 | one entry is parsed back exactly when path and name hold no colon and the name is not empty |
| FdtRw.SetProp | PYNQ-PRIO/device_tree_overlays/dtc-1.4.4/libfdt/fdt_rw.c:272-289 | the node in focus becomes the node with the property set, nothing else changes; NOSPACE exactly when value, token and name do not fit, and then at most the string table has grown |
| FdtRw.AppendProp | PYNQ-PRIO/device_tree_overlays/dtc-1.4.4/libfdt/fdt_rw.c:291-316 | the value is appended to the old one, or makes a new property; same frame and the same exact room |
| FdtRw.DelProp | PYNQ-PRIO/device_tree_overlays/dtc-1.4.4/libfdt/fdt_rw.c:318-331 | the property disappears and nothing else does |
| FdtRw.DelNode | PYNQ-PRIO/device_tree_overlays/dtc-1.4.4/libfdt/fdt_rw.c:379-391 | the child and all below it disappear and nothing else does |
| FdtRw.AddSubnode | PYNQ-PRIO/device_tree_overlays/dtc-1.4.4/libfdt/fdt_rw.c:333-372 | EXISTS exactly when the name matches a child; otherwise a new empty first child, at the offset returned, NOSPACE exactly when it does not fit |
| FdtRw.SetName | PYNQ-PRIO/device_tree_overlays/dtc-1.4.4/libfdt/fdt_rw.c:249-270 | the node has the new name, whatever the lengths of the two are, NOSPACE exactly when it does not fit |
| FdtRw.AddProperty | PYNQ-PRIO/device_tree_overlays/dtc-1.4.4/libfdt/fdt_rw.c:221-247 | room and header of a new first property, or NOSPACE, exactly when they or the name do not fit, with only the string table changed |
| BlockEdit.SpliceStruct | PYNQ-PRIO/device_tree_overlays/dtc-1.4.4/libfdt/fdt_rw.c:125-137 | a splice inside the structure block: every byte outside the splice is kept, the strings move along, NOSPACE exactly when there is no room |
| BlockEdit.FindAddString | PYNQ-PRIO/device_tree_overlays/dtc-1.4.4/libfdt/fdt_rw.c:152-172 | an offset at which the string stands afterwards; a string that stands anywhere in the table is reused, otherwise the table grows at its end, NOSPACE exactly when it cannot |
| BlockEdit.FindIn | PYNQ-PRIO/device_tree_overlays/dtc-1.4.4/libfdt/fdt.c:230-240 | the first place where the string and its terminator stand, or none anywhere |
| MemRsv.AddMemRsv | PYNQ-PRIO/device_tree_overlays/dtc-1.4.4/libfdt/fdt_rw.c:174-189 | the entry is appended to the map; tree and strings stay; NOSPACE exactly when 16 bytes are missing |
| MemRsv.DelMemRsv | PYNQ-PRIO/device_tree_overlays/dtc-1.4.4/libfdt/fdt_rw.c:191-201 | the n-th entry is removed, NOTFOUND when there is none; tree and strings stay |
| MemRsv.NumMemRsv | PYNQ-PRIO/device_tree_overlays/dtc-1.4.4/libfdt/fdt_ro.c:125-132 | the number of entries before the first of size 0 |
| MemRsv.ListsUnique | PYNQ-PRIO/device_tree_overlays/dtc-1.4.4/libfdt/fdt_ro.c:117-132 | the bytes of a reservation map denote one list of entries |
| Packing.PackInPlace | PYNQ-PRIO/device_tree_overlays/dtc-1.4.4/libfdt/fdt_rw.c:479-491 | packing inside one buffer: same map, tree and strings, no gaps, exact total size, and packing again changes nothing |
| Packing.ThreePut | PYNQ-PRIO/device_tree_overlays/dtc-1.4.4/libfdt/fdt_rw.c:393-413 | the three moves towards the front: no block is overwritten before it has been moved |
| Packing.OpenInto | PYNQ-PRIO/device_tree_overlays/dtc-1.4.4/libfdt/fdt_rw.c:415-477 | opening into another buffer, whatever the order of the blocks: same map, tree and strings in the standard order with the size asked for, NOSPACE exactly when that is less than the blob, or its blocks, take |
| Packing.StructSize | PYNQ-PRIO/device_tree_overlays/dtc-1.4.4/libfdt/fdt_rw.c:430-439 | the size of the structure block of a blob that does not record it |
| FdtWip.SetPropInplacePartial | PYNQ-PRIO/device_tree_overlays/dtc-1.4.4/libfdt/fdt_wip.c:58-76 | part of a value is overwritten where it stands: NOSPACE when it does not fit, otherwise the tree with the patched value |
| FdtWip.NopProperty | PYNQ-PRIO/device_tree_overlays/dtc-1.4.4/libfdt/fdt_wip.c:104-116 | overwriting a property by NOPs yields the tree that deleting it yields, and moves nothing |
| FdtWip.NopNode | PYNQ-PRIO/device_tree_overlays/dtc-1.4.4/libfdt/fdt_wip.c:128-139 | overwriting a node by NOPs yields the tree that deleting it yields, and moves nothing |
| FdtWip.NodeEndOffset | PYNQ-PRIO/device_tree_overlays/dtc-1.4.4/libfdt/fdt_wip.c:118-126 | the offset just behind the node, found by walking over all that is below it |
| Shape.PatchAt | PYNQ-PRIO/device_tree_overlays/dtc-1.4.4/libfdt/fdt_wip.c:58-76 | an in-place patch at any node of a whole blob keeps the offset of every node and property |
| FdtBase.NextTag | PYNQ-PRIO/device_tree_overlays/dtc-1.4.4/libfdt/fdt.c:94-142 | on any bytes, the loop over the name and the length checks answer what the function on the block says |
| StructBlock.NextTagAt | PYNQ-PRIO/device_tree_overlays/dtc-1.4.4/libfdt/fdt.c:94-142 | at the start of a token the answer is that token's tag and the offset of the next one |
| StructBlock.TokenBytes | PYNQ-PRIO/device_tree_overlays/dtc-1.4.4/libfdt/fdt.c:94-142 | the bytes of each tag and of what follows it, in numbers |
| FdtBase.NextNode | PYNQ-PRIO/device_tree_overlays/dtc-1.4.4/libfdt/fdt.c:162-200 | one step of the walk, with the depth kept by the caller |
| Traversal.NextNodeAt | PYNQ-PRIO/device_tree_overlays/dtc-1.4.4/libfdt/fdt.c:162-200 | from -1 on, every node is visited once, a node before its children, with its true depth, and then the walk stops |
| Walking.WalkNode | PYNQ-PRIO/device_tree_overlays/dtc-1.4.4/libfdt/fdt.c:162-200 | walking through a node visits exactly its preorder and comes back to the depth it started from |
| FdtRo.SubnodeOffset | PYNQ-PRIO/device_tree_overlays/dtc-1.4.4/libfdt/fdt_ro.c:158-175 | the first child that the name matches (unit addresses may be left out), NOTFOUND exactly when there is none |
| FdtRo.GetProperty | PYNQ-PRIO/device_tree_overlays/dtc-1.4.4/libfdt/fdt_ro.c:292-314 | the first property of that name, with NOPs between tags or without, or NOTFOUND |
| FdtRo.NodenameEq | PYNQ-PRIO/device_tree_overlays/dtc-1.4.4/libfdt/fdt_ro.c:58-76 | the byte comparison is the name-matching rule |
| Tree.MatchesExactly | PYNQ-PRIO/device_tree_overlays/dtc-1.4.4/libfdt/fdt_ro.c:58-76 | a node answers to its name, and to that without its unit address |
| FdtRo.NextSubnode | PYNQ-PRIO/device_tree_overlays/dtc-1.4.4/libfdt/fdt.c:213-228 | from a child to the next sibling, over everything below it; NOTFOUND for an offset that fails the check |
| FdtRo.FirstSubnode | PYNQ-PRIO/device_tree_overlays/dtc-1.4.4/libfdt/fdt.c:202-211 | the first child, or NOTFOUND, also for an offset that fails the check |
| FdtRo.NextPropertyOffset | PYNQ-PRIO/device_tree_overlays/dtc-1.4.4/libfdt/fdt_ro.c:263-269 | from a property to the next, over NOPs; BADOFFSET for an offset that fails the check |
| FdtRo.GetPropByOffset | PYNQ-PRIO/device_tree_overlays/dtc-1.4.4/libfdt/fdt_ro.c:336-347 | length, name and value of a property by its offset; BADOFFSET for an offset that fails the check |
| FdtRo.GetName | PYNQ-PRIO/device_tree_overlays/dtc-1.4.4/libfdt/fdt_ro.c:233-251 | the name and its length |
| Lookup.PathOffset | PYNQ-PRIO/device_tree_overlays/dtc-1.4.4/libfdt/fdt_ro.c:183-226 | the node that a path leads to in the tree, or an alias, or an alias of an alias and so on, or the error |
| Lookup.GetAlias | PYNQ-PRIO/device_tree_overlays/dtc-1.4.4/libfdt/fdt_ro.c:372-382 | the value of an alias |
| Lookup.GetPhandle | PYNQ-PRIO/device_tree_overlays/dtc-1.4.4/libfdt/fdt_ro.c:355-370 | the phandle of a node, from either property |
| Lookup.GetMaxPhandle | PYNQ-PRIO/device_tree_overlays/dtc-1.4.4/libfdt/fdt_ro.c:91-115 | the largest phandle of the tree, all-ones not counted |
| Lookup.NodeOffsetByPhandle | PYNQ-PRIO/device_tree_overlays/dtc-1.4.4/libfdt/fdt_ro.c:525-548 | the first node with the phandle, BADPHANDLE for 0 and -1 |
| Naming.MaxPhandleBounds | PYNQ-PRIO/device_tree_overlays/dtc-1.4.4/libfdt/fdt_ro.c:91-115 | no node has a larger phandle, and some node has that one |
| Naming.NodeByPhandleFinds | PYNQ-PRIO/device_tree_overlays/dtc-1.4.4/libfdt/fdt_ro.c:525-548 | the search fails only where no node has the phandle |
| Naming.PathRoundTrip | PYNQ-PRIO/device_tree_overlays/dtc-1.4.4/libfdt/fdt_ro.c:183-226 | looking up a node's full path leads back to it exactly when no earlier sibling on the way takes one of the names |
| Naming.AliasExpands | PYNQ-PRIO/device_tree_overlays/dtc-1.4.4/libfdt/fdt_ro.c:191-204 | an alias in front of a path may be replaced by what it stands for: the lookup leads to the same node, or fails in the same way |
| Naming.PhandleWritten | PYNQ-PRIO/device_tree_overlays/dtc-1.4.4/libfdt/fdt_ro.c:355-370 | a phandle written into `phandle` is the node's; one written into `linux,phandle` is where there is no other |
| Ancestors.GetPath | PYNQ-PRIO/device_tree_overlays/dtc-1.4.4/libfdt/fdt_ro.c:389-439 | the path of the node with its terminator when it fits, NOSPACE exactly when it does not, BADOFFSET where no node starts; nothing behind the buffer is written |
| Ancestors.GetPathRoundTrip | PYNQ-PRIO/device_tree_overlays/dtc-1.4.4/libfdt/fdt_ro.c:389-439 | the path returned leads fdt_path_offset back to the node exactly when the names on the way can be told apart |
| Ancestors.SupernodeAtDepth | PYNQ-PRIO/device_tree_overlays/dtc-1.4.4/libfdt/fdt_ro.c:441-475 | the ancestor at that depth and the node's own depth, NOTFOUND below it, BADOFFSET where no node starts |
| Ancestors.ParentOffset | PYNQ-PRIO/device_tree_overlays/dtc-1.4.4/libfdt/fdt_ro.c:488-496 | the node one step up; the root has none |
| Ancestors.NodeDepth | PYNQ-PRIO/device_tree_overlays/dtc-1.4.4/libfdt/fdt_ro.c:477-486 | the length of the way down to the node |
| Ancestors.PlacesChain | PYNQ-PRIO/device_tree_overlays/dtc-1.4.4/libfdt/fdt.c:162-200 | in preorder each node is a child of the one before or of one of its ancestors |
| Decode.DecodeUnique | PYNQ-PRIO/device_tree_overlays/dtc-1.4.4/libfdt/fdt.c:94-142 | the bytes of a blob denote at most one tree: what "the tree of a blob" means does not depend on how it is read |
| Decode.NodeUnique | PYNQ-PRIO/device_tree_overlays/dtc-1.4.4/libfdt/fdt.c:94-142 | a list of tokens is read as a node in one way only |
| SeqWrite.Build | PYNQ-PRIO/device_tree_overlays/dtc-1.4.4/libfdt/fdt_sw.c:88-288 | a whole run for any map and any calls: when no name starts in front of the buffer it succeeds exactly when the buffer has room for what is described, and then the blob holds exactly that and is not a byte longer; which runs do go in front of the buffer is said exactly, and nothing more of them |
| SeqWrite.RefusedExactly | PYNQ-PRIO/device_tree_overlays/dtc-1.4.4/libfdt/fdt_sw.c:213-216 | the unsigned comparison is right about the room left exactly when the name does not start in front of the buffer, which it does exactly when the strings would be longer than the whole buffer |
| SeqWrite.NameInFront | PYNQ-PRIO/device_tree_overlays/dtc-1.4.4/libfdt/fdt_sw.c:213-216 | a concrete run in a buffer of 72 bytes in which a name of 72 bytes is accepted without room for it |
| SeqWrite.OutsideNoRoom | PYNQ-PRIO/device_tree_overlays/dtc-1.4.4/libfdt/fdt_sw.c:200-243 | a run that goes in front of the buffer has no room; and when all names with their terminators are together no longer than the buffer, no run does |
| SeqWrite.WriteTree | PYNQ-PRIO/device_tree_overlays/dtc-1.4.4/libfdt/fdt_sw.c:142-288 | the properly nested calls for a tree end, with the same room contract, in a blob that decodes to that tree |
| SeqWrite.FinishedTree | PYNQ-PRIO/device_tree_overlays/dtc-1.4.4/libfdt/fdt_sw.c:245-288 | a finished blob of properly nested calls decodes to the tree they describe |
| SeqWrite.FinishedMap | PYNQ-PRIO/device_tree_overlays/dtc-1.4.4/libfdt/fdt_sw.c:142-168 | the entries added are the reservation map of the finished blob |
| SeqWrite.Finish | PYNQ-PRIO/device_tree_overlays/dtc-1.4.4/libfdt/fdt_sw.c:245-288 | the strings move behind the structure block, every negative name offset becomes that of the same string; the finished header is valid and the total size exact |
| SeqWrite.FixNames | PYNQ-PRIO/device_tree_overlays/dtc-1.4.4/libfdt/fdt_sw.c:268-283 | the loop over the tags that patches the name offsets |
| SeqWrite.Property | PYNQ-PRIO/device_tree_overlays/dtc-1.4.4/libfdt/fdt_sw.c:223-243 | described on success, NOSPACE exactly when token and new name do not fit, unless the name starts in front of the buffer; on failure nothing has been described although the name may have been added |
| SeqWrite.BeginNode | PYNQ-PRIO/device_tree_overlays/dtc-1.4.4/libfdt/fdt_sw.c:170-184 | one more BEGIN_NODE, NOSPACE exactly when it does not fit between structure and strings |
| SeqWrite.EndNodeCall | PYNQ-PRIO/device_tree_overlays/dtc-1.4.4/libfdt/fdt_sw.c:186-198 | one more END_NODE, NOSPACE exactly when it does not fit |
| SeqWrite.FindAddString | PYNQ-PRIO/device_tree_overlays/dtc-1.4.4/libfdt/fdt_sw.c:200-221 | how far before the end of the buffer the string starts; 0 exactly when it is new and there is no room, unless it starts in front of the buffer, which is said exactly |
| SeqWrite.AddReservemapEntry | PYNQ-PRIO/device_tree_overlays/dtc-1.4.4/libfdt/fdt_sw.c:142-163 | one more entry; BADSTATE once the structure has been started |
| SeqWrite.Create | PYNQ-PRIO/device_tree_overlays/dtc-1.4.4/libfdt/fdt_sw.c:88-108 | an empty blob with the reservation map open |
| SeqWrite.Resize | PYNQ-PRIO/device_tree_overlays/dtc-1.4.4/libfdt/fdt_sw.c:110-140 | growing or shrinking in place: what was described survives exactly when there is room for the structure block too, which the code does not check |
| SeqWrite.ResizeLoses | PYNQ-PRIO/device_tree_overlays/dtc-1.4.4/libfdt/fdt_sw.c:110-140 | a concrete run in which the new size is accepted and the structure block is lost |
| SeqWrite.BelowGrown | PYNQ-PRIO/device_tree_overlays/dtc-1.4.4/libfdt/fdt_sw.c:200-221 | strings keep their distance from the end when the table grows at its front |
| LiveNodes.Node.MergeNodes | PYNQ-PRIO/device_tree_overlays/dtc-1.4.4/livetree.c:137-217 | the merge on linked nodes, updating in place and using up the override, is the merge of the trees they stand for |
| LiveNodes.Node.Delete | PYNQ-PRIO/device_tree_overlays/dtc-1.4.4/livetree.c:286-297 | the node and everything below it are marked as deleted |
| LiveNodes.Node.DeleteNodeByName | PYNQ-PRIO/device_tree_overlays/dtc-1.4.4/livetree.c:273-284 | the first child of that name is marked as deleted, with all below it |
| Livetree.DefineThenDelete | PYNQ-PRIO/device_tree_overlays/dtc-1.4.4/livetree.c:195-210 | where names repeat in an override, taking it over and patching differ: a concrete input |
| LivetreeExact.LaterDeletion | PYNQ-PRIO/device_tree_overlays/dtc-1.4.4/livetree.c:240-251 | a node that deletes a property and defines it again is taken over faithfully, and then an override that deletes the property does not: a concrete input |
| LivetreeAny.MergeExactly | PYNQ-PRIO/device_tree_overlays/dtc-1.4.4/livetree.c:137-217 | for any tree and any override, whatever repeats, hides or is dead: what is visible after the merge is the override applied as a patch exactly when nothing that is deleted in the end hides another of its name, and, child by child, every definition that no deletion follows finds a node of which it makes what it makes of the visible one, or is taken over as what it says |
| LivetreeExact.MergeIsPatchExactly | PYNQ-PRIO/device_tree_overlays/dtc-1.4.4/livetree.c:137-217 | for a tree that hides nothing and any override, with names as often as one likes: what is visible after the merge is the override applied as a patch exactly when every node that is taken over shows what its definitions say |
| LivetreeExact.PlainExactly | PYNQ-PRIO/device_tree_overlays/dtc-1.4.4/livetree.c:137-217 | and the tree hides nothing afterwards exactly when nothing that is taken over does |
| LivetreeExact.PlainIsEnough | PYNQ-PRIO/device_tree_overlays/dtc-1.4.4/livetree.c:137-217 | the trees that hide nothing are exactly those into which every override without repeated names is merged as a patch |
| LivetreeExact.OverridesInOrder | PYNQ-PRIO/device_tree_overlays/dtc-1.4.4/livetree.c:137-217 | any number of such overrides, one after the other: the result is all of them applied as patches |
| LivetreeExact.PropsExactly | PYNQ-PRIO/device_tree_overlays/dtc-1.4.4/livetree.c:149-180 | for any two property lists: merging is patching exactly when no property that the override deletes in the end has a live entry behind its first one |
| LivetreeExact.ShowsExactly | PYNQ-PRIO/device_tree_overlays/dtc-1.4.4/livetree.c:195-210 | for any two trees: one as it stands shows the other applied as a patch exactly when, for every name at every depth, the first live entry is as good as the last word |
| LivetreeExact.MergeClean | PYNQ-PRIO/device_tree_overlays/dtc-1.4.4/livetree.c:137-217 | nothing dead holds anything live, and no merge changes that |
| LivetreeOverlay.MergesAgree | PYNQ-PRIO/device_tree_overlays/dtc-1.4.4/livetree.c:137-217 | without deletions dtc's merge and libfdt's merge of an overlay give the same tree up to order |
| References.Dti.CheckPhandleProp | PYNQ-PRIO/device_tree_overlays/dtc-1.4.4/checks.c:400-445 | the only phandle the property allows, or none in particular, or a failure: exactly |
| References.Dti.ExplicitPhandle | PYNQ-PRIO/device_tree_overlays/dtc-1.4.4/checks.c:447-480 | fails exactly when no phandle that the properties allow is free; otherwise the node's phandle agrees with them |
| References.Dti.ExplicitPhandles | PYNQ-PRIO/device_tree_overlays/dtc-1.4.4/checks.c:447-480 | the pass fails exactly when no assignment of distinct phandles satisfies all properties |
| References.Dti.GetNodePhandle | PYNQ-PRIO/device_tree_overlays/dtc-1.4.4/livetree.c:541-570 | the node's phandle, or the least number that no node has; then the properties of the chosen format that were not there have been added, `linux,phandle` before `phandle`, with that number; nothing else has been added or changed, and all agreements are kept |
| References.Pigeonhole | PYNQ-PRIO/device_tree_overlays/dtc-1.4.4/livetree.c:541-570 | the counter cannot have got further than there are nodes, so it never reaches -1 |
| References.Dti.FixNode | PYNQ-PRIO/device_tree_overlays/dtc-1.4.4/checks.c:517-546 | all references of a node are filled in, though filling them may add phandle properties to any node, this one included; nothing but cells of references is written; it fails exactly when a reference of the node means no node |
| References.Dti.PhandleReferences | PYNQ-PRIO/device_tree_overlays/dtc-1.4.4/checks.c:517-546 | the pass fails exactly when a reference means no node, otherwise every reference holds its node's phandle; every property is where it was with its markers, only cells of references have changed, and only phandle properties of nodes that got a phandle have been added |
| PathRefs.ExpandPaths | PYNQ-PRIO/device_tree_overlays/dtc-1.4.4/checks.c:550-576 | every path stands at its marker, every phandle cell is still at its own, and erasing the paths gives the old bytes |
| PathRefs.PathReferences | PYNQ-PRIO/device_tree_overlays/dtc-1.4.4/checks.c:550-576 | the same for the whole tree; it fails exactly on a reference without a node |
| PathRefs.RunReferences | PYNQ-PRIO/device_tree_overlays/dtc-1.4.4/checks.c:447-576 | the three checks in order: every original property comes out at its place with its name and its markers, and without the paths its bytes have changed in cells of references only; what has been added are phandle properties of the chosen format that were not there, holding the node's phandle, and only for nodes without one in the source that some reference means; they fail exactly when phandles cannot be assigned or a reference means no node; otherwise phandles are pairwise distinct, every reference is in place, and every node with a phandle carries it |
| Markers.InsertAtMarker | PYNQ-PRIO/device_tree_overlays/dtc-1.4.4/data.c:128-141 | bytes and later markers move, earlier ones stay |
| Markers.MergedBytes | PYNQ-PRIO/device_tree_overlays/dtc-1.4.4/data.c:154-169 | after merging two values every marker of the second is on the bytes it was on |
| Markers.BuiltSound | PYNQ-PRIO/device_tree_overlays/dtc-1.4.4/data.c:120-251 | values put together by the parser's operations have their markers in order, none inside a reference |
| Checker.ProcessChecks | PYNQ-PRIO/device_tree_overlays/dtc-1.4.4/checks.c:823-845 | reports an error exactly when a check at error level has not passed; otherwise every check that is switched on has been reached, and has been run exactly when all its prerequisites have passed; the levels stay as they were, and only checks that are switched on and what they depend on are touched |
| Checker.RunCheck | PYNQ-PRIO/device_tree_overlays/dtc-1.4.4/checks.c:111-149 | the verdict on one check: it is run exactly when all its prerequisites have passed, no verdict is ever withdrawn, nothing outside what it depends on is touched |
| Checker.RunExactly | PYNQ-PRIO/device_tree_overlays/dtc-1.4.4/checks.c:111-149 | of a check that has been reached: it has been run exactly when its prerequisites have all passed, goes without exactly when one has not, and fails only by its own run |
| Checker.Enable | PYNQ-PRIO/device_tree_overlays/dtc-1.4.4/checks.c:762-773 | exactly the check and everything it depends on are raised |
| Checker.Disable | PYNQ-PRIO/device_tree_overlays/dtc-1.4.4/checks.c:775-794 | exactly the check and everything that depends on it are lowered |
| FlatIo.FlattenTree | PYNQ-PRIO/device_tree_overlays/dtc-1.4.4/flattree.c:250-306 | the recursion over live nodes with two growing buffers writes the live part of the tree, tombstones dropped, order kept |
| FlatIo.StringtableInsert | PYNQ-PRIO/device_tree_overlays/dtc-1.4.4/flattree.c:235-248 | the offset of the string in the table, added only when it is not there |
| Flattree.InsertedReads | PYNQ-PRIO/device_tree_overlays/dtc-1.4.4/flattree.c:235-248 | every offset ever answered reads back its string in every later table |
| Flattree.ValuePlace | PYNQ-PRIO/device_tree_overlays/dtc-1.4.4/flattree.c:276-286 | a value stands behind its header at the next multiple of 4, in the old versions one of at least 8 bytes at the next multiple of 8, with zeros before and behind |
| Flattree.NodeBegins | PYNQ-PRIO/device_tree_overlays/dtc-1.4.4/flattree.c:261-268 | a node begins with its full path in the old versions, else with its name |
| Flattree.NameWritten | PYNQ-PRIO/device_tree_overlays/dtc-1.4.4/flattree.c:289-300 | the name property of old versions is the name up to the unit address |
| Flattree.FlattenReadsBack | PYNQ-PRIO/device_tree_overlays/dtc-1.4.4/flattree.c:250-306 | reading back what was written gives the tree for versions 16 and 17, and the tree up to redundant name properties for versions 1 to 3 |
| Flattree.RereadOld | PYNQ-PRIO/device_tree_overlays/dtc-1.4.4/checks.c:483-509 | after check_name_properties the tree of an old version is the one that was written |
| Flattree.NameWithoutBase | PYNQ-PRIO/device_tree_overlays/dtc-1.4.4/flattree.c:67-76 | a length of 0 means the whole string: what is written for a name without base name can be read exactly when the name has at most three bytes |
| FlatIn.UnflattenTree | PYNQ-PRIO/device_tree_overlays/dtc-1.4.4/flattree.c:745-807 | the reader that advances a pointer answers what the specification of the format says, and fails where that has no answer |
| FlatIn.ReadProperty | PYNQ-PRIO/device_tree_overlays/dtc-1.4.4/flattree.c:678-696 | one property read, with the alignment of old versions |
| FlatIn.InBuf.ReadString | PYNQ-PRIO/device_tree_overlays/dtc-1.4.4/flattree.c:621-640 | a terminated string and its alignment |
| FlatLink.DtcWritesWhatLibfdtReads | PYNQ-PRIO/device_tree_overlays/dtc-1.4.4/flattree.c:250-306 | blocks written by dtc are a blob that libfdt reads as the same tree |
| DtBlob.DtToBlob | PYNQ-PRIO/device_tree_overlays/dtc-1.4.4/flattree.c:360-445 | for every version and padding option: each header field is where and what the version says, each block stands at its offset, and the length is exactly the one asked for |
| DtBlob.HeaderSays | PYNQ-PRIO/device_tree_overlays/dtc-1.4.4/flattree.c:328-355 | the header word by word, in numbers, for each of the five versions |
| DtBlob.TargetIs | PYNQ-PRIO/device_tree_overlays/dtc-1.4.4/flattree.c:384-412 | that length is at least the least size, or used space plus padding, and a multiple of the alignment |
| DtBlob.PadLength | PYNQ-PRIO/device_tree_overlays/dtc-1.4.4/flattree.c:384-405 | the three steps of the padding come to that length, for the alignments that the command line accepts |
| DtBlob.LibfdtReads | PYNQ-PRIO/device_tree_overlays/dtc-1.4.4/flattree.c:328-358 | libfdt accepts blobs of versions 16 and 17 and reads the tree written; it refuses the older versions |
| DtBlob.LibfdtReserves | PYNQ-PRIO/device_tree_overlays/dtc-1.4.4/flattree.c:308-326 | the reservation map libfdt finds is the list given, extra empty slots or not |
| PropText.WritePropval | PYNQ-PRIO/device_tree_overlays/dtc-1.4.4/treesource.c:195-234 | the loops that count and print choose and produce exactly one of the three forms |
| PropText.FormIs | PYNQ-PRIO/device_tree_overlays/dtc-1.4.4/treesource.c:195-234 | which of the three forms a value takes, by its bytes alone |
| PropText.WriteString | PYNQ-PRIO/device_tree_overlays/dtc-1.4.4/treesource.c:64-135 | the string form, byte by byte |
| PropText.WriteCells | PYNQ-PRIO/device_tree_overlays/dtc-1.4.4/treesource.c:137-165 | the cell form |
| PropText.WriteBytes | PYNQ-PRIO/device_tree_overlays/dtc-1.4.4/treesource.c:167-193 | the byte form |
| PropText.CopyEscapeString | PYNQ-PRIO/device_tree_overlays/dtc-1.4.4/data.c:71-91 | the decoding loop computes what the escapes in the first bytes of a text stand for, reading on behind them as the source does |
| PropText.EscapeReads | PYNQ-PRIO/device_tree_overlays/dtc-1.4.4/util.c:139-228 | any byte but NUL, as it is written inside a string, is read back as itself, with `\x` and two digits where it has no other form |
| PropText.HexEscape | PYNQ-PRIO/device_tree_overlays/dtc-1.4.4/util.c:162-177 | two hexadecimal digits behind `\x` are the byte they spell |
| PropText.ValueRoundTrip | PYNQ-PRIO/device_tree_overlays/dtc-1.4.4/treesource.c:195-234 | whatever the bytes, the text printed for them is read back as the same bytes |
| Xiic.Run | PYNQ-PRIO/boards/ZCU104/prio_linux/linux_drivers/iic/i2c-xiic.c:366-507 | for any list of interrupts, bus activity and timeouts: what has been written to the transmit register is a prefix of the stream the messages stand for, the FIFO never overflows, and DONE means that everything was written, which the controller reads as the messages, and the final read completed |
| Xiic.Complete | PYNQ-PRIO/boards/ZCU104/prio_linux/linux_drivers/iic/i2c-xiic.c:366-507 | a transfer on which nothing goes wrong ends in DONE with everything pushed and read, the messages as the controller reads them: it drains its FIFO and says so, or delivers bytes and says so, with any harmless interrupts in between, for less steps than there are messages and bytes |
| Xiic.StreamSaysMessages | PYNQ-PRIO/boards/ZCU104/prio_linux/linux_drivers/iic/i2c-xiic.c:336-355 | a reader of FIFO words (bit 8 starts a message, with address and direction below it, bit 9 stops the bus, behind the start of a read stands the count) gets addresses, directions, bytes, counts and the stop of the messages back, exactly when no read goes without a start |
| Xiic.StopIsLast | PYNQ-PRIO/boards/ZCU104/prio_linux/linux_drivers/iic/i2c-xiic.c:336-355 | only the last word of a stream carries STOP |
| Xiic.SentPrefix | PYNQ-PRIO/boards/ZCU104/prio_linux/linux_drivers/iic/i2c-xiic.c:336-355 | every position in the messages stands for a prefix of the stream |
| Xiic.Driver.Process | PYNQ-PRIO/boards/ZCU104/prio_linux/linux_drivers/iic/i2c-xiic.c:366-507 | one pass of the interrupt thread keeps the invariant and takes nothing back that was pushed; harmless interrupts bring the transfer no further from its end, and one that the controller raises for more work brings it nearer |
| Xiic.Driver.FillTxFifo | PYNQ-PRIO/boards/ZCU104/prio_linux/linux_drivers/iic/i2c-xiic.c:336-355 | as many bytes of the current message as fit are pushed, the last one with STOP |
| Xiic.Driver.StartRecv | PYNQ-PRIO/boards/ZCU104/prio_linux/linux_drivers/iic/i2c-xiic.c:537-575 | the words of a final read; the driver goes on to receive |
| Xiic.Driver.StartSend | PYNQ-PRIO/boards/ZCU104/prio_linux/linux_drivers/iic/i2c-xiic.c:577-605 | START and address, then what fits of the data |
| Xiic.Driver.StartMessages | PYNQ-PRIO/boards/ZCU104/prio_linux/linux_drivers/iic/i2c-xiic.c:627-669 | messages are started while there is room for two words, each after the one before has been pushed |
| Xiic.Driver.ReadRx | PYNQ-PRIO/boards/ZCU104/prio_linux/linux_drivers/iic/i2c-xiic.c:305-328 | bytes are taken from the FIFO into the buffer in order |
| Xiic.Driver.ProcessBusNotBusy | PYNQ-PRIO/boards/ZCU104/prio_linux/linux_drivers/iic/i2c-xiic.c:477-495 | DONE exactly when the last message has been pushed and read, else ERROR |
| Xiic.Driver.ProcessRx | PYNQ-PRIO/boards/ZCU104/prio_linux/linux_drivers/iic/i2c-xiic.c:412-446 | at least one byte is taken, all of them if the read wants them; the read is over exactly when its length has been received |
| Xiic.Driver.ErrorReset | PYNQ-PRIO/boards/ZCU104/prio_linux/linux_drivers/iic/i2c-xiic.c:384-410 | after an error the driver is idle and what was pushed is still a prefix |

## Findings

Where the code does not do what its documentation, or its caller, may expect:

- PYNQ-PRIO/device_tree_overlays/dtc-1.4.4/libfdt/fdt_sw.c:215 compares an unsigned sum. When the strings written so far and a new name are together longer than the whole buffer, the sum wraps around, the test for room passes, and the name is stored in front of the buffer. `SeqWrite.NameInFront` is an input, `SeqWrite.RefusedExactly` the exact condition, and `SeqWrite.OutsideNoRoom` what a caller can see to.
- PYNQ-PRIO/device_tree_overlays/dtc-1.4.4/libfdt/fdt_sw.c:120 leaves the structure block out of the check of a new size; `SeqWrite.ResizeLoses` is an input, and `SeqWrite.Resize` says exactly what survives.
- PYNQ-PRIO/device_tree_overlays/dtc-1.4.4/libfdt/fdt_overlay.c:559-581 finds children by names that may leave out a unit address. Merging an overlay twice is not the same as merging it once for siblings `a` and `a@1` (`Remerge.TwiceDiffers`); `Remerge.SettlesExactly` is the exact condition.
- PYNQ-PRIO/device_tree_overlays/dtc-1.4.4/flattree.c:67-76 takes a length of 0 for the whole string; `Flattree.NameWithoutBase` says which names of old versions are read back all the same.
- PYNQ-PRIO/device_tree_overlays/dtc-1.4.4/livetree.c:195-210 takes a new node over with its own repeated names and delete markers. A node that defines a property and then deletes it keeps it (`Livetree.DefineThenDelete`); `LivetreeExact.ShowsExactly` is the exact condition for one node, and `LivetreeAny.MergeExactly` for any override merged into any tree.
- PYNQ-PRIO/device_tree_overlays/dtc-1.4.4/livetree.c:240-251 stops at the first property of the name, dead or not. After a node that deletes a property and defines it again has been taken over, a later deletion does nothing (`LivetreeExact.LaterDeletion`); `LivetreeExact.PropsExactly` is the exact condition for two lists, and `LivetreeExact.PlainIsEnough` says for which trees this never happens.

## Left out

- The 40 bytes of a header are fields of `Fdt`, not bytes of its array; only `DtBlob` works with the encoded header.
- C integers are mathematical integers: no wrap-around of lengths near the limits of `int` in fdt_next_tag and the splices. Where the source relies on 32-bit arithmetic (relocated phandles, name offsets counted from the end and the test for their room, cells) it is modelled.
- Offsets that point into the middle of a property or name but look like a tag: a method is given an offset that is a node's, or one that the source's own check rejects.
- FdtRw.AddSubnode: stated for offsets that are not negative; a negative one is an error passed on by the caller.
- FdtRw.DelNode: stated for a child of a node in focus; deleting the root is not a tree edit.
- FdtWip.NopNode: stated for a child of a node in focus, with structure block and strings apart from each other, as all in-place edits.
- FdtWip.SetPropInplacePartial: for blobs of version 17 on, whose header records the size of the structure block, with the blocks apart; the sum of offset and length stays below 2^32, where the source's wraps around.
- FdtWip.NopProperty: for blobs of version 17 on, with structure block and strings apart.
- Shape.PatchAt: as FdtWip.SetPropInplacePartial, on a whole blob.
- Packing.OpenInto: two different buffers only; when they overlap the boot cpu id is read after the header may have been overwritten.
- MemRsv.DelMemRsv: the index is not negative.
- MemRsv.AddMemRsv: the map has to end in front of the structure block.
- SeqWrite.Resize: in the buffer that holds the blob; moving an unfinished blob with a started structure block to another buffer loses that block, since only the bytes in front of it are copied.
- SeqWrite.FindAddString: a string that starts in front of the buffer is reported as `outside`; what its store overwrites, and with that what is answered afterwards, is not part of the model; `SeqWrite.Property`, `SeqWrite.Build` and `SeqWrite.WriteTree` stop there.
- SeqWrite.Create: sizes are not negative, and a buffer of 40 to 47 bytes is accepted, as in the source; what follows is stated once the reservation map has been finished.
- Ancestors.GetPath: offsets inside the root node, names below the root without slashes.
- Ancestors.SupernodeAtDepth: offsets inside the root node.
- Ancestors.ParentOffset: offsets inside the root node.
- Ancestors.NodeDepth: offsets inside the root node.
- FdtRo.FirstSubnode: offsets are not negative; a negative one makes the source look at the root.
- FdtRo.NextSubnode: offsets are not negative.
- Lookup.PathOffset: the chain of aliases comes to an end and its values are terminated; the source recurses without end on an alias that stands for itself, and reads on behind a value without terminator.
- OverlayApply.MergeOverlay: every `target-path` is a terminated string whose lookup comes to an end.
- OverlayApply.GetTarget: as OverlayApply.MergeOverlay, for one fragment.
- OverlayApply.UpdateLocalReferences: the local fixups do not describe themselves, and no offset in them wraps around.
- OverlayApply.FixupPhandles: the values of the symbols used are terminated and, like the paths in the entries, have lookups that come to an end; no entry leads to `__fixups__` itself, and no offset wraps around.
- OverlayRefs.UpdateNodeRefs: the fixups stand beside the node or are a child of it that they do not describe, and no offset in them wraps around.
- OverlayFixups.FixupOnePhandle: as OverlayApply.FixupPhandles, for one entry.
- OverlayFixups.GetLabelPhandle: as OverlayApply.FixupPhandles, for one label.
- OverlayApply.Apply: the conditions of its steps (`OverlayApply.Sound`) are stated for the tree that each step finds, as relocation also shifts what is called `phandle` inside the tables and a fragment may change aliases; `OverlaySound.PlainIsSound` gives one on the inputs that is enough. `__local_fixups__` and `__fixups__` do not describe themselves.
- OverlayFixups.FixupEntries: as OverlayApply.FixupPhandles; an entry is parsed inside its own string; strtoul is that of a 64-bit long.
- RelocLaws.ReferencesFollow: for a cell that the fixups list once; a cell that is listed twice is shifted twice, which `RelocLaws.UpdateShifts` states.
- FixupLaws.FixupsResolve: paths of entries are absolute, or no entry writes into `/aliases` of the overlay; with others, later entries may mean other nodes.
- FixupLaws.FixupsKeep: as FixupLaws.FixupsResolve.
- FixupLaws.PlainResolves: for plain tables; `FixupLaws.PreparedResolves` has the same for any overlay, said of the relocated one.
- MergeLaws.MergeIsUnion: overlays in which no property is set twice and no sibling's name can be taken for another's.
- Remerge.SettlesExactly: exact for the names of an overlay; for one overlay with given properties a second merge may change nothing although its names do not settle, as when the node in question holds nothing.
- LivetreeExact.MergeIsPatchExactly: for trees without a live entry behind another of its name, and in which nothing dead holds anything live, where the condition is simple and every merge keeps the latter; `LivetreeAny.MergeExactly` is for any tree.
- LivetreeExact.PlainExactly: as LivetreeExact.MergeIsPatchExactly.
- LivetreeOverlay.MergesAgree: overlays without deletions in which no name can be taken for a sibling's; with such names the two merges may find different children.
- LiveNodes.Node.MergeNodes: labels and parent pointers are not modelled.
- LiveNodes.Node.Delete: labels are not modelled.
- LiveNodes.Node.DeleteNodeByName: labels are not modelled.
- References.Dti.FixNode: which node a reference means (get_node_by_ref) is a parameter; nodes are the live ones in the order of the walk.
- PathRefs.RunReferences: duplicate_node_names, a prerequisite, is not modelled.
- Checker.RunCheck: what a check finds in the tree is arbitrary; the graph of checks is acyclic.
- Flattree.RereadOld: trees whose names `Flattree.Sound` allows.
- DtBlob.DtToBlob: alignments are 0 or powers of two, as the command line demands.
- DtBlob.LibfdtReserves: no entry of size 0 in the list; libfdt would end the map there.
- Flattree.FlattenReadsBack: for the old versions, nodes with children have names that are not empty and do not end in a slash, since their children would not be found again; and where a name starts with the unit-address mark it has at most three bytes, as `Flattree.NameWithoutBase` says.
- PropText.ValueRoundTrip: values without labels; of the grammar only strings, cell lists with hexadecimal literals and byte strings.
- Xiic.Run: transfers of writes followed by at most one read of 1 to 255 bytes, the last message; the controller receives only during a read, and raises the receive interrupt only with bytes present. Whether a transfer is finished depends on the controller; `Xiic.Complete` says when it is.
- Xiic.Complete: as Xiic.Run.
- Xiic.Driver.StartRecv: the read is the last message.
- Xiic.Driver.ReadRx: there is a byte in the FIFO; the source would take one from an empty FIFO as well.
- Xiic.Driver.ProcessRx: as Xiic.Driver.ReadRx, and nothing is started after the read.
- The register accessors, probe, remove and power management of the driver, and the copy of it in another file.
- The string-list getters, searches by property value or compatible string, address and size cells, fdt_strerror.
- Generating `__symbols__`, `__fixups__` and `__local_fixups__` nodes in livetree.c; only the text of a fixup entry is modelled.
- The checks that look at single names or values (name characters, reg and ranges formats, duplicate names).
- dtc's parser and lexer beyond property values, source positions, includes, reading from files or directories, sorting, and the assembler output.
- malloc, free and reallocation: buffers grow as needed.
