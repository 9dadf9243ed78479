# A verified model of the memory, bitmap and text cores

This project models the stateful cores of the library and proves what they promise, on every input and along every
run. It follows the source statement by statement where the source changes state (records with pointers, arrays,
line buffers, counters) and states the meaning of each operation with a specification of its own: an ordered list of
keys for the tree, the direct double sum for the resampler, a stable list for the queue, a plain sequence of bytes for
string storage, FIPS 180-4 and RFC 2104 for hashing, a nested trace and a written document for the HTML parser, and bit
strings for base64.

`dafny verify dfyconfig.toml` checks everything.

| files | what they model |
|---|---|
| `RbShape` `RbColour` `RbHeight` `RbFixup` `RbEdit` `RbWalk` `RbLinks` | node records, rotations, colour repair, splicing, walking |
| `RbOrder` `RbSet` `RbPool` `RbTree` | keys, finite ordered sets, the pool of spare nodes, class `Tree` |
| `RbBook` `RbRuns` `RbSample` | the reference for runs that mix the tree's operations, those runs, and a small one written out |
| `ResampleSum` `ResampleClist` `ResampleCount` `Resampler` `ResampleDriver` `ResampleBytes` | the sums, the contributor lists, class `Resampler`, the bitmap driver, and what it does to bytes |
| `PqNodes` `PriorityQueue` `PqRuns` `PqInputs` | class `PriorityQueue` with its blocks and free chain; runs of pushes and pops; the shortest ones that go wrong, and a small one written out |
| `StringStorage` | class `StringStorage`: small and large form behind strings of bytes |
| `Arithmetic` `ShaStream` `Sha256` `Sha512` | class `Hasher`, the compression functions, HMAC |
| `ShaConstants` `Sha256Digest` `Sha512Digest` | the constants as fractions of roots of primes, and the digests of "abc" round by round |
| `HtmlView` `HtmlParser` `HtmlTrace` `HtmlNesting` `HtmlCancel` | token readers, class `Parser`, nesting of every run, cancels |
| `HtmlAttrs` `HtmlMarkup` `HtmlDocument` `HtmlSample` | attributes in all their written forms, other markup, documents, and one written out with all its callbacks |
| `Base64` `Base64Laws` `Unicode` `UnicodeLaws` | codecs and their round trips |

How the classes are tied to their specifications:

- A tree keeps ghost snapshots of its links (`Shape`: link map, in-order list, span of each subtree) and colours
  (`Colours`: paint and black height). `Now` says that the snapshot is what the records say. A fixup loop is proved on
  the snapshots, one rotation at a time, and each method says which snapshot its writes lead to.
- Allocator answers (addresses, sizes), filter weights, what a reader's callbacks do, and the memory behind a text view
  are parameters; the statements hold for all of them. Filter weights and samples are real numbers.
- The specification functions are held from outside as well: bytes of the target over bytes of the source without the
  planes and sums in between (`ResampledByte`), roots of primes and a digest for the tables and rotations of SHA-2, the
  alphabets of RFC 4648 and the marks of RFC 3629 as they stand there, and one small run each of the tree, the queue, the
  string storage and the HTML parser with every answer written out (`Sample`, `SampleIsTold`).
- Each locked section of the queue is one method.
- `releaseTmp` reads the parent link of a spare node after the node has gone back (`common/memory/SPMemRbtree.h:1110-1112`);
  `ReleaseSingles` reads it before. The library's own pool keeps its free records elsewhere, so the link is still there.

Where the code does not do what it is for, the code is modelled as it is, the exact condition is proved and an input is
given:

- **Queue.** As soon as a block is given back, `_free.last` points into it (`FreeNode`: the end of the chain is right
  afterwards exactly if it was right before and no block died). A later allocation from an empty chain, or a node of a
  block put back, would write there; the methods ask for a right end where the code would. `Drains` says of a whole queue
  when `clear` never gets there, and `ClearOrStop`, its loop with a look at the end in front of each `freeNode`, stops
  exactly if the queue does not drain. `PqRuns.Run` does the same for any run of pushes and pops. Inputs: eight pushes,
  one more of the same priority to the front and one pop, after which every push would write there
  (`TenCallsAndAPush`; no ten calls on a new queue do, `TenCallsAreSafe`); and seventy-three pushes of one priority,
  after which `clear` would (`SeventyThreePushes`; after fewer pushes it works, `FewerPushesDrain`).
- **Storage.** `resize(0)` of a small string leaves the old bytes behind its end, because `drop_unused` does nothing when
  no cell is in use (`Resize` gives the condition, `Run` the one for whole runs, `OldByteStays` the input).
- **SHA-2.** `update` passes the length on as 32 bits, so a longer piece is cut (`Update`); nothing is lost exactly if
  every piece has less than 2^32 bytes (`TakenWhole`), and a piece of just that many is lost as a whole (`LostPiece`).
  The length field of the padding is the standard's exactly for messages below 2^64 bits (`AppendedIsPadded`; for SHA-512
  `LongMessage` is an input, and SHA-256 is not defined beyond).
- **HTML, cancels.** A cancel in a callback about a tag whose content is not parsed, for its content or for its pop, is
  lost: the run is that of the reader that does not cancel there (`CancelsAreLost`, `CancelsCanBeLeftOut`). Every other
  cancel ends reading at once (`EveryRunNests`). So a cancel changes nothing exactly if it comes from such a callback,
  as long as there is something left to read (`CancelIsLostIff`; `CancelInUnparsedTag` is an input).
- **HTML, attributes.** A tag with attributes is read to its own `>` exactly if the last one is quoted, or has a value
  with the `>` right behind it, or has no value and a slash, set off from its name, in front of the `>` (`Ends`,
  `AttributesAre`). Otherwise the reader runs over the `>` into the text. `<a b=c />` is such a tag too: behind a value
  and a blank the slash is read as the name of an attribute. A document is told as it was written exactly if all its
  tags are read to their own end (`DocumentIsTold`); `BareAttributeRunsOn` and `PlainValueRunsOn` are inputs.
- **HTML, markup.** An empty CDATA section takes what follows with it, up to the next `>` (`SectionIs`; `EmptySectionTakes`
  is an input). An instruction whose name is followed by no name and no `>` before its own `?>` takes what follows with it,
  up to the next `?>`, unless its name ends with a slash (`InstructionIs`; `BareInstructionTakes` is an input). Documents
  in which every section has content and every instruction ends by itself are told as they were written on the condition
  above, whatever other comments, declarations, stray and missing closing tags and unparsed tags they hold.
- **UTF-8.** A symbol of four bytes is valid for `isValidUtf8` and becomes a space (`ValidButLost`); a text comes back
  from UTF-16 exactly when all its symbols are in their shortest form of at most three bytes (`BackAgain`). The loop of
  `toUtf16` ends exactly if no zero byte stands where a symbol should start (`Utf16Rounds`; `ZeroNeverEnds` is an input).

## Model

| member | source | states |
|---|---|---|
| RbFixup.RotateLeft | common/memory/SPMemRbtree.cc:170-187 | the records after a left rotation are exactly the turned links, and no others change |
| RbFixup.RotateRight | common/memory/SPMemRbtree.cc:189-206 | the records after a right rotation are exactly the turned links, and no others change |
| RbShape.TurnKeepsTree | common/memory/SPMemRbtree.cc:170-206 | a rotation keeps one binary tree with consistent parent links and the same in-order list |
| RbFixup.ClimbLeft | common/memory/SPMemRbtree.cc:213-229 | one round of the insert fixup, parent on the left: recolour and climb two levels, or turn and be done |
| RbFixup.ClimbRight | common/memory/SPMemRbtree.cc:230-247 | the mirrored round |
| RbFixup.Insert | common/memory/SPMemRbtree.cc:208-250 | a tree with one red-red edge becomes a red-black tree with a black root and the same in-order list; the loop ends because the red node rises |
| RbFixup.SiblingTurnLeft | common/memory/SPMemRbtree.cc:255-261 | a red sibling is turned away; the subtree still lacks exactly one black node |
| RbFixup.NearTurnLeft | common/memory/SPMemRbtree.cc:274-279 | a red near nephew becomes a red far nephew |
| RbFixup.FarTurnLeft | common/memory/SPMemRbtree.cc:280-284 | a red far nephew ends the repair |
| RbFixup.FixLeft | common/memory/SPMemRbtree.cc:254-288 | one round of the delete fixup on the left: done, or the parent lacks the black node |
| RbFixup.FixRight | common/memory/SPMemRbtree.cc:289-324 | the mirrored round |
| RbFixup.Remove | common/memory/SPMemRbtree.cc:252-327 | a tree in which one subtree lacks one black node, phantom leaf included, becomes a red-black tree with the same in-order list |
| RbWalk.Increment | common/memory/SPMemRbtree.cc:29-54 | the in-order successor, or the header after the last node |
| RbWalk.Decrement | common/memory/SPMemRbtree.cc:84-110 | the in-order predecessor; before the header comes the last node |
| RbWalk.Replace | common/memory/SPMemRbtree.cc:140-168 | the new record has all links and the colour of the old one, its neighbours point to it, nothing else changes |
| RbWalk.Splice | common/memory/SPMemRbtree.h:850-883 | a record with at most one child leaves; the rest is one tree with the same list without it |
| RbEdit.LinkUnique | common/memory/SPMemRbtree.h:616-641 | every gap of the in-order list has at most one empty link |
| RbEdit.BypassColours | common/memory/SPMemRbtree.h:857-895 | cutting off a weightless leaf, or a node above a red child, leaves the colours even up to that child |
| RbColour.SiblingExists | common/memory/SPMemRbtree.cc:253-262 | a subtree that lacks a black node has a sibling inside the tree, which is not the phantom |
| RbHeight.ValidateIffBalanced | common/memory/SPMemRbtree.h:1213-1273 | the author's validator accepts a tree if and only if it has a black root, no red-red edge and equal black counts |
| RbShape.InOrderWhole | common/memory/SPMemRbtree.h:525-550 | the list kept beside the records is the in-order walk over the links from the root |
| RbSet.InsertKeyMembers | common/memory/SPMemRbtree.h:735-743 | inserting adds exactly one class of equal keys to the set and keeps the list sorted |
| RbSet.EraseKeyMembers | common/memory/SPMemRbtree.h:393-400 | erasing removes exactly one class of equal keys and keeps the list sorted |
| RbSet.InsertAllMembers | common/memory/SPMemRbtree.h:735-743 | after any run of inserts the set has what it had and what was inserted |
| RbSet.EraseAllMembers | common/memory/SPMemRbtree.h:393-400 | after any run of erasures the set has exactly the keys that were not erased |
| RbTree.Tree.constructor | common/memory/SPMemRbtree.h:525-538 | an empty tree with an empty pool and no allocation |
| RbTree.Tree.Search | common/memory/SPMemRbtree.h:616-641 | the descent ends at the node with an equal key or at the one empty link where the key belongs |
| RbTree.Tree.TryHint | common/memory/SPMemRbtree.h:643-690 | the hint either answers the same position or leaves it open |
| RbTree.Tree.TryLeft | common/memory/SPMemRbtree.h:692-703 | trying the first node answers the same position or leaves it open |
| RbTree.Tree.TryRight | common/memory/SPMemRbtree.h:705-716 | trying the last node answers the same position or leaves it open |
| RbTree.Tree.GetInsertPositionUnique | common/memory/SPMemRbtree.h:718-732 | for every key and hint: the unique empty link, or the equal node |
| RbTree.Tree.PositionUnique | common/memory/SPMemRbtree.h:616-732 | two routes never differ, so hints never matter |
| RbTree.Tree.MakeInsert | common/memory/SPMemRbtree.h:806-827 | the key stands at its place in the list, all others keep theirs, and shape, colours and header ends hold |
| RbTree.Tree.Unhook | common/memory/SPMemRbtree.h:829-896 | every case of the deletion: leaf, one child, predecessor that takes the place; tree, colours and header ends hold without exactly that record |
| RbTree.Tree.Detach | common/memory/SPMemRbtree.h:829-896 | the tree without the record, with all red-black properties and the other records in the same order |
| RbTree.Tree.DeleteNode | common/memory/SPMemRbtree.h:829-900 | the list without exactly that node; the node is pooled or given back |
| RbTree.Tree.EmplaceHint | common/memory/SPMemRbtree.h:734-755 | a new key is inserted once at its place; an equal key leaves the tree alone and its node goes to the pool |
| RbTree.Tree.Erase | common/memory/SPMemRbtree.h:377-384 | the list without the node, and the answer is its true successor even when another record takes its place |
| RbTree.Tree.EraseUnique | common/memory/SPMemRbtree.h:393-400 | removes the equal key if there is one and says so |
| RbTree.Tree.FindImpl | common/memory/SPMemRbtree.h:961-975 | the equal node if and only if there is one, in at most 2 log2(size + 1) steps |
| RbTree.Tree.LowerBoundPtr | common/memory/SPMemRbtree.h:978-990 | the first node that is not less, in at most 2 log2(size + 1) steps |
| RbTree.Tree.Next | common/memory/SPMemRbtree.h:129-130 | `++` moves one place on in the list |
| RbTree.Tree.Prev | common/memory/SPMemRbtree.h:132-133 | `--` moves one place back, also from the end |
| RbTree.Tree.ThereAndBack | common/memory/SPMemRbtree.cc:84-110 | decrement undoes increment from every node |
| RbTree.Tree.Begin | common/memory/SPMemRbtree.h:402 | the first node, or the end of an empty tree |
| RbTree.Tree.Iterate | common/memory/SPMemRbtree.cc:29-54 | from begin, increment visits all nodes in order and reaches the header after exactly size steps |
| RbTree.Tree.AllocateNode | common/memory/SPMemRbtree.h:1053-1066 | the first spare node, or a new one if there is none |
| RbTree.Tree.DestroyNode | common/memory/SPMemRbtree.h:1035-1051 | the node becomes spare if the pool was empty, it was preallocated or the tree is persistent, and is given back otherwise |
| RbTree.Tree.AllocateTmp | common/memory/SPMemRbtree.h:1068-1094 | one allocation becomes count linked spare nodes that share its bytes |
| RbTree.Tree.ReleaseSingles | common/memory/SPMemRbtree.h:1106-1119 | beside a tree with nodes: single spare nodes go back, preallocated ones stay, in order |
| RbTree.Tree.ReleasePlain | common/memory/SPMemRbtree.h:1121-1129 | an empty tree without blocks gives back every node alone |
| RbTree.Tree.ReleaseBlock | common/memory/SPMemRbtree.h:1130-1152 | an empty tree with one block gives it back whole, with its count and bytes |
| RbTree.Tree.ReleaseBlocks | common/memory/SPMemRbtree.h:1153-1182 | an empty tree gives back each block whole, with its count and bytes |
| RbPool.SinglesMean | common/memory/SPMemRbtree.h:1106-1119 | every spare node either came alone and goes back with its bytes, or came with a block and stays; none is lost |
| RbPool.WholesMean | common/memory/SPMemRbtree.h:1153-1182 | every block that is left goes back from its first node, with its count and its bytes |
| RbTree.Tree.CapacityIs | common/memory/SPMemRbtree.h:434-436 | capacity is size plus the length of the spare chain |
| RbTree.Tree.Reserve | common/memory/SPMemRbtree.h:515-520 | afterwards there are spare nodes for the next c - size inserts; at most one allocation |
| RbTree.Tree.ReservedRun | common/memory/SPMemRbtree.h:515-520 | any run of inserts within the reserve allocates nothing more |
| RbTree.Tree.ShrinkToFit | common/memory/SPMemRbtree.h:430-432 | the pool is given back: whole blocks of an empty tree, single nodes of any |
| RbTree.Tree.ClearVisit | common/memory/SPMemRbtree.h:902-910 | the nodes of the subtree are destroyed one after the other, each once, and none is used after that |
| RbTree.Tree.Clear | common/memory/SPMemRbtree.h:420-428 | every node of the tree is destroyed once, one after the other: an empty tree that keeps its old spare nodes, every preallocated node, and all nodes in persistent mode |
| RbTree.Tree.Emplace | common/memory/SPMemRbtree.h:345-348 | one emplace is one insert into the finite ordered set; the answer is the node that has the key afterwards, and that it is new exactly if no equal key was there |
| RbTree.Tree.EmplaceAt | common/memory/SPMemRbtree.h:350-353 | one emplace_hint is the same insert whatever the hint, with the same answers; which spare node is used up or comes back |
| RbTree.Tree.EmplaceAll | common/memory/SPMemRbtree.h:345-348 | a run of emplaces is the run of inserts, whatever the allocator answers each time; enough spare nodes make it free of allocations |
| RbTree.Tree.EraseOne | common/memory/SPMemRbtree.h:393-400 | one erase_unique is one erasure from the finite ordered set, and answers whether an equal key was there |
| RbTree.Tree.ValidateTree | common/memory/SPMemRbtree.h:1213-1273 | the validator accepts every reachable tree |
| RbTree.MakeTest | common/memory/SPMemRbtree.cc:439-507 | the library's own self test reports success for all data: listings are the sets and every validation is valid |
| RbRuns.Do | common/memory/SPMemRbtree.h:345-520 | emplace, emplace_hint, erase_unique, erase of a position, reserve, clear and shrink_to_fit do to the tree what they do to its book: keys, which nodes are preallocated, the spare nodes in order, and the calls of the allocator, in either mode |
| RbRuns.Run | common/memory/SPMemRbtree.h:345-520 | so does every run that mixes them; capacity is keys and spare nodes, and within the spare nodes the allocator is not asked |
| RbSamples.Sample | common/memory/SPMemRbtree.h:345-400 | the keys 2, 3, 1, 2 inserted and 1 erased twice: every answer, what is listed before and after, what lower_bound and find of 2 answer, and four calls of the allocator |
| RbBook.PlaceMeans | common/memory/SPMemRbtree.h:616-641 | the first place whose key is not less is where an equal key is found, a new one goes and an erased one leaves |
| RbBook.RunMembers | common/memory/SPMemRbtree.h:345-520 | after any run a key is in the set exactly if the last operation that says something about it put it there, and the list is sorted |
| RbBook.AfterMeans | common/memory/SPMemRbtree.h:345-432 | the operations of a run happen in the order in which they are given |
| RbBook.NodesBalance | common/memory/SPMemRbtree.h:1035-1066 | the nodes of the tree and the spare ones are never more than there were and the allocator gave, and exactly those in persistent mode |
| RbBook.ReservedIsFree | common/memory/SPMemRbtree.h:515-520 | in either mode no run with at most as many inserts as spare nodes asks the allocator, whatever is erased or cleared between |
| RbBook.PreallocatedStay | common/memory/SPMemRbtree.h:1035-1051 | in either mode no run loses a preallocated node until the pool of an empty tree is given back |
| ResampleClist.Mirror | modules/bitmap/SPBitmapResample.cc:486-513 | the boundary index lies in the source |
| ResampleClist.MirrorMeans | modules/bitmap/SPBitmapResample.cc:486-513 | wrapping moves by whole widths, clamping takes the nearest sample, reflection is a mirror at both ends |
| ResampleClist.MakeList | modules/bitmap/SPBitmapResample.cc:588-653 | the weights of a list sum to one, by correcting the first heaviest contributor; there is none exactly if no weight is heavy enough |
| ResampleClist.MakeClist | modules/bitmap/SPBitmapResample.cc:517-769 | for each destination sample the weighted positions in order, with the first heaviest corrected so that they sum to one; none at all exactly if some sample has no weight |
| ResampleClist.RawJoins | modules/bitmap/SPBitmapResample.cc:719-747 | the list goes over the positions from left to right, one contributor with its position mirrored into the source for every weight that is not zero |
| ResampleSum.ConstantKept | modules/bitmap/SPBitmapResample.cc:652-653 | weights that sum to one keep the value of a constant image |
| ResampleCount.OrdersAgree | modules/bitmap/SPBitmapResample.cc:821-874 | X first and Y first give the same line |
| Resampling.Resampler.constructor | modules/bitmap/SPBitmapResample.cc:1015-1173 | counts are the contributions to come, no slot is taken, and X comes last exactly when that is cheaper |
| Resampling.LaterMeans | modules/bitmap/SPBitmapResample.cc:1133-1163 | cheaper means fewer multiplications, where one in Y counts four thirds of one in X, and on a tie a narrower source |
| Resampling.Resampler.CountUses | modules/bitmap/SPBitmapResample.cc:1110-1119 | the count of each source line is its number of contributions |
| Resampling.Resampler.Restart | modules/bitmap/SPBitmapResample.cc:992-1013 | ready for another frame exactly if nothing went wrong |
| Resampling.Resampler.ResampleX | modules/bitmap/SPBitmapResample.cc:771-790 | every sample is the weighted sum of its contributors |
| Resampling.Resampler.FindSlot | modules/bitmap/SPBitmapResample.cc:832-840 | the contributor is always found |
| Resampling.Resampler.Release | modules/bitmap/SPBitmapResample.cc:849-859 | the count falls by one, and the slot becomes free exactly when nobody needs the line |
| Resampling.Resampler.MixLine | modules/bitmap/SPBitmapResample.cc:829-860 | the mixed line is the sum over all contributors, whatever their slots |
| Resampling.Resampler.ResampleY | modules/bitmap/SPBitmapResample.cc:821-874 | every sample is the clamped direct double sum, in both orders of the axes |
| Resampling.Resampler.Needed | modules/bitmap/SPBitmapResample.cc:832-840 | a contributor that is still to come is buffered |
| Resampling.Resampler.GetLine | modules/bitmap/SPBitmapResample.cc:935-959 | the next line comes out if and only if all its contributors have been put, and it is the clamped double sum |
| Resampling.Resampler.NeverFull | modules/bitmap/SPBitmapResample.cc:892-903 | with at most as many source lines as slots, there is always a free slot |
| Resampling.Resampler.PutLine | modules/bitmap/SPBitmapResample.cc:876-933 | the line is buffered, resampled along X or not, or passed over if nobody uses it; refused only when all lines are in or the buffer is full |
| ResampleDriver.QuantisedIsNearest | modules/bitmap/SPBitmapResample.cc:1268-1275 | a clamped sample becomes the nearest byte |
| ResampleDriver.Pull | modules/bitmap/SPBitmapResample.cc:1259-1280 | one component gives its next line exactly if it is complete, and only that line's bytes change |
| ResampleDriver.EmitLines | modules/bitmap/SPBitmapResample.cc:1256-1285 | all complete lines come out, in order, in all components together |
| ResampleDriver.Resample | modules/bitmap/SPBitmapResample.cc:1216-1291 | every byte of the target is the rounded clamped double sum over the source, every line once, padding untouched; it succeeds if the source is at most MaxDimensions high |
| ResampleBytes.ResampledByte | modules/bitmap/SPBitmapResample.cc:1216-1291 | over bytes alone: byte (y, x, c) of the target is the rounded, clamped sum over the contributors of line y and column x of the source bytes of component c at their positions, each times both weights |
| ResampleBytes.PickedByte | modules/bitmap/SPBitmapResample.cc:1216-1291 | with one contributor of weight one on each axis the target byte is the source byte there, of the same component |
| ResampleBytes.SameSizeIsCopy | modules/bitmap/SPBitmapResample.cc:1216-1291 | if every sample is its own only contributor, the target is a copy |
| ResampleBytes.PaddingStays | modules/bitmap/SPBitmapResample.cc:1262-1277 | bytes behind the last pixel of a line and behind the last line keep their values |
| ResampleDriver.ConstantStays | modules/bitmap/SPBitmapResample.cc:1216-1291 | a component of one colour keeps exactly that colour |
| PriorityQueues.PriorityQueue.constructor | common/memory/SPMemPriorityQueue.h:99-103 | all preallocated nodes are free, in one chain |
| PriorityQueues.PriorityQueue.InitNodes | common/memory/SPMemPriorityQueue.h:263-272 | the nodes form one chain |
| PriorityQueues.PriorityQueue.PopNode | common/memory/SPMemPriorityQueue.h:285-298 | the first node leaves, and it comes before all that stay |
| PriorityQueues.PriorityQueue.PushNode | common/memory/SPMemPriorityQueue.h:300-338 | the node goes behind all equals or in front of all equals; ends, chain and order hold |
| PqNodes.SlotOnce | common/memory/SPMemPriorityQueue.h:300-338 | there is only one such place |
| PriorityQueues.PriorityQueue.AllocateNode | common/memory/SPMemPriorityQueue.h:340-369 | the first free node, or the first of a new block whose others become free |
| PriorityQueues.PriorityQueue.RemoveBlock | common/memory/SPMemPriorityQueue.h:385-406 | exactly the nodes of the dying block leave the free chain, the rest keeps its order |
| PriorityQueues.PriorityQueue.FreeNode | common/memory/SPMemPriorityQueue.h:371-420 | the node is free, at the front or the end; the block is reclaimed exactly with its last node; the end pointer is right exactly if it was and no block died |
| PriorityQueues.PriorityQueue.CapacityIs | common/memory/SPMemPriorityQueue.h:125-127 | capacity counts the free, the queued and the callers' nodes, each once |
| PriorityQueues.PriorityQueue.UsedIs | common/memory/SPMemPriorityQueue.h:364-384 | `used` counts the nodes of the block that are not free |
| PriorityQueues.PriorityQueue.FreeCapacity | common/memory/SPMemPriorityQueue.h:129-138 | counts the free nodes |
| PriorityQueues.PriorityQueue.Push | common/memory/SPMemPriorityQueue.h:217-222 | the queue becomes what a stable list becomes; which free node it takes, and what a new block adds |
| PriorityQueues.PriorityQueue.Pop | common/memory/SPMemPriorityQueue.h:226-250 | the head of that list is delivered once, in both forms of pop; where its node goes, and when its block dies |
| PriorityQueues.PriorityQueue.Clear | common/memory/SPMemPriorityQueue.h:174-203 | the queue is emptied whenever no node of a block follows the last one of a block that dies on the way |
| PriorityQueues.PriorityQueue.ClearOrStop | common/memory/SPMemPriorityQueue.h:174-203 | the loop of clear meets a node of a block behind a dangling end if and only if the queue does not drain |
| PriorityQueues.DrainsStep | common/memory/SPMemPriorityQueue.h:371-409 | the condition on the whole queue, taken node by node: what one node asks of the end of the chain and what it leaves to the others |
| PriorityQueues.PriorityQueue.LastOne | common/memory/SPMemPriorityQueue.h:382-384 | a block dies with a node exactly if no other node of it is queued or in a caller's hands |
| PriorityQueues.PriorityQueue.OneBlockDrains | common/memory/SPMemPriorityQueue.h:174-203 | with one block at most, clear always works |
| PqRuns.InsertStable | common/memory/SPMemPriorityQueue.h:300-338 | a push goes in front of all its equals or behind them and moves nothing else |
| PqRuns.PushAllStable | common/memory/SPMemPriorityQueue.h:217-222 | after any pushes the list is sorted, and of each priority the early ones come first, the latest first, then the old ones, then the late ones in order |
| PqRuns.PushRun | common/memory/SPMemPriorityQueue.h:217-222 | every run of pushes on any queue with a right end of the free chain gives that list |
| PqRuns.PopRun | common/memory/SPMemPriorityQueue.h:226-250 | a run of pops delivers exactly that list, in order, and leaves the queue empty |
| PqRuns.TryOne | common/memory/SPMemPriorityQueue.h:217-250 | one push or pop, which is refused exactly if it would write behind a dangling end |
| PqRuns.Run | common/memory/SPMemPriorityQueue.h:217-250 | every run of pushes and pops on any queue holds and delivers what a stable list does, up to the first call that would write behind a dangling end |
| PqInputs.Sample | common/memory/SPMemPriorityQueue.h:217-250 | four pushes come out by priority, and among equals first the one that was to go first, then the others in the order of the pushes |
| PriorityQueues.InsertAt | common/memory/SPMemPriorityQueue.h:300-338 | the stable list: behind all items of less priority, in front of all of greater, and before or behind its equals as the flag says |
| PqRuns.Conserved | common/memory/SPMemPriorityQueue.h:217-250 | what a run holds and has delivered is what there was and what was pushed, and the list stays sorted |
| PqInputs.TenCallsAndAPush | common/memory/SPMemPriorityQueue.h:217-250 | an input: ten calls of push and pop after which every push would write behind a dangling end |
| PqInputs.TenCallsAreSafe | common/memory/SPMemPriorityQueue.h:217-250 | no shorter one: any ten calls on a new queue hold and deliver what a stable list does |
| PqInputs.SeventyThreePushes | common/memory/SPMemPriorityQueue.h:174-222 | an input: pushes after which clear would bring a node of a block back behind a dangling end |
| PqInputs.FewerPushesDrain | common/memory/SPMemPriorityQueue.h:174-222 | no shorter one: after at most seventy-two pushes clear works |
| StringStorages.StringStorage.ModifySize | common/memory/SPMemStorageMem.hpp:522-524 | only the size changes, also where it is packed into the last byte |
| StringStorages.StringStorage.SetSizeSmall | common/memory/SPMemStorageMem.hpp:63-75 | cells that are no longer used become zero, unless none stays in use |
| StringStorages.StringStorage.SetSizeLarge | common/memory/SPMemStorageMem.hpp:201-240 | shrinking zeroes the rest of the block |
| StringStorages.StringStorage.GrowAlloc | common/memory/SPMemStorageMem.hpp:208-226 | a larger block with the same contents |
| StringStorages.StringStorage.Reserve | common/memory/SPMemStorageMem.hpp:419-448 | the contents stay across the switch from small to large, and a zero tail is never lost |
| StringStorages.StringStorage.Clear | common/memory/SPMemStorageMem.hpp:450-468 | no contents; the block stays, the small form turns into no block |
| StringStorages.StringStorage.Terminated | common/memory/SPMemStorageMem.hpp:493-500 | a zero tail makes the text terminated, even when the size byte is the terminator |
| StringStorages.StringStorage.EmplaceBack | common/memory/SPMemStorageMem.h:124-145 | one byte more at the end |
| StringStorages.StringStorage.PopBack | common/memory/SPMemStorageMem.h:130-137 | the last byte goes, if there is one, and its cell is zero |
| StringStorages.StringStorage.Emplace | common/memory/SPMemStorageMem.h:147-162 | the byte stands at the position, the rest moves up |
| StringStorages.StringStorage.Insert | common/memory/SPMemStorageMem.h:197-203 | the bytes stand at the position, the rest moves up |
| StringStorages.StringStorage.InsertBack | common/memory/SPMemStorageMem.h:182-187 | the bytes stand at the end |
| StringStorages.StringStorage.Erase | common/memory/SPMemStorageMem.h:249-259 | exactly len0 bytes are gone if there are so many from the position on, and otherwise all of them; the rest moves down, what is left behind is zero |
| StringStorages.StringStorage.PrepareReplace | common/memory/SPMemStorageMem.h:282-290 | room for the replacement between what stays before and behind |
| StringStorages.StringStorage.Replace | common/memory/SPMemStorageMem.h:292-302 | the replacement stands for exactly len0 bytes, or for all from the position on if there are not so many, between what was before and behind |
| StringStorages.StringStorage.SetSize | common/memory/SPMemStorageMem.hpp:526-536 | both forms of set_size |
| StringStorages.StringStorage.Resize | common/memory/SPMemStorageMem.h:360-375 | the contents are cut or filled up; the zero tail is lost exactly if a small string with any byte but zero shrinks to nothing |
| StringStorages.StringStorage.Fill | common/memory/SPMemStorageMem.h:348-357 | the contents are n copies of the byte |
| StringStorages.Do | common/memory/SPMemStorageMem.h:124-375 | each operation does to the storage what it does to a plain sequence, with the exact condition for losing the zero tail |
| StringStorages.Run | common/memory/SPMemStorageMem.h:124-375 | every run from an empty string, with any answer of the allocator to each operation, agrees with the plain sequence; the tail is zero after each operation if and only if none resizes a small string with any byte but zero to nothing |
| StringStorages.Sample | common/memory/SPMemStorageMem.h:124-375 | a run of insert, erase, replace, emplace, push and pop, and its text |
| StringStorages.OldByteStays | common/memory/SPMemStorageMem.hpp:63-75 | a run after which the text is empty and the cell where it should end still holds the old byte |
| ShaStream.GapIsLeast | common/string/SPSha2.cc:159-186 | the zeros of the padding are the least number that leaves the bytes of the length free, as in sections 5.1.1 and 5.1.2 of FIPS 180-4 |
| ShaStream.AppendedIsPadded | common/string/SPSha2.cc:159-186 | the padding of the code is that of the standard if and only if the message has less than 2^64 bits |
| ShaStream.BigEndianAt | common/string/SPSha2.cc:65-68 | byte i of the length field is its digit in base 256, most significant first |
| ShaStream.Hasher.constructor | common/string/SPSha2.cc:120-131 | an empty message |
| ShaStream.Hasher.Process | common/string/SPSha2.cc:133-157 | state is the fold over the full blocks of everything so far, the buffer is the rest |
| ShaStream.Hasher.Update | common/string/SPSha2.cc:449-454 | the message grows by the data, cut to its length modulo 2^32 |
| ShaStream.Hasher.Final | common/string/SPSha2.cc:159-186 | the output of the fold over the padded message |
| ShaStream.HashChunks | common/string/SPSha2.cc:446-469 | any split into updates gives the digest of the whole message |
| ShaStream.ConcatMeans | common/string/SPSha2.cc:446-469 | the whole message is the pieces one after the other, in their order |
| ShaStream.HashPieces | common/string/SPSha2.cc:446-469 | for pieces of any length, the digest of what update takes of them |
| ShaStream.TakenWhole | common/string/SPSha2.cc:449-454 | that is the whole message if and only if every piece has less than 2^32 bytes |
| ShaStream.LostPiece | common/string/SPSha2.cc:449-454 | an input: a piece of 2^32 bytes leaves the digest of no data |
| ShaStream.Hmac | common/string/SPSha2.cc:420-444 | section 2 of RFC 2104, with short and long keys |
| ShaStream.HmacIs | common/string/SPSha2.cc:420-444 | H(K xor opad, H(K xor ipad, text)) with the bytes 0x5C and 0x36 over the key filled up with zeros; a key longer than a block is hashed first |
| Sha256.FillSchedule | common/string/SPSha2.cc:91-97 | the message schedule of section 6.2.2 of FIPS 180-4 |
| Sha256.Step | common/string/SPSha2.cc:100-111 | one round and the rotation of the registers are the round of the standard |
| Sha256.ShaCompress | common/string/SPSha2.cc:84-116 | the compression function of section 6.2.2 |
| Sha256.RotationsAre | common/string/SPSha2.cc:77-82 | the four functions of the source, by shifts, are the rotations of section 4.1.2 of FIPS 180-4 |
| ShaConstants.RoundConstants256 | common/string/SPSha2.cc:41-55 | section 4.2.2 of FIPS 180-4: the table holds the first 32 bits of the fractions of the cube roots of the first 64 primes |
| ShaConstants.InitialRegisters256 | common/string/SPSha2.cc:120-131 | section 5.3.3: the first 32 bits of the fractions of the square roots of the first eight |
| Sha256Digest.DigestOfAbc | common/string/SPSha2.cc:84-186 | the digest of "abc", through all 48 further words and 64 rounds |
| Sha256.WordStored | common/string/SPSha2.cc:61-73 | writing a word gives back the bytes it was read from |
| Words32.ChIs | common/string/SPSha2.cc:75 | the rewritten Ch is that of section 4.1.2 |
| Words32.MajIs | common/string/SPSha2.cc:76 | the rewritten Maj is that of section 4.1.2 |
| Sha256.Perform | common/string/SPSha.h:222-226 | the digest of the pieces in order |
| Sha256.Hmac | common/string/SPSha2.cc:420-444 | section 2 of RFC 2104 over SHA-256 |
| Sha512.FillSchedule | common/string/SPSha2.cc:249-255 | the message schedule of section 6.4.2 of FIPS 180-4 |
| Sha512.Rnd | common/string/SPSha2.cc:258-263 | a round with renamed registers is the round of the standard |
| Sha512.EightRounds | common/string/SPSha2.cc:265-274 | eight renamed rounds are eight rounds, with every register back in its place |
| Sha512.ShaCompress | common/string/SPSha2.cc:242-279 | the compression function of section 6.4.2 |
| Sha512.RotationsAre | common/string/SPSha2.cc:235-240 | the four functions of the source, by shifts, are the rotations of section 4.1.3 of FIPS 180-4 |
| ShaConstants.RoundConstants512 | common/string/SPSha2.cc:197-215 | section 4.2.3 of FIPS 180-4: the table holds the first 64 bits of the fractions of the cube roots of the first 80 primes |
| ShaConstants.InitialRegisters512 | common/string/SPSha2.cc:283-294 | section 5.3.5: the first 64 bits of the fractions of the square roots of the first eight |
| Sha512Digest.DigestOfAbc | common/string/SPSha2.cc:242-351 | the digest of "abc", through all 64 further words and 80 rounds |
| Sha512.WordStored | common/string/SPSha2.cc:221-231 | writing a word gives back the bytes it was read from |
| Sha512.LongMessage | common/string/SPSha2.cc:322-350 | an input: for a message of 2^61 bytes the padding is not that of the standard |
| Words64.ChIs | common/string/SPSha2.cc:233 | the rewritten Ch is that of section 4.1.3 |
| Words64.MajIs | common/string/SPSha2.cc:234 | the rewritten Maj is that of section 4.1.3 |
| Sha512.Perform | common/string/SPSha.h:204-208 | the digest of the pieces in order |
| Sha512.Hmac | common/string/SPSha2.cc:367-390 | section 2 of RFC 2104 over SHA-512 |
| HtmlView.SkipUntil | common/string/SPStringView.h:895-905 | stops at the first character of the class |
| HtmlView.Classes | common/utils/SPHtmlParser.cc:38-43 | the characters of names and the blanks, one by one |
| HtmlView.ReadTagName | common/utils/SPHtmlParser.cc:113-134 | the name and what follows it; a closing slash is found again; a name uses up text |
| HtmlView.ReadAttrName | common/utils/SPHtmlParser.cc:136-143 | an attribute name uses up text, and is empty only at the end |
| HtmlView.ReadAttrValue | common/utils/SPHtmlParser.cc:145-177 | quoted values with escapes, bare values, and no value |
| HtmlParser.Parser.CloseMatching | common/utils/SPHtmlParser.h:188-210 | the innermost tag of that name and everything inside it is popped |
| HtmlParser.Parser.ParseAttributes | common/utils/SPHtmlParser.h:295-306 | the attributes are passed on in order, and the loop ends |
| HtmlParser.Parser.ParseRaw | common/utils/SPHtmlParser.h:321-349 | the first matching closing tag ends raw content |
| HtmlParser.Parser.Parse | common/utils/SPHtmlParser.h:163-366 | terminates on every text; callbacks, stack and result are those of the specified run |
| HtmlNesting.EveryRunNests | common/utils/SPHtmlParser.h:163-366 | for every text and reader: pushes and pops nest, each pop is of the innermost open tag and reports its content, attributes and ends belong to the tag being read, the stack ends empty, cancels are reported, and obeyed unless they come from an unparsed tag |
| HtmlNesting.RunKept | common/utils/SPHtmlParser.h:163-354 | every step of the main loop keeps the reader's book in agreement with the tag stack |
| HtmlNesting.CancelInUnparsedTag | common/utils/SPHtmlParser.h:330-343 | an input: a reader that cancels when an unparsed tag is popped gets the next tag all the same |
| HtmlCancel.CancelsAreLost | common/utils/SPHtmlParser.h:319-349 | for every text: two readers that differ only in what they cancel in callbacks about unparsed tags get the same callbacks and leave the same stack |
| HtmlCancel.CancelsCanBeLeftOut | common/utils/SPHtmlParser.h:319-349 | all those cancels can be taken out of a reader at once without changing its run |
| HtmlCancel.CancelIsLostIff | common/utils/SPHtmlParser.h:157-366 | a cancel changes nothing if and only if it comes from a callback about an unparsed tag, provided that something is left to read without it |
| HtmlDocument.DocumentIsTold | common/utils/SPHtmlParser.h:163-366 | parsing a written document of texts, nested, void, unclosed and unparsed tags, stray closing tags, CDATA sections, comments, instructions and declarations tells exactly its tags, attributes and contents, in order, if and only if every tag is one that is read to its own end |
| HtmlDocument.RootIsTold | common/utils/SPHtmlParser.h:212-217 | with rootOnly the same holds of the root, and reading stops right behind it, whatever follows |
| HtmlSamples.SampleIsTold | common/utils/SPHtmlParser.h:157-366 | one document with all of these in it, and its twenty-one callbacks |
| HtmlMarkup.MarkupIs | common/utils/SPHtmlParser.h:223-285 | comments up to the first `-->`, instructions, declarations and tags without a name are read to their own end, and nothing is told |
| HtmlMarkup.InstructionIs | common/utils/SPHtmlParser.h:248-251 | an instruction ends at its own mark if a name or a `>` follows its name or its name ends with a slash, and at the next mark otherwise |
| HtmlMarkup.SectionIs | common/utils/SPHtmlParser.h:254-285 | a CDATA section is one content up to the first `]]>`; an empty one takes what follows with it up to the next `>` |
| HtmlMarkup.ClosesAll | common/utils/SPHtmlParser.h:187-217 | a closing tag pops the innermost tag of its name and all tags inside it, from the inside out |
| HtmlMarkup.StrayIs | common/utils/SPHtmlParser.h:187-221 | a closing tag that no open tag has the name of is passed over |
| HtmlMarkup.RawEndIs | common/utils/SPHtmlParser.h:321-349 | content that is not parsed ends at the first `</name`, blanks and `>` |
| HtmlDocument.EmptySectionTakes | common/utils/SPHtmlParser.h:263-285 | an input: an empty CDATA section, and the text and tag behind it that are never told |
| HtmlDocument.BareInstructionTakes | common/utils/SPHtmlParser.h:248-251 | an input: `<?a?>b`, of which nothing is told |
| HtmlAttrs.QuotedIs | common/utils/SPHtmlParser.cc:153-167 | a value between single or double quotes ends at the quote written for its end if and only if every such quote in it is escaped and no escape is left open |
| HtmlAttrs.NameStays | common/utils/SPHtmlParser.cc:136-143 | on any text, the reader of names stays in front of the end of the tag if and only if there is a name before it |
| HtmlAttrs.NoValueStays | common/utils/SPHtmlParser.cc:145-149 | on any text without `=`, the reader of values stays in front of the end of the tag if and only if a name follows before it |
| HtmlAttrs.AttributesAre | common/utils/SPHtmlParser.h:295-306 | any list of bare, unquoted and quoted attributes is told in order up to the end of its tag if and only if the last one lets it; otherwise the loop reads beyond the end |
| HtmlDocument.BareAttributeRunsOn | common/utils/SPHtmlParser.cc:145-149 | an input: `<a b>c</a>` is told as a tag with two attributes that closes itself |
| HtmlDocument.PlainValueRunsOn | common/utils/SPHtmlParser.cc:176 | an input: `<a b=c >d</a>` is told as a tag with two attributes that closes itself |
| Base64.MakeEncode | common/string/SPBase64.cc:62-90 | the six-bit groups in the alphabet, with or without padding |
| Base64.MakeDecode | common/string/SPBase64.cc:92-119 | the bytes of the groups of all alphabet characters, the last group cut |
| Base64Laws.PackIsBits | common/string/SPBase64.cc:62-90 | section 4 of RFC 4648: the groups are the bits of the bytes in order, filled up with zero bits |
| Base64Laws.AlphabetIs | common/string/SPBase64.cc:33 | the characters are those of the alphabets of sections 4 and 5 of RFC 4648, in their order |
| Base64Laws.MaskedIs | common/string/SPBase64.cc:38-55 | the table of the decoder marks exactly the characters that are in neither alphabet |
| Base64Laws.EncodesTwo | common/string/SPBase64.cc:62-90 | "fo" becomes "Zm8=" and "Zm8", as in section 10 of RFC 4648 |
| Base64Laws.DecodeEncode | common/string/SPBase64.cc:62-119 | decode undoes encode, in both alphabets |
| Base64Laws.EncodeDecode | common/string/SPBase64.cc:188-212 | a text is the URL form of what it decodes to if and only if it has only that alphabet, whole groups and zero filling bits |
| Base64Laws.EncodeDecodePadded | common/string/SPBase64.cc:62-119 | a text is the padded form of what it decodes to if and only if it has whole groups of four, at most two padding characters, all at the end, otherwise only that alphabet, and zero filling bits |
| Base64Laws.JunkIsSkipped | common/string/SPBase64.cc:98-110 | characters outside the alphabets never matter |
| Base64Laws.EncodedLength | common/string/SPBase64.cc:59 | encodeSize is the padded length; the URL form lacks the padding |
| Base64Laws.DecodedLength | common/string/SPBase64.cc:60 | decoding never gives more than decodeSize bytes |
| Unicode.Utf8Decode | common/string/SPUnicode.cc:151-160 | the symbol and its length, zero for a broken one and a space for one beyond sixteen bits |
| UnicodeLaws.UnitAt | common/string/SPString.h:777-792 | the bytes written for a unit are read back as that unit wherever they stand, are valid, in their shortest form, and as many as their first byte announces |
| UnicodeLaws.EncodedBits | common/string/SPString.h:777-792 | section 3 of RFC 3629: the bytes of a unit have the marks of their places, and its bits in order between them |
| UnicodeLaws.LengthBits | common/string/SPUnicode.h:32-49 | the length is told by the marks of the first byte |
| UnicodeLaws.SymbolBits | common/string/SPUnicode.h:82-91 | the symbol of any bytes is their free bits in order, if all of them go on |
| UnicodeLaws.EncodesExample | common/string/SPString.h:663-675 | the first example of section 7 of RFC 3629 |
| Unicode.MakeUtf8 | common/string/SPString.h:663-675 | the encodings of all units in order |
| Unicode.MakeUtf16 | common/string/SPString.h:635-647 | the symbols in order |
| Unicode.Utf16Rounds | common/string/SPString.h:635-647 | on any text the loop ends after some number of rounds if and only if no zero byte stands where a symbol should start, and then after one for each symbol |
| Unicode.GetUtf16Length | common/string/SPUnicode.cc:296-305 | the number of symbols before the end or a zero byte |
| Unicode.GetUtf8Length | common/string/SPUnicode.cc:335-343 | the length of the encoding, exactly |
| Unicode.IsValidUtf8 | common/string/SPUnicode.cc:218-252 | true if and only if every symbol has the continuation bytes it announces |
| UnicodeLaws.ShapeBits | common/string/SPUnicode.cc:218-252 | validity goes symbol by symbol to the end or a zero byte: a byte that may come first, and as many marked bytes behind it as it announces |
| UnicodeLaws.RoundTrip | common/string/SPString.h:635-675 | a string comes back from UTF-8, is valid and has the predicted length; it can be read to the end if and only if it has no zero unit |
| UnicodeLaws.LengthIsPredicted | common/string/SPUnicode.cc:296-305 | getUtf16Length predicts the length of toUtf16 for every text that can be read to the end |
| UnicodeLaws.BackAgain | common/string/SPString.h:635-675 | a text comes back from UTF-16 if and only if all its symbols are canonical |
| UnicodeLaws.ValidButLost | common/string/SPUnicode.cc:151-160 | a valid symbol of four bytes becomes a space |
| UnicodeLaws.ZeroNeverEnds | common/string/SPString.h:635-647 | an input: two bytes on which that loop never ends |

## Left out

- Tree: range erase, swap, clone and move, upper_bound, equal_range, counting, and decrement from begin().
- RbWalk.Replace: the branches for a replacement that is a child of the replaced record are not modelled; deleteNode never takes them.
- Resampler: the filter kernels, rounding of floats, failure of allocations, and the wrap of the 16-bit length of a contributor list. Weights may be any real numbers.
- Queue: the mutex functions, foreach, the no-argument empty() and the destructor.
- PriorityQueues.PriorityQueue.AllocateNode: asks for a right end of the free chain where that chain is empty and the code writes through it.
- PriorityQueues.PriorityQueue.Clear: not for queues in which a node would be put back behind a dangling end, where the code writes to memory that is gone.
- PriorityQueues.PriorityQueue.FreeNode: asks for a right end of the free chain where the code writes through it.
- PriorityQueues.PriorityQueue.Pop: asks for a right end of the free chain where its node belongs to a block.
- PriorityQueues.PriorityQueue.Push: asks for a right end of the free chain where that chain is empty.
- Storage: element types other than bytes, weak and wrapped strings, extract, assign, moves between strings, sources inside the same string, and bytes given back to the allocator.
- SHA-2: the forms that take a salt, and reading of other source types.
- HtmlDocument.DocumentIsTold: of a tag without a closing tag it asks that it is read to its own end, and of an instruction or a CDATA section that it ends by itself (InstructionIs and SectionIs say where the others end).
- HTML: the wide and the UTF-8 view, lowercasing of names, token readers of the reader, and callbacks that change a tag except for setClosable.
- Unicode.MakeUtf16: asks for a text that can be read to the end; on any other the code does not come to an end (Utf16Rounds).
- Unicode: HTML entities, case folding, buffers for single units.
- Everything else of the repository: image codecs, crypto wrappers, file system, logging, time, URLs, addresses and validators of e-mail.
