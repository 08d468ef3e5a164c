# Verified models of the CassKop operator and of its DEFLATE encoder

CassKop is a Kubernetes operator for Apache Cassandra. This project models the protocols by which it changes a
running cluster, and the DEFLATE encoder that ships with its slides, and proves what they keep.

**The encoder** (`website/static/slides/js/rawdeflate.js`) is modelled from text to bytes. `Lz77Matcher` is the
matcher with its sliding window and hash chains; `HuffmanTree` builds the trees in place; `TokenBuffer`, `BlockEncoder`
and `BlockFlush` collect, choose and send blocks; `BitWriter` and `OutputQueue` pack bits and hand bytes out. A decoder
written from RFC 1951 (`Lz77Format`, `PrefixCodes`, `BlockFormat`, `BlockHeader`, `StoredBlocks`, `BlockStream`) is the
other side of every claim. The main results are `DeflateEncoder.Compress` (what a decoder makes of the output, for every
text), `Lz77Matcher.Tokenize` (every token is the greedy or lazy choice, stated on the text in `MatchChoices`),
`HuffmanTree.TreeBuilder.BuildTree` (the lengths are the depths of the lowest optimal tree, cut off at the limit, and the
charge is exact), `CutOffBlocks.CutOffExactly` (cut off exactly if no cheapest prefix code keeps the limit) and
`RefusedOutput.CompressText` (a text whose output is refused at every level).

**The operator** is modelled as passes over stored state, between which the cluster may do as it likes. Scale-down by
decommission (`ScaleDown`, `ScaleDownRuns`, `ScaleDownClaims`), storage upsize by deleting and recreating a StatefulSet
(`StorageUpsize`, `StorageUpsizeRuns`), rollout in rack order (`Rollout`), seed lists (`SeedNames`, `SeedList`,
`SeedUpdate`) and the schedule of backups (`BackupScheduler`). A pass is a function of the stored state and of the
answers of the cluster; the results over whole runs are about it. The classes `ScaleDownReconciler.RackReconciler`,
`StorageUpsize.Upsizer` and `Rollout.Reconciler` do the same in the order of the source, on fields, and promise what a
caller sees of it.

Where the code does something other than it promises, the model follows the code, and a lemma gives the input:

- Code lengths that exceed their limit are cut off, and the loop that should rewrite them stores into the count instead
  (`rawdeflate.js:1084`). Only the counts of lengths are repaired. So the lengths sent are a prefix code if and only if
  no node of the Huffman tree lies deeper than the limit (`BlockTrees.CodeIffNotCutOff`, `CutOffBlocks.CutOffIffDeep`),
  and a decoder refuses such a block (`BlockFlush.CutOffIsRefused`). A text of 255 bytes is an input: no three bytes of it
  repeat, so it is sent as literals; their lengths are forced by the counts, the runs of these lengths are counted by
  Fibonacci numbers, and so the code of the lengths is cut off (`RefusedText`, `RefusedLengths`, `RefusedOutput`). With
  fewer than 2583 tokens only that code can be cut off (`CutOffBlocks.SmallBlockIsKept`), and not if fewer than 55 symbols
  are sent with it (`FewSymbols.FewRunsAreKept`), as for texts with few different bytes (`FewSymbols.CompressPlain`).
- The depth noted for a merged node is not one more than that of its deeper son (`rawdeflate.js:1202-1206`). Equally heavy
  nodes are still ordered as by their heights (`HuffmanLevels.FatherAgrees`), which is all that the tie-break needs.
- An empty text gives an empty output, which is no DEFLATE stream (`BlockStream.NothingIsNoStream`).
- A scale-down lowers the replicas again, or tells the wrong pod to leave, if a pod that was scaled away is still there
  and a decommission is due or found ended: after a lost status write (`ScaleDownRuns.LostWriteIsUnsafe`), or with a pod
  that could not be scheduled (`UnsettledIsUnsafe`). Every run is safe if and only if no pass meets these guards
  (`RunIsSafe`). A pod below the target is told to leave if the last one disappears while the StatefulSet is not ready
  (`UnreadyIsUnsafe`, `UnreadyExactly`). And a scale-down asked for within 20 seconds of the start of the last action
  lowers the replicas without a decommission (`WaitingExactly`); only an upsize that ended that soon leads there
  (`rackstatus.go:51,57`).
- A scale-down can wait for ever. When the pod has left the ring and only one of the StatefulSet and the status is written,
  the operator waits for a pod to disappear that nobody removes (`DisruptionSticks`), or for a pod to leave that is gone
  (`LostWriteSticks`). When the target is reached while what is stored asks for one more decommission, because the
  StatefulSet was not ready (`UnreadyIsDoomed`) or the status of a pod scaled away was not written (`HalfScaledIsDoomed`),
  one more pod is told to leave and then waited for. Where pods that are scaled away are gone before the next pass these
  are the only ways (`DoomsExactly`, `RunDoomsExactly`); from there it never ends (`DoomedForEver`), and from any other
  state it can (`EndsExactly`). And a pod that was told to leave, when that could not be stored, stops every pass while it
  leaves (`ForgottenSticks`, `LeftForEver`).
- The claim of a pod that could not be scheduled is left behind if the next decommission begins before it is deleted
  (`ScaleDownClaims.ClaimIsForgotten`); otherwise a scale-down leaves no claim too many (`ClaimsExactly`).
- A backup whose schedule stays the same keeps its old task (`BackupScheduler.OldTaskStays`).
- An upsize compares the StatefulSet with the capacity of the cluster but recreates it with that of the datacenter. When
  the two differ, it ends without the new capacity and starts again (`StorageUpsizeRuns.EndsResized`, `StartsAgain`) if
  the StatefulSet has the capacity of the cluster; if it has neither, it is deleted and recreated again and again
  (`RestToTorn`, `RecreatesForEver`). Exactly then it is deleted more than once (`AtMostOnceExactly`).
- An upsize of a rack with a claim too many, which a scale-down leaves behind when its deletion fails, deletes and recreates
  the StatefulSet and then fails in every pass (`StorageUpsizeRuns.LeftClaimSticks`, `UnfitForEver`, `EndsExactly`).
- A StatefulSet that cannot be read is passed over in a rollout (`Rollout.UnreadableIsPassedOver`, `Rollout.RolloutExactly`).
  And when the status of a written rack is lost, the next rack is written while the pods of the first still change
  (`Rollout.LostStatusOverlaps`, `UnsettledExactly`); not while every status is stored (`OneRackAtATime`).
- Three or more racks without nodes still give three seeds (`SeedList.SeedsPerDC`); an empty seed list is never at rest
  (`SeedUpdate.EmptyListNeverRests`).
- The comment on the delay before an action is looked at again says two minutes; the constant is 20 seconds, and the
  model has 20.

What the model takes as given: the calls to the cluster are answers, any of which may fail unless a lemma says so;
UnlockNextOperation and NoCheckStsAreEqual are off; the answer about disruptions, and about joining nodes, is one per
pass; pods have the ordinals below the number of replicas, and above it only while they are being removed; other parts
of the specification do not change during an action; the JSON of a snapshot decodes to what was encoded, and
StatefulSets have a data claim; differences between seed lists are noticed at least when their elements differ; the cron
client never uses an identifier twice. The input of the encoder is bytes. JavaScript's shifts and masks act on small
numbers and are written as integer arithmetic; the exclusive or of the rolling hash is a recursion on binary digits.

`dafny verify dfyconfig.toml` checks everything.

## Model

| member | source | states |
|---|---|---|
| `DeflateEncoder.Compress` | website/static/slides/js/rawdeflate.js:1650-1670 | For every text and level: an empty text gives no output; for any other, the tokens tallied are those of the greedy or lazy choice and expand to the text, the blocks ended hold exactly these tokens, each block before the last ends where it is due and nowhere earlier, and begins in the window of the matcher where the blocks before it end, so that the form chosen follows; a decoder of RFC 1951 gives the text back if no block was to be sent with its own codes while a node of one of its Huffman trees lay too deep, and refuses the output otherwise |
| `DeflateEncoder.EncodeTokens` | website/static/slides/js/rawdeflate.js:635-638 | The bits sent for all tokens, block after block and padded to whole bytes, inflate to the text, whichever blocks were stored, fixed or dynamic, if and only if no block was cut off; otherwise a decoder refuses them. The blocks, their trees and the form chosen for each are given; each before the last ends where it pays or a buffer is full, and nowhere earlier, and begins where the window of its last token says |
| `DeflateEncoder.EndStream` | website/static/slides/js/rawdeflate.js:803-808 | The rest of the tokens is sent as the last block, padded to a byte, and the account of the blocks holds for all tokens |
| `DeflateEncoder.EncodeToken` | website/static/slides/js/rawdeflate.js:722-725 | Tallying a token keeps it in the buffer, or ends the block, which a decoder then reads as the tallied tokens or as the bytes they stand for, or refuses if it was cut off |
| `DeflateEncoder.EndBlock` | website/static/slides/js/rawdeflate.js:803-808 | A block that ends is sent in the form chosen for the trees of its tokens and its place in the window; a decoder reads it as its tokens or as its bytes, or refuses it, whatever follows, if its lengths were cut off |
| `BlockLog.LogGrows` | website/static/slides/js/rawdeflate.js:1397-1472 | One more block keeps the account: the blocks hold all tokens in order, each with the trees of its tokens and the form chosen for them, and all are sent exactly if this one is and those before |
| `BlockLog.AnchoredGrows` | website/static/slides/js/rawdeflate.js:635-638 | One more block keeps the account of where the blocks begin in the window |
| `DeflateEncoder.BlockAddsText` | website/static/slides/js/rawdeflate.js:1433-1466 | A block read as its tokens and a block read as its bytes add the same text, after whatever was read before |
| `DeflateEncoder.Drain` | website/static/slides/js/rawdeflate.js:1659-1669 | Copying out by buffers of 1024 until nothing comes gives every byte put, in order |
| `DeflateEncoder.Setup` | website/static/slides/js/rawdeflate.js:859-946 | The tables and static trees are set up, and the first block is empty |
| `Lz77Matcher.Tokenize` | website/static/slides/js/rawdeflate.js:780-808 | For every input and level the literals and matches tallied expand, by section 3.2.3 of RFC 1951, to exactly the input, and every one of them is chosen as the level says. Levels 1 to 3: a token is the longest match, and the nearest of the longest, among the nearest strings filed with the same hash, as many as may be tried, and the byte only if none of these agrees in three bytes; filed are the strings where tokens begin and those in matches that are not long. Levels 4 to 9, which file every string: a match is sent exactly if the next string has no longer one, short ones that are too far not counted. Whether the last was held back is told, and where the window begins at each token: at a multiple of half its size, not more than 65535 bytes and, once it has moved, not less than 32506 bytes before the end of the token |
| `Lz77Matcher.RunFast` | website/static/slides/js/rawdeflate.js:572-648 | The greedy matcher, resumed as often as needed, uses up the whole input with the tokens of the greedy choice |
| `Lz77Matcher.RunLazy` | website/static/slides/js/rawdeflate.js:650-745 | So does the lazy matcher with those of the lazy choice, but for the byte it holds back |
| `MatchChoices.GreedyAppend` | website/static/slides/js/rawdeflate.js:572-639 | One more token chosen among the strings filed before it keeps a stream one of greedy choices |
| `MatchChoices.LazyAppendMatch` | website/static/slides/js/rawdeflate.js:688-716 | Sending the match held back, when the next string has no longer one, keeps a stream one of lazy choices |
| `MatchChoices.LazyAppendLiteral` | website/static/slides/js/rawdeflate.js:717-728 | So does sending the byte held back, when it begins no match or the next string has a longer one, and holding the next one back |
| `Lz77Matcher.Matcher.InsertString` | website/static/slides/js/rawdeflate.js:330-337 | Filing a string under its hash keeps every hash chain sound and whole, and the old head is the latest string filed with the same hash, or none |
| `Lz77Matcher.Matcher.NextHash` | website/static/slides/js/rawdeflate.js:330-333 | The rolled hash is the hash of the three bytes of the current string, and its low byte is primed for the next |
| `Lz77Matcher.Matcher.ScanMatch` | website/static/slides/js/rawdeflate.js:475-487 | The length compared from the fourth byte on: all those bytes agree, and the next one differs unless the limit was reached |
| `Lz77Matcher.Matcher.MatchAt` | website/static/slides/js/rawdeflate.js:453-487 | A length found is that of a real repetition, although the third byte is never compared; a candidate that is skipped differs within the best length so far |
| `Lz77Matcher.Matcher.SearchChain` | website/static/slides/js/rawdeflate.js:427-505 | The best length and start over exactly the candidates of the chain within the distance and chain limits: the longest that beats the length at hand, and the nearest of the longest, although the search ends at a match of full length |
| `Lz77Matcher.Matcher.LongestMatch` | website/static/slides/js/rawdeflate.js:427-505 | The match chosen is the longest over the whole chain that beats the length at hand; if there is none, every candidate differs within one byte more |
| `Lz77Matcher.Matcher.Search` | website/static/slides/js/rawdeflate.js:592-597 | What is tried are the latest strings filed with the same hash within reach, as many as the budget allows, one at the very limit only if there is none after it; the length found is cut at the end of the input |
| `Lz77Matcher.Matcher.FastLookup` | website/static/slides/js/rawdeflate.js:576-597 | The current string is filed, and the length found is at least three exactly if the longest over the latest strings filed with its hash is, and then that length |
| `Lz77Matcher.Matcher.LazyLookup` | website/static/slides/js/rawdeflate.js:655-684 | The current string is filed, the match of the last one held back, and the new length is that of the longest match that beats it, unless the one held back is long enough or the new one short and too far |
| `Lz77Matcher.Matcher.LookupFinds` | website/static/slides/js/rawdeflate.js:427-505 | What a search finds in the window is what there is to find in the text: differences found lie before the end of the input |
| `Lz77Matcher.Matcher.SlideWindow` | website/static/slides/js/rawdeflate.js:529-555 | Sliding the window keeps what it shows of the input, the chains, and the input positions of the string and the match |
| `Lz77Matcher.Matcher.FillWindow` | website/static/slides/js/rawdeflate.js:515-564 | Filling keeps window, chains and positions in order, and reads at least a byte unless the input has ended |
| `Lz77Matcher.Matcher.ReadBuff` | website/static/slides/js/rawdeflate.js:365-371 | The next bytes of the input appear in the window, as many as there is room for |
| `Lz77Matcher.Matcher.InsertFollowing` | website/static/slides/js/rawdeflate.js:605-616 | Filing the strings of a match files exactly these, and keeps the dictionary sound and the hash primed |
| `Lz77Matcher.Matcher.PassMatch` | website/static/slides/js/rawdeflate.js:605-632 | A match passed over has all its strings filed if it is not longer than the limit of the level, and otherwise only the first |
| `Lz77Matcher.Matcher.PassHeldMatch` | website/static/slides/js/rawdeflate.js:700-708 | The match held back is passed over with every string of it filed |
| `Lz77Matcher.Matcher.FastStep` | website/static/slides/js/rawdeflate.js:572-639 | One step of the greedy matcher adds the match that a lookup of the current string finds if it has at least three bytes, and otherwise the byte; passes over exactly that; files the strings of a match that is not long; and stays inside the window. The token is that of the greedy choice for the text |
| `Lz77Matcher.Matcher.LazyStep` | website/static/slides/js/rawdeflate.js:650-735 | One step of the lazy matcher sends the match held back exactly if it has at least three bytes and the one found now is not longer, and otherwise the byte held back, and holds back the match found now. A search takes place only while the match held back is short enough, and a match of three bytes farther back than 4096 does not count. Tokens stay at most one byte behind, and the string inside the window |
| `Lz77Matcher.Matcher.LazyDecide` | website/static/slides/js/rawdeflate.js:688-735 | Match or byte: what is sent, and what is held back afterwards |
| `Lz77Matcher.Matcher.LazyMatch` | website/static/slides/js/rawdeflate.js:688-716 | Adopting the match held back emits a real repetition and leaves nothing held back |
| `Lz77Matcher.Matcher.LazyLiteral` | website/static/slides/js/rawdeflate.js:717-735 | Emitting the byte held back, or holding one back, keeps tokens and input in step |
| `Lz77Matcher.Matcher.DeflateFast` | website/static/slides/js/rawdeflate.js:572-648 | The greedy matcher makes progress and keeps its invariant until input or output stops it |
| `Lz77Matcher.Matcher.DeflateBetter` | website/static/slides/js/rawdeflate.js:650-745 | The lazy matcher makes progress and keeps its invariant until input or output stops it |
| `Lz77Matcher.Matcher.InsideWindow` | website/static/slides/js/rawdeflate.js:1524-1529 | A string reached by a step lies before the end of the window, so the bytes of a stored block can be counted in 16 bits |
| `Lz77Matcher.Matcher.LmInit` | website/static/slides/js/rawdeflate.js:376-417 | The first window full of input, empty chains and a primed hash; no lookahead means no input |
| `HashChains.InsertKeepsChains` | website/static/slides/js/rawdeflate.js:330-337 | Overwriting a slot of the link table and the head of a chain leaves every remaining chain sound, in a window that reuses slots |
| `HashChains.SlideKeepsChains` | website/static/slides/js/rawdeflate.js:543-553 | Lowering all heads and links by half the window, dropping those that fall out, keeps every chain sound |
| `HashChains.InsertKeepsWhole` | website/static/slides/js/rawdeflate.js:330-337 | And leaves nothing out: every head and link leads to the latest string filed with the hash |
| `HashChains.SlideKeepsWhole` | website/static/slides/js/rawdeflate.js:543-553 | So does lowering all heads and links |
| `HashChains.ChainIsLatest` | website/static/slides/js/rawdeflate.js:427-505 | Following the links from the latest string of a hash visits the latest ones filed with it within the limits, latest first: all there are, or as many as may be tried |
| `RollingHash.SameKeySameThirdByte` | website/static/slides/js/rawdeflate.js:330-333 | Two strings with the same first two bytes and the same hash have the same third byte |
| `RollingHash.PrimedRolls` | website/static/slides/js/rawdeflate.js:330-333 | Rolling a third byte into a hash primed with two gives the hash of the three, whatever was in it before |
| `Lz77Format.AppendMatch` | website/static/slides/js/rawdeflate.js:598-599 | A pair for a place where the text repeats itself keeps a stream in step with the text, overlaps included |
| `HuffmanTree.TreeBuilder.BuildTree` | website/static/slides/js/rawdeflate.js:1141-1224 | For all counts: there is a tree over exactly the counted and forced symbols, sorted by weight, that no prefix code for them beats, and no node of it lies deeper than the longest word of any prefix code as cheap; every length is its depth there, cut off at the limit; the number cut off is that of the nodes too deep; the bits charged are exact, cut off or not, forced symbols included; and codes are assigned canonically from counts that fill the code space exactly |
| `HuffmanTree.TreeBuilder.Gather` | website/static/slides/js/rawdeflate.js:1156-1162 | The heap holds exactly the counted symbols in order, and uncounted symbols get length 0 |
| `HuffmanTree.TreeBuilder.ForceTwo` | website/static/slides/js/rawdeflate.js:1169-1178 | At least two symbols get a code; those forced are the next free ones, with count 1 and their bits taken back from both totals |
| `HuffmanTree.TreeBuilder.TakeLeast` | website/static/slides/js/rawdeflate.js:1189-1192 | The node taken is lightest of all that wait, the others keep waiting, and the rest is a heap again |
| `HuffmanTree.TreeBuilder.MergeOnce` | website/static/slides/js/rawdeflate.js:1189-1211 | The two lightest nodes, and of equally light ones the lowest by their real heights, leave the queue for the back of the heap array, under a new node that weighs as much as both; its depth is noted |
| `HuffmanTree.TreeBuilder.MergeAll` | website/static/slides/js/rawdeflate.js:1189-1213 | Merging down to one node keeps the account of weights and touches neither the counts nor the lengths of other symbols |
| `HuffmanTree.TreeBuilder.CloseTree` | website/static/slides/js/rawdeflate.js:1215 | The nodes lie in the back of the heap array as a tree, every father before its sons, heavier before lighter; no prefix code is cheaper than what it weighs, and none as cheap is lower |
| `HuffmanLevels.SymbolsFirst` | website/static/slides/js/rawdeflate.js:351-360 | At every merge, a node that was merged before is taken only if it is strictly lighter than every symbol still waiting |
| `HuffmanLevels.FatherAgrees` | website/static/slides/js/rawdeflate.js:1202-1206 | The depth noted for a father, which is not its height, orders it among equally heavy nodes as its height does |
| `HuffmanLevels.JoinKeepsLevels` | website/static/slides/js/rawdeflate.js:1189-1211 | So after every merge equally heavy nodes are ordered by noted depth as they are by height |
| `ShallowCodes.MergeKeepsLow` | website/static/slides/js/rawdeflate.js:353-354 | If a cheapest code reaches no lower than a bound, so does one in which the two first nodes, lightest and then lowest, are joined |
| `ShallowCodes.HeightIsNeeded` | website/static/slides/js/rawdeflate.js:353-354 | So the height of the root is at most the longest word of any prefix code as cheap |
| `BuiltTree.CrownedIsShallow` | website/static/slides/js/rawdeflate.js:353-354 | No node of the tree lies deeper than that: breaking ties by depth minimizes the greatest length among the cheapest codes |
| `HuffmanTree.TreeBuilder.GenBitlen` | website/static/slides/js/rawdeflate.js:1008-1089 | Every node gets its depth, cut off at the limit; the number of nodes too deep is returned; the counts of lengths are those of the leaves, repaired, and fill the code space exactly; both totals grow by the exact bits, for the renewed lengths if some were cut off |
| `HuffmanTree.TreeBuilder.Recompute` | website/static/slides/js/rawdeflate.js:1076-1088 | The last loop deals the repaired counts out from the lightest leaf on, charges exactly the difference, and stores each new length where the count was: the lengths stay as they were |
| `HuffmanTree.TreeBuilder.MeasureTree` | website/static/slides/js/rawdeflate.js:1217-1220 | The tree that was grown is optimal, its depths cut off at the limit are the lengths, the nodes deeper are counted, and the charge is exact |
| `RenewedLengths.RenewedPrice` | website/static/slides/js/rawdeflate.js:1076-1088 | Charging for the lengths cut off and then for every difference is charging for the renewed lengths, by symbol |
| `HuffmanHeap.PqDownHeap` | website/static/slides/js/rawdeflate.js:972-999 | Sinking a node restores the heap order from its place on and permutes the heap |
| `HuffmanHeap.Heapify` | website/static/slides/js/rawdeflate.js:1183-1184 | The loop over sub-heaps makes a heap of the same elements |
| `HuffmanHeap.FrontIsLeast` | website/static/slides/js/rawdeflate.js:357-360 | The front of a heap is smallest in the order of count and depth |
| `HuffmanMerge.PutPair` | website/static/slides/js/rawdeflate.js:1196-1211 | Putting a pair aside and its father in keeps every node in exactly one place, each merged pair side by side under its father |
| `HuffmanShape.MergingEndsInTree` | website/static/slides/js/rawdeflate.js:1189-1215 | When one node is left, the merged nodes and the root form a tree over exactly the symbols |
| `HuffmanShape.TreeIsWellFormed` | website/static/slides/js/rawdeflate.js:1196-1215 | Read from the heap array, it is a full binary tree in which every father comes before its two adjacent sons |
| `OptimalCodes.MergeBound` | website/static/slides/js/rawdeflate.js:1186-1189 | Huffman's step: if a prefix code for the queue with the two lightest nodes joined costs at least c, one for the queue costs at least c and their weights |
| `OptimalCodes.SwapIsNoDearer` | website/static/slides/js/rawdeflate.js:1186-1189 | Exchanging a lighter node with a deeper one does not raise the cost of a code |
| `HuffmanWeights.AllPaid` | website/static/slides/js/rawdeflate.js:1213-1215 | No prefix code for the symbols costs less than all merged nodes weigh together |
| `TreeCost.CostOfTree` | website/static/slides/js/rawdeflate.js:1030-1048 | The nodes below the root weigh together exactly what the symbols cost at their depths |
| `CodeLengths.KraftOfCutTree` | website/static/slides/js/rawdeflate.js:1030-1043 | Cutting depths off at the limit adds exactly half a unit of code space for every node cut off, in any full binary tree |
| `CodeLengths.EnoughLowLeaves` | website/static/slides/js/rawdeflate.js:1057-1069 | There are always enough leaves at the limit for the repair to take from |
| `LengthLimit.RepairCounts` | website/static/slides/js/rawdeflate.js:1057-1069 | The repair ends with the counts that moving the longest shorter code each time gives, the code space filled exactly, as many codes as before, and no count negative |
| `LengthLimit.MoveLowersKraft` | website/static/slides/js/rawdeflate.js:1059-1064 | Each repair step takes exactly one unit away and keeps the number of codes |
| `LengthLimit.SomeShorterCode` | website/static/slides/js/rawdeflate.js:1059-1061 | The search for a shorter length that is in use always succeeds while there is something to repair |
| `LengthCounts.CountsOfTree` | website/static/slides/js/rawdeflate.js:1030-1043 | The counts of lengths are those of the leaves, at most as many as the code space has room for |
| `BlockTrees.CodeIffNotCutOff` | website/static/slides/js/rawdeflate.js:1082-1085 | After building any tree, its lengths are those of a prefix code if and only if nothing was cut off |
| `CutOffBlocks.CutOffIffDeep` | website/static/slides/js/rawdeflate.js:1030-1036 | Lengths are cut off if and only if some node of the Huffman tree of the counts lies deeper than the limit |
| `LimitedCodes.LimitIsKept` | website/static/slides/js/rawdeflate.js:353-354 | All nodes of the tree lie within a limit if and only if some cheapest prefix code keeps it |
| `CutOffBlocks.CutOffExactly` | website/static/slides/js/rawdeflate.js:1030-1036 | Lengths are cut off if and only if no cheapest prefix code for the counts keeps the limit |
| `DeepTrees.DeepTreeIsHeavy` | website/static/slides/js/rawdeflate.js:1030-1036 | In a tree with a node deeper than max the counts add up to at least the Fibonacci number of max + 3 |
| `DeepTrees.RootCountsAll` | website/static/slides/js/rawdeflate.js:1199-1201 | The root of every tree weighs what all counts add up to |
| `CutOffBlocks.LightIsNotCutOff` | website/static/slides/js/rawdeflate.js:1030-1036 | So no length is cut off while the counts add up to less |
| `CutOffBlocks.SmallBlockIsKept` | website/static/slides/js/rawdeflate.js:1030-1036 | In a block of fewer than 2583 tokens neither literal nor distance lengths are cut off |
| `FewSymbols.RunsByUse` | website/static/slides/js/rawdeflate.js:1281-1332 | At most three symbols are sent for each length in use, and a few for the rest |
| `FewSymbols.FewRunsAreKept` | website/static/slides/js/rawdeflate.js:1347-1354 | If fewer than 55 symbols are sent for the lengths of a block, their code is not cut off |
| `FewSymbols.FewSymbolsAreKept` | website/static/slides/js/rawdeflate.js:1338-1364 | In a block of fewer than 2583 tokens with at most 12 different symbols nothing is cut off |
| `FewSymbols.ShortTextIsSent` | website/static/slides/js/rawdeflate.js:1422-1466 | For a text of at most six bytes no block is cut off, whatever the tokens |
| `FewSymbols.FewBytesAreSent` | website/static/slides/js/rawdeflate.js:1422-1466 | Nor for one without three bytes that repeat, of fewer than 2583 bytes and at most 12 different ones |
| `FewSymbols.CompressPlain` | website/static/slides/js/rawdeflate.js:1650-1670 | Compressing either, at any level, gives an output from which a decoder gives the text back |
| `FibonacciCounts.FibonacciIsChain` | website/static/slides/js/rawdeflate.js:1189-1213 | Every tree built from counts 1, 1, 2, 3, 5 and so on is a chain, however ties are resolved: the symbols lie at all depths |
| `CutOffBlocks.FibonacciIsCutOff` | website/static/slides/js/rawdeflate.js:1030-1036 | So every code built from max + 2 such counts is cut off |
| `UniqueTexts.OnlyItsLiterals` | website/static/slides/js/rawdeflate.js:598-599 | A text in which no three bytes repeat has only one stream of tokens that expands to it: its literals |
| `DyadicCounts.DyadicDepths` | website/static/slides/js/rawdeflate.js:1186-1215 | In every optimal tree over counts that are the right powers of two, each symbol lies at the depth that its count says, however ties are resolved |
| `RefusedLengths.DyadicLengths` | website/static/slides/js/rawdeflate.js:1008-1089 | So every code built from such counts has the lengths that the counts say |
| `StretchRuns.RunsOfStretches` | website/static/slides/js/rawdeflate.js:1232-1332 | The symbols sent for lengths that lie in stretches of equal ones are those of each stretch |
| `LengthPlan.PlanTimes` | website/static/slides/js/rawdeflate.js:1232-1275 | For the lengths of the refused text each symbol is sent as often as the Fibonacci numbers 1, 1, 2, 3, 5, 8, 13, 21, 34 say |
| `RefusedText.MadeIsRepeatless` | website/static/slides/js/rawdeflate.js:598-599 | No three bytes of the refused text repeat |
| `RefusedText.TextCounts` | website/static/slides/js/rawdeflate.js:1478-1530 | Its 255 bytes and the end of block count the powers of two that give these lengths |
| `RefusedLengths.TextIsCutOff` | website/static/slides/js/rawdeflate.js:1338-1364 | So whatever trees are built for it, the code of its code lengths is cut off |
| `RefusedOutput.TextBlockIsCutOff` | website/static/slides/js/rawdeflate.js:1422-1466 | Its own codes are cheapest, so they are chosen, wherever the block begins |
| `RefusedOutput.OneBlock` | website/static/slides/js/rawdeflate.js:1505-1530 | Fewer than 4096 tokens are sent in one block |
| `RefusedOutput.TextIsRefused` | website/static/slides/js/rawdeflate.js:1422-1466 | However this text is cut into tokens and blocks by the rules of the encoder, a block is cut off |
| `RefusedOutput.CompressText` | website/static/slides/js/rawdeflate.js:1650-1670 | Compressing this text of 255 bytes, at any level, gives an output that a decoder of RFC 1951 refuses |
| `BuiltTree.LengthsAreOptimal` | website/static/slides/js/rawdeflate.js:1141-1224 | With nothing cut off, no prefix code for the symbols costs less than these lengths do |
| `BuiltTree.ForcedPrice` | website/static/slides/js/rawdeflate.js:1164-1177 | Taking a bit back for each forced symbol makes the charge exactly that of the counted symbols |
| `TreeSymbols.BitCostIsPrice` | website/static/slides/js/rawdeflate.js:1043-1050 | The bits charged leaf by leaf are the bits of the symbols with their extra bits |
| `CanonicalCodes.GenCodes` | website/static/slides/js/rawdeflate.js:1099-1131 | Every symbol with a length gets its code of section 3.2.2 of RFC 1951, reversed; all others keep what they had |
| `CanonicalCodes.StartCodes` | website/static/slides/js/rawdeflate.js:1109-1112 | The first code of every length follows from the counts of shorter lengths |
| `CanonicalCodes.PrefixFree` | website/static/slides/js/rawdeflate.js:1106-1126 | No code word begins with another, for any lengths whose counts are given and whose code space suffices |
| `CanonicalCodes.CodeFits` | website/static/slides/js/rawdeflate.js:1109-1126 | Every code fits its length |
| `CanonicalCodes.CodeIsCanonical` | website/static/slides/js/rawdeflate.js:1106-1126 | The place of a code in the code space is that of all symbols before it, in order of length and then of symbol |
| `CanonicalCodes.ConsecutiveCodes` | website/static/slides/js/rawdeflate.js:1121-1126 | Symbols of one length get consecutive codes in order |
| `BitStrings.BiReverse` | website/static/slides/js/rawdeflate.js:1609-1619 | The loop reverses the lowest bits of a number |
| `BitStrings.ReversedTwice` | website/static/slides/js/rawdeflate.js:1609-1619 | Reversing is an involution on numbers of that many bits |
| `BitStrings.ReversedIsCode` | website/static/slides/js/rawdeflate.js:1609-1619 | Sent lowest bit first, the reversed code is the code read highest bit first |
| `PrefixCodes.SymbolReadBack` | website/static/slides/js/rawdeflate.js:340-342 | A reader of prefix codes reads back the symbol whose word was sent, and what follows |
| `PrefixCodes.SentIsWord` | website/static/slides/js/rawdeflate.js:1126 | The bits of the number stored for a symbol are its word in the code |
| `CodeLengthRuns.RunsReadBack` | website/static/slides/js/rawdeflate.js:1281-1332 | For every sequence of lengths the runs sent for it read back, by section 3.2.7 of RFC 1951, as that sequence, after any lengths before |
| `CodeLengthRuns.SendTree` | website/static/slides/js/rawdeflate.js:1281-1332 | The loop sends these runs, guard and end included |
| `CodeLengthRuns.ScanTree` | website/static/slides/js/rawdeflate.js:1232-1275 | The counts grow by exactly how often the runs sent use each symbol, and only the guard is written |
| `CodeLengthRuns.SomePlainLength` | website/static/slides/js/rawdeflate.js:1232-1275 | Lengths that are not all zero are sent with at least one length written out |
| `DeflateTables.BuildLengthTable` | website/static/slides/js/rawdeflate.js:892-905 | Every match length has the length code of the table in section 3.2.5 of RFC 1951, 258 its own |
| `DeflateTables.BuildDistTable` | website/static/slides/js/rawdeflate.js:907-921 | The two halves of the distance table give the distance code of section 3.2.5 of RFC 1951 for every distance up to 32768 |
| `DeflateTables.DCodeCovers` | website/static/slides/js/rawdeflate.js:348-351 | The code looked up for a distance covers it: its base plus what its extra bits can hold |
| `FixedCodes.BuildStaticTree` | website/static/slides/js/rawdeflate.js:924-936 | The static tree holds the fixed codes of section 3.2.6 of RFC 1951 |
| `FixedCodes.BuildStaticDists` | website/static/slides/js/rawdeflate.js:938-942 | So does the static distance tree |
| `FixedCodes.FixedIsCode` | website/static/slides/js/rawdeflate.js:924-936 | The fixed lengths are those of a prefix code |
| `TokenBuffer.Buffer.Tally` | website/static/slides/js/rawdeflate.js:1478-1530 | The three packed buffers and the counts stand for the tokens so far and the new one, and the block is to end if and only if it pays or a buffer is full |
| `TokenBuffer.Buffer.Guess` | website/static/slides/js/rawdeflate.js:1505-1523 | It pays if and only if, at every 4096 tokens above level 2, fewer than half of the tokens are matches and their literals at eight bits and distances at five and their extra bits take less than half of the input |
| `TokenBuffer.CostByCount` | website/static/slides/js/rawdeflate.js:1512-1514 | Adding up the distances by symbol gives what they cost token by token |
| `TokenBuffer.Buffer.SaveFlags` | website/static/slides/js/rawdeflate.js:1403 | With the last flags saved the buffers can be unpacked |
| `TokenBuffer.Buffer.InitBlock` | website/static/slides/js/rawdeflate.js:951-964 | A new block has no tokens, and only the end of block is counted |
| `BlockEncoder.CompressBlock` | website/static/slides/js/rawdeflate.js:1535-1579 | Unpacking the buffers sends exactly the codes of all tokens in order, with their extra bits, and of the end of block, whatever codes the trees hold |
| `BlockEncoder.SendAllTrees` | website/static/slides/js/rawdeflate.js:1371-1391 | The header sent is that of section 3.2.7 of RFC 1951 for these lengths, with the codes the third tree holds |
| `BlockEncoder.SendRuns` | website/static/slides/js/rawdeflate.js:1281-1332 | Every run is sent as the code of its symbol with its extra bits |
| `BlockEncoder.DataSentIsCoded` | website/static/slides/js/rawdeflate.js:1535-1579 | Where both codes are prefix codes, what is sent for the data is what a decoder reads as the tokens |
| `BlockEncoder.TreesSentAreCoded` | website/static/slides/js/rawdeflate.js:1371-1391 | Where the third code is a prefix code, what is sent for the trees is what a decoder reads as the lengths |
| `BlockFormat.TokenReadBack` | website/static/slides/js/rawdeflate.js:1547-1575 | The bits of any token the format can express read back as that token |
| `BlockFormat.BlockReadBack` | website/static/slides/js/rawdeflate.js:1547-1578 | The data of a block read back, under any codes that cover it, as its tokens, and what follows is left |
| `BlockHeader.HeaderReadBack` | website/static/slides/js/rawdeflate.js:1371-1391 | The header reads back as both length tables |
| `BlockHeader.DynamicReadBack` | website/static/slides/js/rawdeflate.js:1460-1466 | Header and data of a dynamic block read back as its tokens |
| `BlockHeader.HeadRefused` | website/static/slides/js/rawdeflate.js:1371-1391 | A decoder refuses a block whose code length code is no prefix code |
| `BlockHeader.TreesRefused` | website/static/slides/js/rawdeflate.js:1371-1391 | A decoder refuses a block if the lengths of one of its two alphabets are no prefix code |
| `BlockStream.StaticReadBack` | website/static/slides/js/rawdeflate.js:1457-1459 | A block with the fixed codes reads back as its tokens |
| `BlockStream.DynamicBlockReadBack` | website/static/slides/js/rawdeflate.js:1460-1466 | So does a dynamic block, kind and final flag included |
| `BlockStream.StoredBlockReadBack` | website/static/slides/js/rawdeflate.js:1443-1455 | A stored block reads back as its bytes, wherever in a byte it begins, if the stream is made of whole bytes |
| `BlockStream.OneMoreBlock` | website/static/slides/js/rawdeflate.js:1443-1468 | Sending one more block adds its tokens to those carried, whatever follows, also if a decoder refuses what follows |
| `BlockStream.LastBlock` | website/static/slides/js/rawdeflate.js:1470-1471 | The final block ends the stream, whatever padding follows |
| `BlockStream.RefusedBreaks` | website/static/slides/js/rawdeflate.js:1470-1471 | After a block that is refused a decoder refuses the stream, whatever is sent afterwards |
| `BlockStream.NothingIsNoStream` | website/static/slides/js/rawdeflate.js:787-790 | The empty output for an empty text is no stream of RFC 1951 |
| `StoredBlocks.StoredReadBack` | website/static/slides/js/rawdeflate.js:1444-1455 | Padding, length, complement and bytes read back as the bytes |
| `BlockFlush.FlushBlock` | website/static/slides/js/rawdeflate.js:1397-1472 | The form sent is decided by the sizes of all forms; it reads back as the tokens or the bytes, and a compressed one is no longer in bytes than with the fixed codes; a block to be sent with its own codes that were cut off is sent, and refused by every decoder of RFC 1951 |
| `BlockFlush.SendStored` | website/static/slides/js/rawdeflate.js:1443-1455 | The bits sent are those of a stored block, aligned on a byte |
| `BlockFlush.BuildTrees` | website/static/slides/js/rawdeflate.js:1338-1364 | All three trees are built from the counts of the tokens and of the runs for the first two |
| `BlockFlush.LastLength` | website/static/slides/js/rawdeflate.js:1355-1357 | The place found has a code length, unless it is 2, and behind it none is used |
| `BlockFlush.OptLenIsExact` | website/static/slides/js/rawdeflate.js:1358-1359 | With nothing cut off the bits charged for a dynamic block are exactly the bits of its header and data |
| `BlockFlush.StaticLenIsExact` | website/static/slides/js/rawdeflate.js:1045-1050 | The bits charged for the fixed codes are exactly the bits sent with them, cut off or not |
| `BlockFlush.DecisionIsShortest` | website/static/slides/js/rawdeflate.js:1422-1460 | With nothing cut off each form is chosen if and only if it is shortest in bytes |
| `BlockFlush.CutOffIsNoCode` | website/static/slides/js/rawdeflate.js:1082-1085 | All three length tables of a block are prefix codes if and only if no length was cut off |
| `BlockFlush.CutOffIsRefused` | website/static/slides/js/rawdeflate.js:1460-1466 | What is sent for a block whose lengths were cut off is refused, whatever follows |
| `BlockFlush.TrioIsReady` | website/static/slides/js/rawdeflate.js:1460-1466 | Whatever was cut off, every code sent fits its length, and every token and run has one |
| `BlockCost.TreeBitsCost` | website/static/slides/js/rawdeflate.js:1345-1359 | The bits of the header are the price of its runs and the fixed part |
| `BlockCost.BlockDataCost` | website/static/slides/js/rawdeflate.js:1045-1050 | The bits of the data are the price of its counted symbols with extra bits |
| `BitWriter.Writer.SendBits` | website/static/slides/js/rawdeflate.js:1586-1602 | Bytes put and bits pending are the concatenation of all values sent, lowest bit first |
| `BitWriter.Writer.BiWindup` | website/static/slides/js/rawdeflate.js:1624-1632 | Less than a byte of zero bits is added, and nothing is pending |
| `BitWriter.Writer.PutBytes` | website/static/slides/js/rawdeflate.js:1454-1455 | Bytes put at a byte boundary appear in the stream as they are |
| `OutputQueue.Deflate` | website/static/slides/js/rawdeflate.js:1650-1670 | Whatever pieces are put between calls, the bytes copied out over all calls are the bytes put, in order |
| `OutputQueue.Output.DeflateInternal` | website/static/slides/js/rawdeflate.js:780-810 | A call copies out what comes next, works only when room is left, and returns nothing only at the end |
| `OutputQueue.Output.QCopy` | website/static/slides/js/rawdeflate.js:812-852 | The bytes copied are the next ones; when room is left nothing is pending and the output buffer starts at its beginning |
| `OutputQueue.Output.QOutBuf` | website/static/slides/js/rawdeflate.js:1634-1648 | Handing the output buffer over keeps all pending bytes in order and empties the buffer |
| `OutputQueue.Output.PutByte` | website/static/slides/js/rawdeflate.js:304-308 | A byte is added to the end of what was put |
| `OutputQueue.Output.PutShort` | website/static/slides/js/rawdeflate.js:311-320 | The low and the high byte of a word are added, across a full buffer too |
| `OutputQueue.Output.NewQueue` | website/static/slides/js/rawdeflate.js:275-288 | The buffer comes from the free list or is new, is empty, and belongs to neither list |
| `OutputQueue.Output.ReuseQueue` | website/static/slides/js/rawdeflate.js:270-273 | The buffer is in front of the free list, and the queue is as it was |
| `ScaleDownRuns.RunIsSafe` | controllers/cassandracluster/pod_operation.go:334-561 | In every run from an idle rack, whatever writes are lost and whatever pods linger, every pass lowers the replicas by at most one, not below the target, only when the last pod has left the ring or could not be scheduled, tells only the last pod to leave, deletes a claim only when its pod is gone, and ends the action only at the target, if and only if no pass acts on the guards of Careless: a pod that was scaled away is still there, and a decommission is due or found ended |
| `ScaleDownRuns.PassIsSafe` | controllers/cassandracluster/pod_operation.go:334-561 | For every state of a scale-down and every truthful answer: when a pass lowers the replicas, when it tells a pod to leave, and when it deletes a claim and which, each exactly by guards; it is safe if and only if it is not careless, and then leaves such a state |
| `ScaleDownRuns.DueInFull` | controllers/cassandracluster/pod_operation.go:449-529 | What a pass leaves when a decommission is due: the pod told to leave, the pod scaled away because it cannot be scheduled, or nothing changed |
| `ScaleDownRuns.LeavingInFull` | controllers/cassandracluster/pod_operation.go:360-424 | What it leaves while a pod leaves: found gone, or asked for again if it is overdue and still in the ring |
| `ScaleDownRuns.PassInFull` | controllers/cassandracluster/pod_operation.go:531-569 | What it leaves afterwards: the pod done with once it is gone and its claim answered for, and the action ended exactly at the target |
| `ScaleDownClaims.ClaimsExactly` | controllers/cassandracluster/pod_operation.go:541-552 | A scale-down that starts with claims for its pods only, with a cluster that answers and finds the claims of pods that are gone, ends without a claim at or above the target if and only if no decommission begins before the claim of a pod that was scaled away is deleted |
| `ScaleDownClaims.StaysForgotten` | controllers/cassandracluster/pod_operation.go:541-552 | Such a claim is never deleted any more |
| `ScaleDownClaims.ClaimIsForgotten` | controllers/cassandracluster/pod_operation.go:461-472 | A pod that could not be scheduled is scaled away, and the next decommission begins before its claim is deleted |
| `ScaleDownRuns.PromptRunIsSafe` | controllers/cassandracluster/pod_operation.go:334-561 | Where pods that are scaled away are gone before the next pass, every run is safe, whatever writes are lost |
| `ScaleDownRuns.RunSparesExactly` | controllers/cassandracluster/pod_operation.go:449-529 | A careful run never tells a pod below the target to leave if and only if no pass finds the target reached and a decommission due |
| `ScaleDownRuns.RunSparesPods` | controllers/cassandracluster/pod_operation.go:554-569 | If the StatefulSet is ready whenever a removed pod is gone, pods that were scaled away are gone and no write is lost while the replicas are lowered, no pod below the target is ever told to leave; RunSparesExactly gives the exact condition |
| `ScaleDownRuns.ScaleDownEnds` | controllers/cassandracluster/cassandra_status.go:422-433 | From every state of a safe run in which the scale-down can still end, with a cluster that answers, it ends after at most as many passes as its rank says, with the replicas at the target |
| `ScaleDownRuns.PassProgresses` | controllers/cassandracluster/pod_operation.go:345-437 | Every such pass lowers the rank, and leaves a scale-down that can end |
| `ScaleDownRuns.EndsExactly` | controllers/cassandracluster/pod_operation.go:345-437 | From every state of a safe run, lost writes and unready StatefulSets included, some run with a cluster that answers ends the scale-down if and only if it is not doomed: stuck, waiting for a pod to disappear that the StatefulSet still asks for, or for one to leave the ring that is gone; or overdone, with one more pod to leave at the target |
| `ScaleDownRuns.DoomsExactly` | controllers/cassandracluster/pod_operation.go:334-561 | A pass dooms a scale-down that could end if and only if it finds the pod gone and exactly one of StatefulSet and status is written; or scales the last pod away because it cannot be scheduled, and the status is not written; or finds the last pod gone while the StatefulSet is not ready, and stores that |
| `ScaleDownRuns.RunDoomsExactly` | controllers/cassandracluster/pod_operation.go:334-561 | Where pods that are scaled away are gone before the next pass, a run leaves a scale-down that can end if and only if no pass of it meets these guards |
| `ScaleDownRuns.DoomedForEver` | controllers/cassandracluster/pod_operation.go:334-561 | Whatever the cluster answers, a doomed scale-down never ends, and no pod is removed any more |
| `ScaleDownRuns.StuckStays` | controllers/cassandracluster/pod_operation.go:360-413 | Whatever the cluster answers, a pass keeps a stuck scale-down as it is |
| `ScaleDownRuns.StuckForEver` | controllers/cassandracluster/pod_operation.go:360-413 | So does every run: replicas, claims, action and operation stay |
| `ScaleDownRuns.StuckExactly` | controllers/cassandracluster/pod_operation.go:415-424 | While the last pod leaves, a pass gets stuck if and only if it finds that the pod has left and exactly one of its two writes, of the StatefulSet and of the status, goes through |
| `ScaleDownRuns.AskedMovesExactly` | controllers/cassandracluster/pod_operation.go:449-529 | While a pod is to be told to leave, a pass moves on if and only if the pod can be told or cannot be scheduled, and that is written |
| `ScaleDownRuns.ToldIsForgotten` | controllers/cassandracluster/pod_operation.go:505-529 | A pod that is told to leave when the status cannot be written is asked for once more |
| `ScaleDownRuns.LeftForEver` | controllers/cassandracluster/pod_operation.go:499-502 | As long as it then answers that it is leaving or has left, nothing is ever done |
| `ScaleDownRuns.DisruptionSticks` | controllers/cassandracluster/statefulset.go:199-208 | A disruption at the moment the pod is found to have left makes a scale-down stuck |
| `ScaleDownRuns.LostWriteSticks` | controllers/cassandracluster/pod_operation.go:415-424 | So do lost status writes when the replicas are lowered, once the pod is gone |
| `ScaleDownRuns.ForgottenSticks` | controllers/cassandracluster/pod_operation.go:499-502 | And a lost status write when a pod is told to leave, while it leaves |
| `ScaleDownRuns.UnreadyIsDoomed` | controllers/cassandracluster/pod_operation.go:554-569 | A StatefulSet that is not ready when the last pod is gone dooms a scale-down that has reached its target |
| `ScaleDownRuns.HalfScaledIsDoomed` | controllers/cassandracluster/pod_operation.go:461-472 | So does a status that is not written when the last pod could not be scheduled |
| `ScaleDownRuns.LostWriteExactly` | controllers/cassandracluster/pod_operation.go:415-424 | While a pod is leaving, the pass after the next is unsafe if and only if the next lowers the replicas, none of its writes succeeds, and the pod still answers that it has left |
| `ScaleDownRuns.LingeringExactly` | controllers/cassandracluster/pod_operation.go:461-472 | With a pod that could not be scheduled and lingers, a pass is unsafe if and only if it looks for changes, there are replicas to lower, and the pod can be told to leave or scaled away again |
| `ScaleDownRuns.UnreadyExactly` | controllers/cassandracluster/pod_operation.go:554-569 | From a state in order, the next pass but one tells a pod below the target to leave if and only if the first finds the last pod gone while the StatefulSet is not ready, and stores that |
| `ScaleDownRuns.WaitingExactly` | controllers/cassandracluster/cassandra_status.go:79-81 | When the last action of an idle rack started a moment ago, as an upsize that ends within 20 seconds of its start leaves it, a pass is unsafe if and only if it can write the StatefulSet, there are replicas to lower, and the last pod is one that was scheduled; the status then says that the StatefulSet is being updated |
| `ScaleDownRuns.LostWriteIsUnsafe` | controllers/cassandracluster/pod_operation.go:418-423 | A lost status write can lower the replicas once more without a decommission |
| `ScaleDownRuns.UnreadyIsUnsafe` | controllers/cassandracluster/pod_operation.go:554-569 | A StatefulSet that is not ready when the pod is gone can have a pod below the target told to leave |
| `ScaleDownRuns.UnsettledIsUnsafe` | controllers/cassandracluster/pod_operation.go:461-472 | A pod that could not be scheduled and lingers can lower the replicas once more |
| `ScaleDownReconciler.RackReconciler.ReconcileRack` | controllers/cassandracluster/reconcile.go:494-593 | A whole pass over the rack, in the order of the source. Unless it is careless the fields say: at most one replica less, not below the target, only when the pod that goes has left; only the last pod told to leave; only the claim of a pod that is gone deleted; each if and only if its guards hold; and the status stored is in order for the next pass |
| `StorageUpsizeRuns.AlwaysRecreatable` | controllers/cassandracluster/storageupsize/action_api.go:42-65 | Under any interleaving of failed calls, lost status writes and growing filesystems, a rack without StatefulSet has its snapshot in the stored status, and the StatefulSet is never anything but the old one or the old one resized |
| `StorageUpsizeRuns.StepsKeepInv` | controllers/cassandracluster/storageupsize/rackstatus.go:19-61 | Every pass keeps this, for any capacities of datacenter and cluster |
| `StorageUpsizeRuns.EndsResized` | controllers/cassandracluster/storageupsize/sts.go:151-182 | An upsize ends only with every claim and filesystem at the new capacity and all pods there and ready; the StatefulSet is then the one it began with, resized if datacenter and cluster ask for the same capacity, and otherwise not resized at all |
| `StorageUpsizeRuns.StartsAgain` | controllers/cassandracluster/storageupsize/sts.go:100-122 | An upsize that ended starts again as soon as changes are looked for, if and only if the two capacities differ |
| `StorageUpsizeRuns.DeletesAtMostOnce` | controllers/cassandracluster/storageupsize/sts.go:100-149 | With one capacity for datacenter and cluster, over any run the StatefulSet is deleted at most once and created at most once |
| `StorageUpsizeRuns.AtMostOnceExactly` | controllers/cassandracluster/storageupsize/sts.go:100-149 | From rest, no run deletes or creates the StatefulSet twice if and only if two of these are equal: its capacity, that of the datacenter, that of the cluster |
| `StorageUpsizeRuns.NeverDeletes` | controllers/cassandracluster/storageupsize/sts.go:100-122 | Where the StatefulSet has the capacity of the cluster, or that of the datacenter at rest, it is never deleted |
| `StorageUpsizeRuns.RestToTorn` | controllers/cassandracluster/storageupsize/sts.go:100-149 | With three different capacities, three passes from rest in which nothing fails delete it once and recreate it with a capacity that the next pass deletes again |
| `StorageUpsizeRuns.TornAgain` | controllers/cassandracluster/storageupsize/sts.go:118-122 | From then on two passes delete the StatefulSet and create it as it was |
| `StorageUpsizeRuns.RecreatesForEver` | controllers/cassandracluster/storageupsize/sts.go:118-122 | So it is deleted any number of times |
| `StorageUpsizeRuns.NeverBack` | controllers/cassandracluster/storageupsize/action_api.go:47-62 | No pass raises the rank of stage and lagging claims |
| `StorageUpsizeRuns.PassProgresses` | controllers/cassandracluster/storageupsize/action_api.go:47-62 | With as many claims as replicas, a pass in which calls succeed, after filesystems have grown as their claims request, lowers it |
| `StorageUpsizeRuns.UpsizeEnds` | controllers/cassandracluster/storageupsize/action_api.go:47-62 | So with as many claims as replicas and a cluster that answers the upsize ends within as many passes as the rank says |
| `StorageUpsizeRuns.EndsExactly` | controllers/cassandracluster/storageupsize/pvc.go:71-79 | Some run with a cluster that answers ends an upsize with the new capacity if and only if datacenter and cluster ask for the same capacity and there are as many claims as replicas |
| `StorageUpsizeRuns.UnfitForEver` | controllers/cassandracluster/storageupsize/pvc.go:71-79 | An upsize under way with more or fewer claims than replicas is never over, whatever happens, for any capacities |
| `StorageUpsizeRuns.LeftClaimSticks` | controllers/cassandracluster/pod_operation.go:543-552 | A rack with a claim left behind by a scale-down begins such an upsize in a pass in which nothing fails |
| `StorageUpsizeRuns.SettleHappens` | controllers/cassandracluster/storageupsize/pvc.go:116-139 | That filesystems grow as their claims request is one of the events of a run |
| `StorageUpsize.Upsizer.MakeOldStatefulSetSnapshot` | controllers/cassandracluster/storageupsize/rackstatus.go:19-34 | The snapshot is taken once, or the step fails when there is nothing to take it of |
| `StorageUpsize.Upsizer.RemoveStatefulSetOrphan` | controllers/cassandracluster/storageupsize/sts.go:100-122 | The StatefulSet is deleted only if it lacks the capacity of the cluster |
| `StorageUpsize.Upsizer.RecreateStatefulSet` | controllers/cassandracluster/storageupsize/sts.go:124-149 | A missing StatefulSet is made from the snapshot with the new capacity, or the step fails |
| `StorageUpsize.Upsizer.EnsureAllClaims` | controllers/cassandracluster/storageupsize/pvc.go:83-114 | Every claim that lags is asked to grow, and those whose update succeeds do |
| `StorageUpsize.Upsizer.WaitForFilesystems` | controllers/cassandracluster/storageupsize/pvc.go:116-139 | The step passes if and only if every filesystem has the new capacity |
| `StorageUpsize.Upsizer.WaitForPods` | controllers/cassandracluster/storageupsize/sts.go:151-182 | The action is finished only with the capacity, the number of pods and their readiness in order |
| `StorageUpsize.Upsizer.Reconcile` | controllers/cassandracluster/storageupsize/action_api.go:42-65 | The steps in their order, up to the first that stops or fails, do what the specification says |
| `StorageUpsize.Upsizer.ReconcileRack` | controllers/cassandracluster/reconcile.go:550-563 | A pass never loses the StatefulSet: it is there or can be made again from what is remembered. From rest an upsize begins if and only if changes are looked for, the StatefulSet can be read and lacks the capacity of the datacenter. The StatefulSet is deleted only after it was remembered and while the cluster asks for another capacity, made again only as remembered and resized, and the upsize ends only with all claims, filesystems and pods in order. When operations on pods end the pass, nothing changes but that an upsize may have begun |
| `StorageUpsize.BeginsExactly` | controllers/cassandracluster/storage_upsize_adapter.go:23-42 | When a pass over a rack at rest begins an upsize, by guards, and all that it does else |
| `StorageUpsize.PassExactly` | controllers/cassandracluster/storageupsize/action_api.go:42-65 | When a pass over an upsize under way deletes the StatefulSet, makes it again, resizes the claims, ends the upsize, and what is remembered, each if and only if its guards hold |
| `StorageUpsize.ResizedHasCapacity` | controllers/cassandracluster/storageupsize/sts.go:184-193 | Setting the capacity sets that of the data claim and nothing else, and twice is once |
| `Rollout.RolloutExactly` | controllers/cassandracluster/reconcile.go:459-593 | Over any run of passes the racks with the new template are a prefix of the topology if and only if in no pass a rack behind the first old one is due to be written while every rack before it is passed over, by the guards of each rack |
| `Rollout.RolloutInOrder` | controllers/cassandracluster/reconcile.go:459-593 | So they are over any run in which the StatefulSets can be read, whatever writes fail or are lost |
| `Rollout.PassKeepsPrefix` | controllers/cassandracluster/reconcile.go:583-592 | A pass writes at most one StatefulSet, without disruption, and only behind racks that are running and have nothing under way; a rack before it that was under way has pods with the current template; it keeps the prefix if and only if no rack behind the first old one is due to be written while all before it are passed over |
| `Rollout.EndsWhenSettled` | controllers/cassandracluster/cassandra_status.go:444-452 | An action under way ends in a pass if and only if the StatefulSet can be read, all its pods have the current template, and the action did not start a moment ago |
| `Rollout.BeginsExactly` | controllers/cassandracluster/cassandra_status.go:113-163 | When a pass asks for a new template, and when it finds one under way, by guards |
| `Rollout.OneRackAtATime` | controllers/cassandracluster/reconcile.go:583-592 | From rest on, while every status is stored, no rack is written while the pods of a rack before it, that can be read and has the template, still change |
| `Rollout.UnsettledExactly` | controllers/cassandracluster/reconcile.go:583-592 | A rack whose pods still change is passed over if and only if it is ready and its action is ToDo, or started a moment ago and is neither under way nor finalizing |
| `Rollout.LostStatusOverlaps` | controllers/cassandracluster/reconcile.go:583-592 | So a lost status write lets two racks change at once |
| `Rollout.WalkWrites` | controllers/cassandracluster/reconcile.go:583-592 | A pass writes a rack if and only if it is due to be written and every rack before it is passed over |
| `Rollout.NothingWritten` | controllers/cassandracluster/statefulset.go:197-208 | While there is a disruption no StatefulSet is written, nor while nodes are joining if every one can be read |
| `Rollout.PassProgresses` | controllers/cassandracluster/reconcile.go:583-592 | A pass with a cluster that cooperates brings the template to the first old rack, and to no other, if and only if no rack before it is finalizing an action |
| `Rollout.RolloutEnds` | controllers/cassandracluster/reconcile.go:583-592 | So every such pass leaves one old rack less until none is left, if no old rack comes behind one that is finalizing an action, and the rollout ends only then |
| `Rollout.FinalizingStays` | controllers/cassandracluster/cassandra_status.go:113-131 | No pass begins or ends the finalizing of an action, whatever the cluster answers |
| `Rollout.AlwaysFree` | controllers/cassandracluster/cassandra_status.go:113-131 | So from racks without such an action, the only ones the operator makes, no run leads to one, and no old rack is ever held up by it |
| `Rollout.UnreadableIsPassedOver` | controllers/cassandracluster/reconcile.go:494-498 | A StatefulSet that cannot be read is passed over, and a later rack gets the template before it |
| `Rollout.Reconciler.ReconcileRack` | controllers/cassandracluster/reconcile.go:459-593 | The loop over the racks, with its early returns, brings the template to at most one rack, without disruption, behind racks that have it or could not be written and whose actions have ended with all pods settled, and leaves all other templates as they were |
| `SeedList.InitSeedList` | api/v2/cassandracluster_types.go:327-376 | The loops give the seeds of the specification, for every topology |
| `SeedList.SeedsPerDC` | api/v2/cassandracluster_types.go:343-374 | With valid names a datacenter gets as many seeds as it has nodes, up to three, if and only if its racks have nodes or are fewer than three |
| `SeedList.RacksShare` | api/v2/cassandracluster_types.go:343-374 | How the racks of a datacenter share them: each of the first three gives its first pods; of two racks the first gives two, if it has them, and the second what is left of three |
| `SeedList.SeedsAreSound` | api/v2/cassandracluster_types.go:327-387 | With valid names and nodes in every rack, all seeds of the cluster are different and each names a pod that exists |
| `SeedList.GetNodesPerRacks` | api/v2/cassandracluster_types.go:586-606 | The search over datacenters and racks finds the number of the first rack of that name, and stops at a datacenter without racks |
| `SeedList.NodesFoundAreOwn` | api/v2/cassandracluster_types.go:586-606 | With valid names it finds the number of the rack's own datacenter |
| `SeedNames.SeedNameIsExact` | api/v2/cassandracluster_types.go:383-387 | The name of a seed tells its datacenter, rack and ordinal |
| `SeedNames.RackNameIsExact` | api/v2/cassandracluster_types.go:270-278 | The joined name of a rack tells datacenter and rack |
| `SeedUpdate.MergeSlice` | pkg/k8s/util.go:105-122 | The two loops give the merged list of the specification |
| `SeedUpdate.MergedIsWanted` | pkg/k8s/util.go:103-122 | The merged list has exactly the wanted elements: the old ones in their order, then the new ones in theirs; and repeats nothing if neither list does |
| `SeedUpdate.MergedAlready` | pkg/k8s/util.go:103-122 | A list that has the wanted elements stays as it is |
| `SeedUpdate.SplitOfJoin` | controllers/cassandracluster/statefulset.go:317-327 | A list of names without commas is read back from the stored string if and only if it is not empty |
| `SeedUpdate.GetStoredSeedList` | controllers/cassandracluster/statefulset.go:308-328 | The list read is that of the first seeds variable of the first bootstrap container, or empty if there is none |
| `SeedUpdate.RackStatus.UpdateStatusIfSeedListHasChanged` | controllers/cassandracluster/cassandra_status.go:284-316 | A change is asked for if and only if the list now in the status differs from the stored one, and then the action starts over; that list is the merged one where a difference was reported, which is a parameter |
| `SeedUpdate.SeedsStay` | controllers/cassandracluster/cassandra_status.go:284-319 | Without a reported difference, or with seeds set by hand, no run of looks changes the seeds of the status |
| `SeedUpdate.UpdateSettles` | controllers/cassandracluster/cassandra_status.go:284-316 | The first list stored after a difference was seen is the merged one, and nothing changes from then on |
| `SeedUpdate.RestLasts` | controllers/cassandracluster/cassandra_status.go:284-316 | Once the list is stored no later look asks for a change |
| `SeedUpdate.EmptyListNeverRests` | controllers/cassandracluster/statefulset.go:317-327 | An empty list is stored as one empty name, so a change is asked for ever |
| `SeedUpdate.SeedsSettle` | controllers/cassandracluster/cassandra_status.go:284-316 | For a cluster with nodes, any run of looks that stores its list once ends with the seeds of the cluster, each once, the old ones in their order |
| `BackupScheduler.Perform` | controllers/cassandrabackup/scheduler.go:28-64 | Over any history of requests, refused schedules included, the scheduler is the plain map from backup to schedule and task, and its table and the live cron jobs belong to each other one to one |
| `BackupScheduler.Scheduler.AddOrUpdate` | controllers/cassandrabackup/scheduler.go:34-57 | A request is skipped if and only if the schedule is the same; a refused schedule leaves the backup without a job |
| `BackupScheduler.Scheduler.Remove` | controllers/cassandrabackup/scheduler.go:59-64 | The backup and its job are gone, all others stay |
| `BackupScheduler.AsManyJobs` | controllers/cassandrabackup/scheduler.go:14-21 | There are as many live jobs as backups in the table |
| `BackupScheduler.PlannedAlone` | controllers/cassandrabackup/scheduler.go:28-64 | A backup is planned as if it were alone: requests for others do not matter to it |
| `BackupScheduler.LastRequestDecides` | controllers/cassandrabackup/scheduler.go:34-64 | A backup is planned with the schedule last asked for, unless that was refused or it was removed; and it runs what was last asked for if and only if the request was not skipped, or asked for what was planned already |
| `BackupScheduler.OldTaskStays` | controllers/cassandrabackup/scheduler.go:39-41 | A request with the same schedule and another task is skipped, and the old task stays |

## Left out

- Lz77Matcher.Matcher.Tally: while tokens are found, whether a block ends is left open; `TokenBuffer.Buffer.Tally` decides it when they are sent.
- DeflateEncoder.EndBlock: the bytes of a stored block are taken from the text, which the window shows by the invariant of the matcher.
- DeflateEncoder.EncodeTokens: matching and sending are not interleaved; tokens are found first, and then sent.
- OutputQueue.Deflate: that every call of the encoder puts at least a byte is taken as given; it works until a buffer of 8192 bytes is full or the final block is padded.
- Lz77Matcher.Matcher.SearchChain: the two cached bytes at the end of the best match are compared directly.
- HuffmanTree.TreeBuilder.BuildTree: each tree has arrays of its own; the source shares heap, depths and counts between the trees of a block, which each build sets up afresh.
- ScaleDownReconciler.RackReconciler.ReconcileRack: the Initializing phase, scale-up, and changes of configuration, image, seeds or storage during a scale-down.
- ScaleDownRuns.StuckExactly: the write of the status at the end counts as possible also where the source skips it, because a failed write on the way has already put the status into memory and nothing changes afterwards (`cassandra_status.go:50-64`).
- ScaleDownRuns.DoomsExactly: as for StuckExactly.
- Rollout.Reconciler.ReconcileRack: racks that are new, being deleted, or whose StatefulSet does not exist; pod operations other than waiting for joining nodes.
- StorageUpsize.Upsizer.EnsureAllClaims: capacities are integers; the source compares quantities with != here (`pvc.go:93`), so that two ways to write one capacity differ, and by value elsewhere.
- StorageUpsize.Upsizer.Reconcile: the last-applied annotation, and a claim template without a map of requests.
- SeedUpdate.RackStatus.UpdateStatusIfSeedListHasChanged: the waiting of all racks for each other in the Configuring status, which writing a StatefulSet does not respect.
- Pod operations other than decommission (cleanup, rebuild, remove, upgradesstables): single calls with retries.
- UnlockNextOperation, the deletion of datacenters and the abort of an initialization: they bypass the guards the run properties rest on.
- CheckTopologyChanges and hasChange: they rest on a library for differences that is not part of this model.
- Clients of Kubernetes, Jolokia and the sidecar, metrics, logging, generation of pod specifications, backups and restores apart from their schedule, multi-cluster support: plumbing and object construction.
- The rest of the website, charts and configuration: no logic.
