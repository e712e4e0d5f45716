# Verified models of MNN

This project models, in Dafny, the parts of MNN that are hardest to get right, and proves what they are for.
Nothing here was executed: every statement is a theorem about the model.

**Operator fusion** (`Commands`, `DominatorTree`, `FuseRegions`, `OpGraph`, `FusedKernel`, `KernelBuilder`,
`Fusion`, `FusionTies`, `TiedOrders`). A command list becomes a dataflow graph, a post-dominator tree is built in
one backward sweep, fuse sets grow down that tree, each set becomes one straight-line kernel in the slot of its
root, and the other members are erased. The main theorem is `Fusion.OpFuse`: the search finds every set there is to
find (`FuseRegions.AllFound`, said of the graph and the tree alone), and running the rewritten list gives every
tensor that is still written the value it had. The commands are single-output, element-wise where fused,
and write every tensor once. One command per info makes `topoIndex` strict, which is enough but more than is
needed: with no empty tensor and a scalar that no literal has, a rewriting preserves the meaning exactly when
every kernel computes a tensor before it reads it (`FusionTies.PreservesIff`), and every order that sorting may
give does so exactly when no producer and consumer in one set tie (`TiedOrders.AlwaysPreservesIff`).
`TiedOrders.TiedProgramFails` is a list of four commands with a tie: a legal fuse set for it is sorted as the
search lists it, and the rewritten list is wrong.

**The lazy expression engine** (`ExprGraph`, `Links`, `Caches`, `Reshaping`, `Waits`, `Pipelines`, `Growth`,
`CacheWalk`, `CacheReach`, `ComputeWalk`, `Invalidation`, `Closure`, `Engine`, `Scripts`, `SharedCaches`). Expressions, leaf
contents and compute caches with their sessions; `_makeCache`, `compute`, both kinds of `resize`, `requireInfo`,
`informDirty`, `setInfoDirty`, reads and writes. The main theorem is `Scripts.RunScript`: in every interleaving of
creating, writing, resizing leaves, preparing, computing and reading, a read returns the plain recursive
evaluation on the current leaf contents, and it fails exactly when a leaf that it waits for (`Waits.Awaits`) is
unwritten. What a read waits for is known from the graph, from which expressions were prepared together and from
which leaves were resized since. When expressions are prepared one at a time it is the INPUT leaves below the
variable (`Scripts.SingleReads`). A shared cache survives the resize of a leaf that only one of its expressions
depends on, and the read of the other then waits for that leaf (`SharedCaches.ResizeBlocks`). The idea that a
dirty cache always makes its consumers dirty holds in every run that prepares one expression at a time and is
false of the code once two expressions share a cache (`SharedCaches.BreakClosure`, a run from an empty engine);
`Closure.WriteKeepsClosedIff` says exactly when a write keeps it. The values do not depend on it: a clean cache is
never stale (`Caches.Coherent`) in any run. The engine is lazy in both directions: computing a cache runs exactly
the sessions that it reaches through dirty caches, and resizing it exactly those that it reaches through shape-dirty
ones, each after its inputs, and everything else stays as it was (`ComputeWalk.Computed`, `CacheReach.Exactly`).

**Shape inference** (`ShapeInference`, `ShapeWalk`, `ShapeEngine`, `ShapeScripts`). `requireInfo` with its
cached results and the invalidation walk of `resize`, which stops early. `ShapeScripts.RunShapes`: every
answer is that of plain inference on the current leaf shapes, also after resizes of ops that compute the new shape
from clean inputs. The test that should refuse to resize a variable "not from input" lets every ordinary op
through, because ops are given the type INPUT when they are created (express/Expr.cpp:208-218,
express/Expr.cpp:749-752). `ShapeScripts.OpResizeBreaks` shows what then goes wrong, and
`ShapeWalk.ResizeKeepsIff` when nothing does.

**Saving and loading graphs** (`ExecuteOrder`, `SaveLoad`). The execution order, the index assignment of a
saved net, and the graph that `load` rebuilds from it, with the same meaning. The search with its explicit stack
gives the order of the recursive depth-first visit (`ExecuteOrder.DepthFirst`).

**Image encoders** (`Bits`, `Inflate`, `Tokens`, `Parses`, `Zlib`, `AdlerSum`, `Compressor`, `Png`, `JpegBits`,
`JpegDecode`, `JpegSpells`, `JpegCode`, `JpegEncoder`, `Streams`, `Radiance`, `Tga`). Each decoder is written from its
standard (RFC 1950, RFC 1951, RFC 2083, ITU-T T.81, the TGA and Radiance formats), and each encoder is proved
against it: `Compressor.Compress`, `Png.WriteImageData`, `JpegEncoder.EncodeScan`, `Radiance.WriteRow` and
`Tga.WriteImage` are round trips for all inputs. A round trip leaves the encoder its choices, so these are pinned
too: the output is that of the one parse in which every match, packet or filter is the one the source chooses
(`Compressor.OutputUnique`, `Png.FilteredUnique`, `Tga.ImageUnique`), and the bits of a JPEG scan are those that the
standard prescribes.

**Buffers** (`SampleRange`, `RingBuffer`, `Resample`, `PoolBlocks`, `Pool`). The scanline ring buffer of the
image resizer with both vertical passes, in exact real arithmetic, and RapidJSON's pool allocator.

`dafny verify dfyconfig.toml` checks the whole project. Objects that the original updates in place are classes
(`OpGraph.Graph`, `KernelBuilder.VarScope`, `Engine.Engine`, `ShapeEngine.ShapeEngine`, `Zlib.BitWriter`,
`JpegBits.JpegWriter`, `RingBuffer.Ring`, `Pool.MemoryPool`); their methods are proved against functions and
predicates on values, and the theorems are about those.

## Model

| member | source | states |
|---|---|---|
| `Commands.RunKeeps` | codegen/OpFuse.cpp:428-449 | Running commands leaves every tensor alone that none of them writes |
| `Commands.RunSettles` | codegen/OpFuse.cpp:428-449 | With tensors written once, the value a command computes at its turn is the one in the final state |
| `DominatorTree.AncestorsPostDominate` | codegen/OpFuse.cpp:464-483 | In a tree that takes common ancestors of successors, every ancestor of a node lies on every path from it to a sink |
| `DominatorTree.PostDominatorsAreAncestors` | codegen/OpFuse.cpp:464-483 | With nearest common ancestors, every post-dominator of a node is an ancestor |
| `DominatorTree.ImmediatePostDominator` | codegen/OpFuse.cpp:464-483 | The parent is the nearest post-dominator, and there is no parent exactly when there is no proper post-dominator |
| `OpGraph.Graph.constructor` | codegen/OpFuse.cpp:418-449 | The graph has an edge for every use of an output by a later command, in both directions |
| `OpGraph.Graph.LinkInputs` | codegen/OpFuse.cpp:421-427 | Linking the inputs of one command adds exactly its edges |
| `OpGraph.Graph.LCA` | codegen/OpFuse.cpp:240-252 | The result is where the two-pointer climb ends, ties included: a common ancestor of both nodes or null; with strict indices its ancestors are all the common ones, so it is the nearest |
| `OpGraph.Graph.CommonAncestor` | codegen/OpFuse.cpp:469-472 | Folding LCA over the successors gives a common ancestor of all of them, the nearest with strict indices, and with ties where the climbs end |
| `OpGraph.Graph.BuildDominateTree` | codegen/OpFuse.cpp:464-483 | The sweep leaves a dominator tree in which every parent is where the climbs from the successors meet, with matching child lists, and queues exactly the nodes without a parent, once each |
| `DominatorTree.ClimbedStep` | codegen/OpFuse.cpp:464-483 | Setting the parent of one node leaves the meeting places of all later nodes as they were, so the finished tree has them all |
| `OpGraph.Graph.AllPathLegal` | codegen/OpFuse.cpp:253-271 | True exactly when every node on a path from `s` that stops at `t` is legal |
| `OpGraph.Graph.FuseNode` | codegen/OpFuse.cpp:272-305 | The set holds exactly the legal region under the root, root last, no node twice, and the edges are exactly the children where it stops |
| `OpGraph.Graph.FindFuseSets` | codegen/OpFuse.cpp:484-504 | All sets are legal regions with more than one node, no node is in two sets, and they are all there are: a set ends in a node exactly when the search comes to the node (it has no parent, or is a child of an illegal root or an edge of a legal one), it is legal and its region has another member |
| `OpGraph.SearchStep` | codegen/OpFuse.cpp:486-504 | Following one root to its edges or children keeps: roots in the queue and followed ones are exactly what has been come to, and each followed root that deserves a set has it |
| `OpGraph.RootsDone` | codegen/OpFuse.cpp:486-504 | When the queue is empty every node that the search can come to has been followed |
| `OpGraph.SetDeserved` | codegen/OpFuse.cpp:494-498 | The set of a root has more than one node exactly when the region of the root has another member |
| `FuseRegions.MemberIff` | codegen/OpFuse.cpp:293-302 | A node is a member exactly when its parent is and the node with all its paths to the root is legal |
| `FuseRegions.MemberClosed` | codegen/OpFuse.cpp:253-305 | Every successor of a member other than the root is a member |
| `FuseRegions.MemberFeeds` | codegen/OpFuse.cpp:253-305 | Every member other than the root feeds another member |
| `FuseRegions.ApartSubtrees` | codegen/OpFuse.cpp:484-504 | Regions of nodes that are not under one another share no node |
| `FusedKernel.EmitAllSound` | codegen/SourceModule.cpp:109-141 | Whatever the order, running the emitted instructions gives every variable the value its tensor has when the commands run in that order |
| `FusedKernel.InScope` | codegen/SourceModule.cpp:112-137 | The scope holds exactly the tensors that the commands read or write |
| `FusedKernel.InputsAreExternal` | codegen/SourceModule.cpp:116-134 | A kernel input is read before any command of the set has written it |
| `KernelBuilder.SortByTopo` | codegen/SourceModule.cpp:93-93 | The result holds the same nodes, ordered by `topoIndex` |
| `KernelBuilder.VarScope.ComputeOutput` | codegen/SourceModule.cpp:51-58 | The outputs are exactly the variables that were never used |
| `KernelBuilder.BuildKernel` | codegen/SourceModule.cpp:91-162 | The kernel built through the scope object is the one the specification functions give for a sorted order of the set |
| `Fusion.SingleStore` | codegen/SourceModule.cpp:142-146 | For a fuse set, the only tensor that is not used inside is the output of the root, so the kernel stores exactly that |
| `Fusion.KernelComputes` | codegen/SourceModule.cpp:109-146 | Run on the state before the root, the kernel stores what the root would have computed |
| `Fusion.StepAgrees` | codegen/OpFuse.cpp:381-393 | One step of the rewritten list keeps the two runs in agreement on all tensors except those that lost their writer |
| `Fusion.KeepsPace` | codegen/OpFuse.cpp:395-403 | The run of the surviving commands keeps pace with the original run, command by command |
| `Fusion.FusionPreservesMeaning` | codegen/OpFuse.cpp:381-403 | After both runs, every tensor except the inner ones of a fuse set has the same value |
| `Fusion.GoneIsUnwritten` | codegen/OpFuse.cpp:381-403 | The tensors that may differ are exactly those that no surviving command writes although a command did before |
| `Fusion.ReplaceSet` | codegen/OpFuse.cpp:381-392 | The kernel takes the slot of the last node of the set, the other members are erased, all other commands stay |
| `Fusion.Codegen` | codegen/OpFuse.cpp:307-415 | The rewritten list preserves the meaning of the program whenever the kernels compute tensors before they read them, which is so whenever no producer and consumer in a set have the same `topoIndex` |
| `Fusion.OpFuse` | codegen/OpFuse.cpp:417-504 | For every well-formed command list the pass finds the legal sets, all of them and no others, in the tree that the climbs give, and yields one of the rewritings that sorting allows; it preserves the meaning when no set has a tie, so always with strict indices |
| `FusionTies.DisorderLoses` | codegen/SourceModule.cpp:93-146 | A kernel that reads a tensor before computing it loads one that nothing writes any more, and a surviving tensor gets another value |
| `FusionTies.PreservesIff` | codegen/OpFuse.cpp:307-415 | With no empty tensor and a scalar that no literal has, a rewriting preserves the meaning exactly when all its kernels compute tensors before reading them |
| `TiedOrders.TieLosesTensor` | codegen/SourceModule.cpp:93-93 | When a producer and its consumer in one fuse set tie, some sorted order gives a rewriting that does not preserve the meaning |
| `TiedOrders.AlwaysPreservesIff` | codegen/SourceModule.cpp:93-93 | Under the same conditions every order that the sort may return preserves the meaning exactly when no set has a tie |
| `TiedOrders.TiedProgramFails` | codegen/OpFuse.cpp:272-305 | Four commands with indices 0, 0, 1, 2: the tree is the one the sweep builds, the set 1, 0, 2, 3 is the one that the search finds, it is sorted as it is, and its rewriting does not preserve the meaning |
| `ExprGraph.EvalUnaffected` | express/Expr.cpp:861-889 | Writing a leaf changes the value of no expression that does not depend on it |
| `ExprGraph.EvalExtend` | express/Expr.cpp:204-226 | Creating expressions changes the value of none that exist |
| `Links.AddLinks` | express/Expr.cpp:126-146 | The new expression is added to the consumers of exactly its inputs |
| `Links.LinksGrow` | express/Expr.cpp:126-146 | Consumer lists stay exact when an expression is added |
| `Caches.RefRight` | express/Executor.cpp:552-571 | Every input of a pipeline entry that is still needed finds the value of its variable, in a leaf, a clean cache or an earlier entry |
| `Caches.EntryRuns` | express/Executor.cpp:524-572 | Running an entry makes its tensors right if anything in the cache needs them, and leaves those of earlier entries right |
| `Caches.RunKeeps` | express/Utils.cpp:281-293 | A session that has run with clean inputs may be marked clean |
| `Caches.WriteKeeps` | express/Expr.cpp:924-933 | Marking the caches of all consumers of a written leaf keeps every clean cache right |
| `Reshaping.ReshapeKeeps` | express/Expr.cpp:777-781 | When all dependents of a resized leaf leave their caches, every clean cache stays right for the expressions that remain in it |
| `Reshaping.InformKeeps` | express/Expr.cpp:308-364 | Inferring the shape of an expression and of all that it depends on keeps all invariants |
| `Waits.PreparedAwaits` | express/Executor.cpp:585-603 | Getting a cache of its own does not change which leaves a read of an expression waits for |
| `Pipelines.Scan` | express/Executor.cpp:493-519 | Returns an uncached input that is not scheduled and lies lower in the graph, or notes every cache and INPUT leaf that the expression reads |
| `Pipelines.Schedule` | express/Executor.cpp:523-572 | The new entry reads leaves, older caches and earlier entries only, and a root gets the offset of its newest entry |
| `Pipelines.TurnDecreases` | express/Executor.cpp:491-573 | Each turn of the search visits an expression, drops a visited one, or goes down the graph, so it ends although duplicates are scheduled again |
| `Pipelines.BuildPipeline` | express/Executor.cpp:467-573 | The search ends with a sound pipeline: inputs first, every root with its offset, and no ops, caches and INPUT leaves but those that the roots reach through ops without a cache |
| `Pipelines.PipelineWaits` | express/Executor.cpp:497-519 | The INPUT leaves and caches that the search collects are exactly those that make a root wait: nothing is missed and nothing is superfluous |
| `Growth.AddKeeps` | express/Expr.cpp:204-226 | Adding an expression keeps all invariants of the engine |
| `Growth.CacheKeeps` | express/Executor.cpp:585-603 | Installing a new cache as the home of its roots keeps all invariants |
| `Growth.MadeIsPrepared` | express/Executor.cpp:467-604 | A caller sees one new cache shared by all roots, which waits for a leaf exactly when one of the roots did |
| `CacheWalk.ExpandOnce` | express/Utils.cpp:277-281 | When an expanded cache is on top of the stack again, all its inputs are finished: nothing is expanded twice |
| `CacheWalk.CheckReady` | express/Utils.cpp:241-255 | True exactly when no cache below has an INPUT leaf that was never written |
| `CacheWalk.BlockedIff` | express/Utils.cpp:241-255 | A cache is blocked exactly when a leaf that it waits for is unwritten |
| `ComputeWalk.ResizeKeeps` | express/Utils.cpp:297-303 | Resizing keeps the invariants and changes no content flag, because shape-dirty implies content-dirty |
| `ComputeWalk.RunDone` | express/Utils.cpp:281-294 | A session runs only when it is dirty and all its inputs are finished, and is never listed twice |
| `ComputeWalk.RunEnd` | express/Utils.cpp:256-296 | When the stack is empty, exactly the dirty caches that the computed one reaches through dirty caches have run, each after its inputs, and every other cache is as it was |
| `ComputeWalk.RunResize` | express/Utils.cpp:265-271 | Resizing the top of the stack on the way touches only what the walk is for |
| `ComputeWalk.ResizeEnd` | express/Utils.cpp:304-342 | When the stack is empty, exactly the shape-dirty caches that the given one reaches through shape-dirty ones have been resized |
| `CacheReach.DoneExactly` | express/Utils.cpp:256-342 | A log in which everything done is needed, was dirty and came after its dirty inputs, and which holds the cache itself, holds exactly what is needed |
| `ComputeWalk.ReachedWritten` | express/Utils.cpp:241-255 | If the check passes, every INPUT leaf that an expression living in the cache depends on has been written |
| `Invalidation.VisitsAllConsumers` | express/Expr.cpp:952-989 | The walk adds exactly the transitive consumers of the leaf, whether it stops at visited expressions (`informDirty`) or at those without a shape (`setInfoDirty`) |
| `Engine.Engine.CreateLeaf` | express/Expr.cpp:157-203 | A new leaf with its content; all invariants hold |
| `Engine.Engine.CreateOp` | express/Expr.cpp:204-226 | A new op linked to its inputs; all invariants hold |
| `Engine.Engine.VisitOutputs` | express/Expr.cpp:952-974 | Afterwards the callback has had its effect on all visited expressions, and all consumers have been visited |
| `Engine.Engine.Write` | express/Expr.cpp:924-935 | Refused for an op; otherwise the content is replaced, the caches of exactly the dependents become dirty, and no clean cache is stale |
| `Engine.Engine.Reshape` | express/Expr.cpp:748-782 | The leaf has new memory and is unwritten, exactly its dependents lose their shapes and leave their caches, and all invariants hold |
| `Engine.Engine.RequireInfo` | express/Expr.cpp:308-364 | Exactly the expression and what it depends on get their shapes; all invariants hold |
| `Engine.Engine.MakeCache` | express/Executor.cpp:467-604 | Leaves are skipped; one new cache becomes the home of exactly the given ops, which then wait for whatever one of them waited for, and the others stay as they were |
| `Engine.Engine.Resize` | express/Utils.cpp:304-342 | Ends on every acyclic cache graph; exactly the caches that the given one reaches through shape-dirty caches are resized, each once and after those of its inputs that were shape-dirty, and nothing else changes |
| `Engine.Engine.RunSession` | express/Utils.cpp:281-293 | The ops of the pipeline in order, with only the memory of this cache changed; exactly this cache becomes clean |
| `Engine.Engine.Compute` | express/Utils.cpp:229-296 | Fails exactly when an INPUT leaf below is unwritten, and then changes nothing; otherwise exactly the sessions that the cache reaches through dirty caches run, each once and after its inputs, and every other cache is unchanged |
| `Engine.Engine.Prepare` | express/Expr.cpp:890-910 | All given ops without a cache share a new one and nothing else gets one; the caches that were there stay as they were, and with one variable the closure of dirtiness is kept |
| `Engine.Engine.ComputeVars` | express/Expr.cpp:912-922 | To a caller the same as preparing; each variable in turn is computed as by `Compute`, whatever fails, so nothing runs that none of them needs |
| `Engine.Engine.Read` | express/Expr.cpp:797-858 | There is a value exactly when nothing that the read waits for is unwritten; it is the plain evaluation on current contents with all INPUT leaves below written; only what the cache of the variable needs runs, and all other caches stay as they were |
| `Scripts.RunScript` | express/Expr.cpp:748-935 | Over every run from an empty engine, with leaves resized at any point, each read agrees with plain evaluation and fails exactly when a leaf that it waits for is unwritten; all states meet the invariants, and in runs that prepare one expression at a time dirty caches have no clean consumers |
| `Scripts.SingleReads` | express/Expr.cpp:845-852 | In a run that prepares one expression at a time a read fails exactly when an INPUT leaf below the variable is unwritten |
| `SharedCaches.ResizeBlocks` | express/Expr.cpp:777-781 | Two ops share a cache and the leaf of one is resized: the other keeps the cache, and its read fails until that leaf is written again although all its own leaves are written |
| `SharedCaches.BreakClosure` | express/Expr.cpp:861-889 | A run from an empty engine in which two ops are prepared together: a write makes their cache dirty but not its consumer, which rightly stays clean |
| `Closure.ComputeKeepsClosed` | express/Utils.cpp:256-296 | Computing keeps the property that a dirty cache has no clean consumer that anything lives in |
| `Closure.NewCacheKeepsClosed` | express/Executor.cpp:585-603 | So does making a cache |
| `Closure.WriteKeepsClosedIff` | express/Expr.cpp:861-889 | A write keeps it exactly when every clean cache that reads a cache depending on the leaf depends on the leaf itself |
| `Closure.SingleRootsInherit` | express/Expr.cpp:845-848 | That is the case for every leaf when each cache was made for one expression and reads only what that needs |
| `Closure.CacheKeepsTidy` | express/Executor.cpp:585-603 | A cache made for one expression keeps these properties |
| `Closure.ReshapeKeepsTidy` | express/Expr.cpp:777-781 | So does resizing a leaf: whoever needs an expression that leaves its cache leaves its own |
| `ShapeInference.CleanIsInferred` | express/Expr.cpp:308-311 | An info-clean expression stores exactly the inferred shapes |
| `ShapeInference.InvalidFails` | express/Expr.cpp:312-314 | Inference fails for every expression that is marked invalid |
| `ShapeInference.AddKeeps` | express/Expr.cpp:204-226 | Adding an expression keeps the invariant of the flags |
| `ShapeWalk.WalkedThrough` | express/Expr.cpp:952-974 | Going on from a marked consumer keeps the property that consumers of marked expressions are marked |
| `ShapeWalk.ResizeKeepsIff` | express/Expr.cpp:748-782 | A resize keeps the invariant exactly when it is of a leaf, or of an op that computes the new shape from clean inputs |
| `ShapeWalk.DependentsDirty` | express/Expr.cpp:975-989 | When the consumers of an expression are dirty, everything that depends on it is |
| `ShapeWalk.PrunedIsFull` | express/Expr.cpp:777-781 | After resizing a leaf exactly its transitive consumers have become dirty, however early the walk stopped |
| `ShapeEngine.ShapeEngine.ComputeInfo` | express/Expr.cpp:353-364 | Stores the shapes and cleans the expression, or marks it invalid; the invariant holds |
| `ShapeEngine.ShapeEngine.RequireInfo` | express/Expr.cpp:308-364 | Succeeds exactly when plain inference does, with its result stored; only dirty, valid expressions up to this one change |
| `ShapeEngine.ShapeEngine.SetInfoDirty` | express/Expr.cpp:975-989 | Returns whether the expression was anything but dirty and valid, which it is afterwards |
| `ShapeEngine.ShapeEngine.VisitOutputs` | express/Expr.cpp:952-974 | All consumers, and all consumers of whatever was marked on the way, are dirty and valid; nothing else changed |
| `ShapeEngine.ShapeEngine.ResizeVar` | express/Expr.cpp:748-782 | For a leaf: the new shape, exactly the consumers dirty, the invariant kept; for an op the invariant holds exactly under the condition of `ResizeKeepsIff` |
| `ShapeScripts.RunShapes` | express/Expr.cpp:308-364 | Over every run of creating, resizing and asking, each answer is exactly that of plain inference; an op is resized when it computes the new shape from clean inputs |
| `ShapeScripts.OpResizeBreaks` | express/Expr.cpp:749-752 | Resizing the output of an op leaves it clean with a shape that inference does not give |
| `ExecuteOrder.Turn` | express/Expr.cpp:1371-1392 | One turn of the search keeps its invariant, makes progress, and leaves the depth-first visits that the stack stands for the same |
| `ExecuteOrder.VisitAhead` | express/Expr.cpp:1378-1388 | Visiting the first unvisited input ahead of an expression does not change the outcome of visiting the expression |
| `ExecuteOrder.OrderClosed` | express/Expr.cpp:1371-1392 | An order with inputs first holds everything that its members depend on |
| `ExecuteOrder.GetExecuteOrder` | express/Expr.cpp:1350-1397 | Exactly the expressions behind the outputs, each once, inputs first, in the order of the recursive depth-first visit with constants in front, and all visited flags clear again |
| `SaveLoad.AssignOffsets` | express/Expr.cpp:1145-1156 | Each expression gets the sum of the output counts before it |
| `SaveLoad.Save` | express/Expr.cpp:1145-1238 | Each saved op has the payload of its expression, the indices of its inputs and its own output indices |
| `SaveLoad.IndicesPartition` | express/Expr.cpp:1231-1236 | Output indices are exactly the numbers below the tensor count, each of exactly one op |
| `SaveLoad.Load` | express/Expr.cpp:1034-1074 | The loop over saved ops computes the specification function, also for nets with unknown input indices |
| `SaveLoad.RoundTrip` | express/Expr.cpp:1034-1074 | Loading a saved net misses no variable, rebuilds every expression with its inputs renamed, restores constants and lists the variables by index |
| `SaveLoad.MeaningKept` | express/Expr.cpp:1034-1074 | With leaf contents carried over, every rebuilt variable evaluates as the original |
| `SaveLoad.SaveAndLoad` | express/Expr.cpp:1145-1238 | The whole chain from any outputs of any graph: depth-first order, saved net, and rebuilt graph |
| `Zlib.BitWriter.Add` | 3rd_party/imageHelper/stb_image_write.h:847-849 | The bits of the code, least significant first, are appended to the stream; fewer than eight stay pending |
| `Zlib.BitWriter.AddSymbol` | 3rd_party/imageHelper/stb_image_write.h:850-857 | Appends the fixed Huffman code of the symbol, most significant bit first |
| `Zlib.BitWriter.Pad` | 3rd_party/imageHelper/stb_image_write.h:944-946 | Appends fewer than eight zero bits up to a byte boundary |
| `Zlib.Reverse` | 3rd_party/imageHelper/stb_image_write.h:817-825 | The low bits of the code in reverse order |
| `Tokens.FixedInverts` | 3rd_party/imageHelper/stb_image_write.h:851-857 | The decoder of RFC 1951 reads back every literal, length and distance code with its extra bits |
| `Tokens.MatchExpands` | 3rd_party/imageHelper/stb_image_write.h:925-934 | Copying a match that repeats earlier data, overlapping or not, yields the next bytes of the data |
| `Tokens.SpellsToken` | 3rd_party/imageHelper/stb_image_write.h:925-938 | Wherever the bits of a token occur, decoding them appends what the token stands for |
| `Compressor.CountMatch` | 3rd_party/imageHelper/stb_image_write.h:827-833 | The length of the longest common prefix, at most 258 |
| `Compressor.FindMatch` | 3rd_party/imageHelper/stb_image_write.h:895-901 | The newest of the longest matches of at least three bytes in the window, or none when there is none |
| `Compressor.BetterNext` | 3rd_party/imageHelper/stb_image_write.h:909-923 | True exactly when some stored position matches longer at the next byte |
| `Compressor.Lookup` | 3rd_party/imageHelper/stb_image_write.h:892-907 | The longest stored match of at least three bytes in the window, or none; then the position is entered in its list, which is halved when full |
| `Compressor.Choose` | 3rd_party/imageHelper/stb_image_write.h:892-923 | That match, unless the next byte has a longer one: then a literal comes first |
| `Compressor.WriteMatch` | 3rd_party/imageHelper/stb_image_write.h:925-934 | Writes the codes and extra bits of the length and the distance, whose rows are those that cover them |
| `Compressor.Compress` | 3rd_party/imageHelper/stb_image_write.h:863-973 | For every byte string and quality the decompressor returns exactly the input, and the output is the block of the parse in which each token is what the choice at its place comes to, padded with zero bits, with the checksum behind it |
| `Compressor.MatchIsToken` | 3rd_party/imageHelper/stb_image_write.h:925-934 | The match that was chosen is the right token at its place and leads to the place behind it |
| `Compressor.TokenUnique` | 3rd_party/imageHelper/stb_image_write.h:890-938 | At each place exactly one token is right, with one pair of codes |
| `Compressor.ParseSpells` | 3rd_party/imageHelper/stb_image_write.h:890-938 | Decoding the bits of a parse gives back the data that it covers |
| `Compressor.OutputUnique` | 3rd_party/imageHelper/stb_image_write.h:863-973 | The data and the quality fix every byte of the output |
| `Parses.ParseUnique` | 3rd_party/imageHelper/stb_image_write.h:890-938 | Where at most one token is right at each place and none at the end, there is one complete parse |
| `AdlerSum.NoWrap` | 3rd_party/imageHelper/stb_image_write.h:952-962 | Within a block of at most 5552 bytes neither sum exceeds 2^32 - 1 |
| `AdlerSum.Checksum` | 3rd_party/imageHelper/stb_image_write.h:952-967 | The blocked sums equal the byte-at-a-time definition of section 8.2 of RFC 1950, for every length |
| `Png.EncodeLine` | 3rd_party/imageHelper/stb_image_write.h:1043-1077 | The line is the row filtered with the written type, also on the first row where the internal type differs |
| `Png.FilterRoundTrip` | 3rd_party/imageHelper/stb_image_write.h:1043-1077 | Reconstruction by section 6 of RFC 2083 recovers the row |
| `Png.FetchRows` | 3rd_party/imageHelper/stb_image_write.h:1050-1051 | The row and the one above it, for any stride, also a negative one, and either flip setting |
| `Png.BestFilter` | 3rd_party/imageHelper/stb_image_write.h:1102-1121 | The first filter with the smallest estimate |
| `Png.FilterRow` | 3rd_party/imageHelper/stb_image_write.h:1097-1125 | The forced filter, or the best one, correctly applied |
| `Png.WriteImageData` | 3rd_party/imageHelper/stb_image_write.h:1079-1128 | Decompressing the IDAT payload gives the filtered image: reconstruction yields the image, each filter byte is the forced one or the first with the smallest estimate, and the compressed bytes are those of `Compress` |
| `Png.LineUnique` | 3rd_party/imageHelper/stb_image_write.h:1043-1077 | Two lines of one filter that reconstruct to the same row are the same |
| `Png.FilteredUnique` | 3rd_party/imageHelper/stb_image_write.h:1097-1125 | The image and the settings fix every byte of the filtered form |
| `JpegBits.PutCode` | 3rd_party/imageHelper/stb_image_write.h:1204-1207 | Or-ing a code into the 24-bit window appends it to the pending bits |
| `JpegBits.TakeByte` | 3rd_party/imageHelper/stb_image_write.h:1208-1215 | Taking the top byte and shifting leaves exactly the remaining pending bits |
| `JpegBits.StuffRoundTrip` | 3rd_party/imageHelper/stb_image_write.h:1209-1213 | Un-stuffing recovers the bytes up to the next marker |
| `JpegBits.JpegWriter.WriteBits` | 3rd_party/imageHelper/stb_image_write.h:1204-1219 | All bits written so far are those before plus the code, and fewer than eight stay pending |
| `JpegEncoder.CalcBits` | 3rd_party/imageHelper/stb_image_write.h:1269-1277 | The size is the bit length of the magnitude and the code its low bits, one less for a negative value, and EXTEND of them is the value |
| `JpegCode.MagnitudeBack` | 3rd_party/imageHelper/stb_image_write.h:1269-1277 | EXTEND takes the bits of a value back to it, and no other bits of that size |
| `JpegSpells.FindUnique` | 3rd_party/imageHelper/stb_image_write.h:1279-1281 | In a prefix-free table the code word at a position determines the symbol |
| `JpegEncoder.EncodeDiff` | 3rd_party/imageHelper/stb_image_write.h:1301-1310 | Writes the code word of the size and the bits of the DC difference, and decoding them yields the difference |
| `JpegEncoder.EncodeRun` | 3rd_party/imageHelper/stb_image_write.h:1320-1337 | Writes one ZRL for every sixteen zeros and then the rest of the run with the coefficient |
| `JpegCode.RunBack` | 3rd_party/imageHelper/stb_image_write.h:1320-1337 | Decoding yields the zeros of the run, of any length, and the coefficient |
| `JpegEncoder.EncodeAcs` | 3rd_party/imageHelper/stb_image_write.h:1311-1340 | Writes a run for each coefficient that is not zero, and EOB exactly when zeros are left over |
| `JpegCode.BlockAcsBack` | 3rd_party/imageHelper/stb_image_write.h:1311-1340 | Decoding that completes the block to all 64 coefficients |
| `JpegEncoder.EncodeBlock` | 3rd_party/imageHelper/stb_image_write.h:1301-1342 | Writes the bits of the difference and of the coefficients, and returns the next predictor |
| `JpegCode.BlockBack` | 3rd_party/imageHelper/stb_image_write.h:1301-1342 | Decoding yields the block, given the same predictor |
| `JpegCode.WholeScanBack` | 3rd_party/imageHelper/stb_image_write.h:1474-1505 | Decoding the bits of a scan, whatever follows them, yields its MCUs |
| `JpegEncoder.EncodeScan` | 3rd_party/imageHelper/stb_image_write.h:1467-1509 | For any prefix-free tables, the stuffed bytes hold exactly the bits that the standard prescribes and fewer than eight ones behind them, up to EOI; un-stuffing and decoding gives back every MCU |
| `Radiance.WritePlane` | 3rd_party/imageHelper/stb_image_write.h:689-724 | Dumps of at most 128 up to the first three equal bytes, runs of at most 127 over all that are equal, and so on; decoding them gives back the component |
| `Radiance.PlaneSpells` | 3rd_party/imageHelper/stb_image_write.h:689-724 | Decoding these dumps and runs from any point on gives the rest of the component |
| `Radiance.WriteRow` | 3rd_party/imageHelper/stb_image_write.h:639-726 | Decoding gives back all four components, for every width, coded or flat; coded rows are the header and the bytes of the components in turn |
| `Tga.ChoosePacket` | 3rd_party/imageHelper/stb_image_write.h:529-560 | A run ends at the first pixel that differs or after 128; a raw packet ends before a pixel that equals the one two places back, at the end of the row or after 128 |
| `Tga.WriteRow` | 3rd_party/imageHelper/stb_image_write.h:529-573 | The packets are those that belong at their places, one after the other, and expanding them gives back the row |
| `Tga.RowSpells` | 3rd_party/imageHelper/stb_image_write.h:529-573 | Expanding the packets of a row gives back the row |
| `Tga.PacketUnique` | 3rd_party/imageHelper/stb_image_write.h:529-560 | One packet belongs at each place |
| `Tga.ImageUnique` | 3rd_party/imageHelper/stb_image_write.h:502-578 | The rows fix every byte of the image data |
| `Tga.WriteImage` | 3rd_party/imageHelper/stb_image_write.h:502-578 | The rows, bottom up or flipped, each with its packets; expanding the file gives them back with samples in memory order |
| `SampleRange.UpWidth` | 3rd_party/imageHelper/stb_image_resize.h:1008-1020 | A window is never empty and always smaller than the ring buffer |
| `SampleRange.UpWindow` | 3rd_party/imageHelper/stb_image_resize.h:1008-1020 | A row is in the window exactly when its centre lies within the support of the centre of the output row |
| `SampleRange.UpMonotone` | 3rd_party/imageHelper/stb_image_resize.h:1008-1020 | Windows only move forward |
| `SampleRange.DownContiguous` | 3rd_party/imageHelper/stb_image_resize.h:1023-1035 | The range of an input row starts no later than right after the range of the row before |
| `SampleRange.DownRange` | 3rd_party/imageHelper/stb_image_resize.h:1023-1035 | An output row is in the range exactly when its centre lies within the support of the centre of the input row |
| `SampleRange.DownCovers` | 3rd_party/imageHelper/stb_image_resize.h:2161-2177 | With the whole image, the loop starts at or before row 0 and ends at or after the last row |
| `SampleRange.OutsideMisses` | 3rd_party/imageHelper/stb_image_resize.h:894-898 | No input row beyond the margin on either side reaches an output row of the image |
| `RingBuffer.Ring.Add` | 3rd_party/imageHelper/stb_image_resize.h:1416-1438 | The new scanline gets a slot of its own; all others keep their data |
| `RingBuffer.Ring.Get` | 3rd_party/imageHelper/stb_image_resize.h:1685-1689 | A scanline in the window is found in its slot |
| `RingBuffer.Ring.Pop` | 3rd_party/imageHelper/stb_image_resize.h:2080-2100 | Exactly the first scanline goes |
| `Resample.Upsample` | 3rd_party/imageHelper/stb_image_resize.h:2063-2114 | Every output row is blended from its own input rows, as if each had been decoded for it |
| `Resample.Flush` | 3rd_party/imageHelper/stb_image_resize.h:2116-2159 | Rows before the given one leave in order, and those in the image are encoded with their sums |
| `Resample.Contribute` | 3rd_party/imageHelper/stb_image_resize.h:1983-2061 | The input row is added once to each row in its range |
| `Resample.Downsample` | 3rd_party/imageHelper/stb_image_resize.h:2161-2200 | Every output row is encoded exactly once, in increasing order, with the contributions of all input rows that reach the image: those of any stretch that leaves none of them out |
| `Resample.AllRowsCount` | 3rd_party/imageHelper/stb_image_resize.h:2161-2200 | Two stretches that leave out no row that reaches the image give every output row the same sum |
| `PoolBlocks.BlockAdded` | 3rd_party/rapidjson/allocators.h:189-201 | The free part of the head chunk overlaps no live block |
| `PoolBlocks.BlockExtended` | 3rd_party/rapidjson/allocators.h:218-225 | Growing the last block in place reaches no other block |
| `PoolBlocks.SizeWithinCapacity` | 3rd_party/rapidjson/allocators.h:168-186 | The bytes in use never exceed the capacity |
| `Pool.MemoryPool.Malloc` | 3rd_party/rapidjson/allocators.h:189-201 | A new block apart from all live ones, aligned whenever the user's buffer is, and the next one of the head chunk, with a new chunk exactly when the head has no room; or nothing exactly when the size is zero or the base allocator is needed and fails |
| `Pool.MemoryPool.Realloc` | 3rd_party/rapidjson/allocators.h:204-235 | The first bytes of the block are kept wherever it ends up and no other block changes; it stays when it need not grow, grows in place exactly when it is the last one with room behind it, and otherwise moves to a new block, or stays untouched exactly when that is refused |
| `Pool.MemoryPool.Clear` | 3rd_party/rapidjson/allocators.h:158-166 | All chunks but the user's buffer go, which is empty again |
| `Pool.MemoryPool.Capacity` | 3rd_party/rapidjson/allocators.h:171-176 | The sum of the capacities of all chunks |
| `Pool.MemoryPool.Size` | 3rd_party/rapidjson/allocators.h:181-186 | The sum of what is in use in all chunks, at most the capacity |
| `Pool.MemoryPool.AddChunk` | 3rd_party/rapidjson/allocators.h:250-262 | The new chunk becomes the head, or nothing changes |

## Left out

- Fusion.OpFuse: assumes element-wise single-output commands and tensors written once; Raster commands, the CUDA legality of rasters, `mergeConvolutionAndPrelu`, `canVectorize` and kernel-name bookkeeping are not modelled, because the one-raster limit and flatbuffer packing break or hide the closure argument.
- Fusion.Codegen: target code is a list of load, constant, compute and store instructions; the text each target prints for them is opaque.
- Engine.Engine.Read: every shape can be inferred, every input position needs content and none needs it for its shape; requirements that differ between positions of one expression are not modelled, nor are errors of sessions and backends.
- Engine.Engine.Reshape: of leaves and to other dimensions; the same dimensions change nothing, and resizes of ops are in `ShapeEngine` only. An entry that nothing in a cache needs any more still runs, on whatever its leaf holds.
- Engine.Engine.MakeCache: roots have no cache and have their shapes, as its callers ensure (express/Expr.cpp:82-88, express/Expr.cpp:840-849, express/Expr.cpp:890-910): a second cache would leave the readers of the first behind. Destruction of expressions, `Expr::replace`, `Variable::replace` and `VARP::fix` (two expressions sharing one `Inside`) are not modelled.
- ShapeEngine.ShapeEngine.RequireInfo: assumes decomposable expressions, no null inputs and no shape that depends on content; caches and host memory released by `setInfoDirty` are not part of this model.
- SaveLoad.SaveAndLoad: op payloads, names, subgraphs, tensor descriptions, blob types and externally stored constants are opaque or absent; inputs are never null.
- ExecuteOrder.GetExecuteOrder: an output counts as constant when it is a constant leaf; constants that carry an op (external blobs) are not modelled.
- Compressor.Compress: the data length is not limited to an int and allocation never fails; the decompressor accepts one final block with fixed codes, which is all that is ever written.
- Png.WriteImageData: the IDAT payload only; chunk framing, CRC-32 and the other chunks are fixed plumbing. The image has at least one column, since with none the original reads and writes a first pixel of each row that does not exist.
- JpegEncoder.EncodeScan: holds for any prefix-free tables that cover the baseline symbols; the literal Huffman tables, the headers, colour conversion, DCT and quantisation (floating point) are not part of this model, and coefficients are assumed to be in the baseline range.
- Tga.WriteImage: the TGA header is not modelled.
- Radiance.WriteRow: starts from RGBE bytes; the conversion from floats and the file header are left out.
- Resample.Upsample: exact real arithmetic and abstract rows; horizontal passes, filter kernels, coefficient tables, edge modes and colour spaces are opaque functions.
- Resample.Downsample: the whole-image transform in exact arithmetic, with ranges of contributors inside the sample ranges; floating-point rounding is not modelled.
- Pool.MemoryPool.Malloc: sizes are unbounded naturals, so wrap-around of `size_t` is not modelled; chunk headers are fields of the model, not bytes in memory.
- Concurrency, `RuntimeExecuteWrap`, debug callbacks, file and stream I/O, the op builders in `express/MathOp.cpp` and `express/NeuralNetWorkOp.cpp`, `half.hpp`, RapidJSON beyond its allocator, and all backends: plumbing or easy members.
