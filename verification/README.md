# smalltalk: verified models

Dafny models of the algorithms and protocols of smalltalk that carry strong promises, with proofs
that hold for every input, every run and every interleaving. `dafny verify dfyconfig.toml` checks
everything.

| file | models |
|---|---|
| `Walks.dfy` | walks, reachability and cycles, used by every graph argument |
| `Scc.dfy` | Tarjan's strongly connected components of the crate cutter |
| `LayerPlan.dfy`, `Planner.dfy` | the layer plan of the crate cutter: core, label votes, push-down, test lift, include groups; the first file says on values what the second computes on mutable fields |
| `UseTree.dfy`, `UseItem.dfy` | reading, writing and pruning Rust `use` items: the tree, then comments, attributes and visibility around it |
| `UseSyntax.dfy`, `ItemSyntax.dfy` | the grammar of `use` trees and of whole items with all white space and comments, and that the reader accepts exactly it |
| `Transport.dfy`, `TransportClaims.dfy` | the idempotent request/reply transport as interleaved atomic steps, and what it promises over whole runs |
| `ModuleLayers.dfy` | the module cycle check, longest-path layers and the reverse closure |
| `Paths.dfy`, `Outline.dfy` | slash paths, and the compact outline of the agent tree |
| `BundleDigest.dfy`, `Publication.dfy` | the byte stream a bundle digest is taken of, and compare-and-swap publication under the catalog lock, with failures anywhere and the generation readers rely on |
| `AuthorEdits.dfy`, `Authority.dfy` | source-preserving insert and remove, and the supervision walk |
| `Signal.dfy` | signalling a private process through a pidfd while PIDs are recycled |
| `Ratchet.dfy` | the Clippy warning ratchet |
| `Answer.dfy` | the answer retry protocol against every server that keeps its promises |
| `BoundedCache.dfy` | the bounded insertion-order cache |

Code that updates fields, arrays or files is modelled by classes and methods with loops, each proved
against a specification on values; the promises are lemmas about those specifications. Iteration
over a Python set or dictionary, and every `sorted`, is modelled as iteration in an arbitrary order,
so the results hold for the order the program uses.

## What is assumed

- Layer plan: the reference graph is an input, and so are the include groups. A domain name is
  represented by its layer number. Items of crates that are already cut do not move, so they stop the
  push-down: a layer is passed from a referrer to an item that may still move.
- Transport: rendering and parsing a message, and serialising and reading an envelope or a record, are
  inverse to each other; this takes an idempotency key without line breaks, since the key stands in a
  subject line. Creating a record and creating a message are atomic and never replace a file.
  Archiving links the archive copy before it unlinks the inbox copy. One directory is listed at one
  moment; the record, the inbox and the archive are read at three different moments. Mail of others
  carries no transport tag. Which principal or agent lives where does not change. Nothing is assumed
  of the digest that names records. Generated names are assumed new only where a message is claimed to
  persist (`MessageStays` and what rests on it).
- Publication: digests, marker parsing and catalog validation are arbitrary functions. The catalog
  lock makes calls run one after another. A call may fail or die between any two of its changes of the
  catalog; one change is atomic.
- Bundle digest: names are non-empty and hold no slash, and lengths fit 64 bits.
- Edits: the parser gives a node's span without leading trivia and without its terminator.
- Signal: a PID belongs to one process until that process exits, and a pidfd names the process that
  held the PID when it was opened.
- Answer: the server applies a key at most once, and never applies a key it has refused as not applied.
- Cache: a JavaScript `Map` keeps insertion order (section 24.1 of ECMA-262).

## Where code and documentation differ

- `insert_node` and `remove_field` do not always cancel: an empty block keeps a blank, a childless node
  keeps its new block, and after a trailing `;` the following gap shrinks to one blank. The exact
  condition is `AuthorEdits.Restorable`, proved necessary and sufficient by `RemoveUndoesInsert`;
  `EmptyBlockIsNotRestored` is a concrete failure.
- `folded` says that a chain of splits folds to the first crate that the base has. It does if and only
  if the chain meets the base (`Ratchet.HomeIsFirstInBase`); a cycle off the base leaves each crate its
  own home (`CycleOffBaseStays`). Totals are conserved for every splits map.
- A publication that fails before its write leaves all files as they were, but it leaves an empty
  target directory exactly if it was creating a declaration and failed between directory and write
  (`EmptyDirectoryStaysExactlyIf`).
- The generation never misses a write, but it also counts some failed calls as one more: exactly those
  of `Publication.Overcounts`, which stop between intent and write, or between counter and intent
  (`WritesAreCounted` is an equality). `FailedCreateIsCounted` is a concrete run with both effects.

## Model

| member | source | states |
|---|---|---|
| `Scc.Components` | scripts/crate_cut.py:501-540 | for every reference graph: every node gets a number of at least 0, two nodes get one number exactly when each reaches the other, and a reference never goes to a larger number |
| `Scc.Tarjan.Visit` | scripts/crate_cut.py:512-530 | one `sc` call keeps the whole search invariant, visits its node, and returns as `low` the number of a stack node that bounds every edge into the older stack |
| `Scc.Tarjan.Open` | scripts/crate_cut.py:513-516 | numbers the node, puts it on the stack and sets its low link to its own number |
| `Scc.Tarjan.Close` | scripts/crate_cut.py:523-530 | either a whole component is popped or the node stays for an older call; both keep the invariant |
| `Scc.Tarjan.PopComponent` | scripts/crate_cut.py:524-530 | exactly the stack from the given node up becomes the next component; everything else is untouched |
| `Scc.OpenKeeps` | scripts/crate_cut.py:513-516 | opening a node reached by the whole call path keeps the invariant |
| `Scc.CloseKeeps` | scripts/crate_cut.py:523 | a finished node that reaches an older stack node may stay on the stack |
| `Scc.PoppedPartIsClosed` | scripts/crate_cut.py:523-530 | what is about to be popped reaches only itself and finished components |
| `Scc.PoppedPartIsStrong` | scripts/crate_cut.py:523-530 | everything popped together is mutually reachable |
| `Scc.PopKeeps` | scripts/crate_cut.py:524-530 | popping a component keeps the invariant |
| `Scc.NumberingIsExact` | scripts/crate_cut.py:532-540 | when every node is visited the invariant gives the exact numbering |
| `Planner.Planner.Plan` | scripts/crate_cut.py:555-665 | the whole plan: exact components, a largest one as seed, and the complete list of rounds of the outer loop (at most two) that leads to core, labels and layers. Said of the items: the core holds every seed and only what a seed or an extra root reaches; an uncut production item outside it is never above its own label nor above the crate or label of anything that reaches it, is exactly on one of these, and on its own label if nothing refers to it; extra roots are exactly what floats in the first round; before the include groups each test is exactly on its highest counted production item or on 0; groups are levelled by the least lift; at the end no test is below a counted item it refers to |
| `Planner.RootsAreSeeds` | scripts/crate_cut.py:562-566 | the roots are exactly the uncut production items of the largest component or pinned and, while a layer is cut, the uncut tests that crates below it name |
| `Planner.CoreIsFromSeeds` | scripts/crate_cut.py:576-583 | the core holds every seed, and everything in it is reached from a seed or an extra root |
| `Planner.SettledIsFromLabels` | scripts/crate_cut.py:601-612 | settled layers said of crates and labels: an upper bound by every claim that reaches the item, attained by one, and the item's own label where nothing refers to it |
| `LayerPlan.VotesAreBytes` | scripts/crate_cut.py:593-597 | a label's vote is the summed size of exactly the non-core items with that label that the voter refers to |
| `LayerPlan.HighestMeansItems` | scripts/crate_cut.py:617-631 | a test is at least as high as every counted production item it reaches, on one of them or on 0, and on 0 if it is in the core |
| `LayerPlan.AboveMeansNotBelow` | scripts/crate_cut.py:657-665 | no test is below a counted item it refers to |
| `Planner.Planner.PlanProduction` | scripts/crate_cut.py:572-616 | the outer loop ends on every graph and is exactly a list of rounds: the first with the file labels and no extra root, each with the exact core of its roots, single legal votes until none is left and the push-down fixpoint, the next with what floated as extra roots, the last with nothing floating; then the production plan is settled (`SettledIsFromLabels` says what that means for labels and crates) |
| `LayerPlan.TwoRoundsAreEnough` | scripts/crate_cut.py:575-616 | the outer loop takes at most two rounds: the second neither votes nor leaves anything floating, so the extra roots are exactly what floats in the first round and the labels are those of the first round |
| `LayerPlan.ExtraRootsAreUnclaimed` | scripts/crate_cut.py:613-616 | an extra root has no file hint and no vote, and every production item that refers to one is one |
| `LayerPlan.FloatingIsUnclaimed` | scripts/crate_cut.py:601-613 | in any round, what floats has no label, and whoever refers to it from production floats as well |
| `LayerPlan.SecondRoundDoesNotVote` | scripts/crate_cut.py:587-600 | a larger core leaves no vote that was not there before |
| `LayerPlan.ClaimedStaysClaimed` | scripts/crate_cut.py:601-613 | an item that has a layer and is not drawn into the larger core has a layer again in the next round |
| `Planner.Planner.CloseCore` | scripts/crate_cut.py:576-583 | the core is exactly what the roots reach through items not in cut crates |
| `Planner.CoreDoesNotReachFree` | scripts/crate_cut.py:576-585 | no core item reaches an item that is outside the core and free to move |
| `Planner.LargestComponent` | scripts/crate_cut.py:560-561 | a component number that occurs at least as often as any other |
| `Planner.Planner.Tally` | scripts/crate_cut.py:593-597 | the votes are exactly the labels of the labelled non-core references, each with the summed sizes of the items that carry it |
| `Planner.Planner.ElectLabel` | scripts/crate_cut.py:593-599 | a winner has a maximal vote; there is none only if no labelled reference exists |
| `Planner.Planner.VoteLabels` | scripts/crate_cut.py:587-600 | the voting ends; every label change is a legal single vote, and at the end no unlabelled free item has a labelled reference |
| `Planner.Planner.Referrers` | scripts/crate_cut.py:568-571 | the reverse of the production references, exactly |
| `Planner.Planner.PushDown` | scripts/crate_cut.py:603-612 | the loop ends with no production item below a free item it refers to, and every layer comes from a start layer that reaches the item |
| `LayerPlan.PushStep` | scripts/crate_cut.py:609-612 | lowering an item to a referrer's layer keeps the push-down invariant |
| `LayerPlan.FixpointIsLowestStart` | scripts/crate_cut.py:603-612 | at the fixpoint an item's layer is exactly the minimum start layer over everything that reaches it |
| `LayerPlan.LowestStartIsLargestPlan` | scripts/crate_cut.py:603-612 | optimality: no other downward plan within the start layers puts any item higher |
| `LayerPlan.CyclesShareALayer` | scripts/crate_cut.py:603-612 | items that reach each other are never put into different crates |
| `LayerPlan.FallsAlongReach` | scripts/crate_cut.py:603-612 | along any chain of production references into free items the layer never rises |
| `Planner.FreeHasRealLayer` | scripts/crate_cut.py:613-615 | an item that does not float has a layer of the configured order |
| `Planner.PushedIsSettled` | scripts/crate_cut.py:601-615 | when nothing floats the production plan is settled: core on 0, cut crates in place, every other item on a real layer that is its lowest start layer |
| `Planner.FloatingWasFree` | scripts/crate_cut.py:613-616 | what floats was no extra root, so the extra roots strictly grow |
| `Planner.Planner.Lift` | scripts/crate_cut.py:621-631 | the loop ends; each test is on exactly the highest counted layer it reaches, production items are unmoved, and no lifted test is below a counted item it refers to |
| `LayerPlan.LiftStep` | scripts/crate_cut.py:628-631 | raising a test to a counted reference keeps the lift invariant |
| `LayerPlan.FixpointIsHighestCounted` | scripts/crate_cut.py:621-631 | at the fixpoint a test's layer is exactly the highest counted layer of anything it reaches |
| `LayerPlan.LiftFromBottom` | scripts/crate_cut.py:617-632 | with all tests starting at 0 only production items count, and a test of the core stays on 0 |
| `Planner.SettledSurvivesTests` | scripts/crate_cut.py:617-632 | moving tests leaves the production plan settled |
| `Planner.Planner.LevelGroup` | scripts/crate_cut.py:652-656 | one group ends on one layer; a change strictly raises the sum of layers |
| `Planner.Planner.LevelGroups` | scripts/crate_cut.py:648-656 | the group loop ends with every include group on one layer, by the least lift that does so |
| `LayerPlan.RaiseKeepsLeast` | scripts/crate_cut.py:652-656 | raising a member to another member of its group is forced on every levelled assignment |
| `UseTree.Parser.Parse` | scripts/crate_cut.py:796-835 | the position-driven parser reads exactly what the recursive definition of the grammar reads, and stops where it stops; an exception is `None` |
| `UseTree.Parser.ParseGroup` | scripts/crate_cut.py:803-818 | a brace group with an optional trailing comma, read as the list definition says; `UseSyntax.UsePathsExactly` says which texts these are |
| `UseTree.ReadUsePaths` | scripts/crate_cut.py:789-839 | the running parser computes the paths of every tree text, which by `UseSyntax.UsePathsExactly` are those of the grammar |
| `UseSyntax.UsePathsExactly` | scripts/crate_cut.py:789-840 | for every text: paths are given if and only if it starts with a tree of the grammar (names, nested non-empty groups, trailing commas, stars, `as`, any white space) that ends there, and then exactly the paths of that tree in order |
| `UseSyntax.Reads` | scripts/crate_cut.py:796-835 | every tree of the grammar, whatever its white space and trailing commas, is read as exactly its paths, up to where it ends |
| `UseSyntax.Denotes` | scripts/crate_cut.py:796-835 | whatever the parser reads is the text of a tree of the grammar with exactly these paths |
| `UseSyntax.TreeIsRead` | scripts/crate_cut.py:789-840 | a whole tree with nothing behind it is read as its paths |
| `UseTree.ParsedSegsAreGood` | scripts/crate_cut.py:796-835 | every path the parser gives has well-formed segments and alias |
| `UseTree.GroupReadsBack` | scripts/crate_cut.py:843-858 | a written tree, with or without braces, is read back as exactly its paths and aliases in order |
| `UseTree.GroupPaths` | scripts/crate_cut.py:846-850 | the groups are the prefixes in first-seen order, each with exactly its paths in order |
| `UseItem.ReadItem` | scripts/crate_cut.py:783-840 | `use_paths` of every item text: leading comments, attributes, visibility, tree |
| `ItemSyntax.ItemExactly` | scripts/crate_cut.py:783-840 | for every text: an item is read if and only if it is comments, attributes, visibility and `use` around a tree of the grammar, and then with exactly these attributes, this visibility and these paths |
| `ItemSyntax.HeaderExactly` | scripts/crate_cut.py:785-789 | for every text: a header is found if and only if the text is leading comments, attributes, visibility, `use`, a tree and a semicolon with white space between, and then it is exactly theirs |
| `ItemSyntax.ItemIsRead` | scripts/crate_cut.py:785-789 | every item of that grammar is taken apart as it was put together |
| `ItemSyntax.ItemDenotes` | scripts/crate_cut.py:785-789 | whatever is taken apart is such an item |
| `UseItem.HeaderReadsBack` | scripts/crate_cut.py:785-788 | attributes, visibility and tree of a written item are read back exactly |
| `UseItem.HeaderIsGood` | scripts/crate_cut.py:785-788 | whatever attributes and visibility are read can be written and read back |
| `UseItem.RenderUse` | scripts/crate_cut.py:843-858 | one line per prefix, each with the given attributes and visibility; reading the lines back gives the paths grouped by prefix, prefixes in first-seen order |
| `UseItem.LineExamples` | scripts/crate_cut.py:851-858 | two written lines to the character: one path without braces, several in braces with an alias |
| `UseTree.GatheringKeepsCounts` | scripts/crate_cut.py:846-850 | grouping neither loses nor adds a path |
| `UseItem.PruneUse` | scripts/crate_cut.py:877-905 | for every item text: an item that is no plain `use`, or none of whose paths moved, keeps its text; otherwise the lines that replace it keep its attributes and visibility and import exactly the paths that are not moved non-external ones, each as often as before, grouped by prefix in first-seen order |
| `UseItem.KeepUnmoved` | scripts/crate_cut.py:891-899 | the kept paths are exactly those not moved, in their order, and as many as there were exactly if none moved |
| `UseTree.KeptMembers` | scripts/crate_cut.py:891-899 | a path is kept as often as it was there if it is not moved, and not at all if it is |
| `UseTree.IsMovedMeans` | scripts/crate_cut.py:891-899 | a path is moved exactly if its last two segments, or its only one, name a moved item and its first segment is no external crate |
| `Transport.RunKeepsInv` | src/request.rs:280-319 | over every run of interleaved calls, crashes, retries and archiving, every typed message in any box is the rendering of the one record it belongs to |
| `Transport.RunGrows` | src/request.rs:453-462 | records are only ever added, never changed |
| `Transport.ReserveKeeps` | src/request.rs:410-434 | creating or reading the record keeps the run invariant |
| `Transport.PlaceKeeps` | src/request.rs:435-444 | comparing with the record and creating the message keeps the run invariant |
| `Transport.FinishKeeps` | src/request.rs:445-450 | giving the receipt keeps the run invariant |
| `Transport.MailKeeps` | crates/fractal-drivers/src/message.rs:2533-2560 | archiving, restoring, crashes and other mail keep the run invariant |
| `TransportClaims.ReadStatus` | src/request.rs:360-392 | pending exactly if nothing matches, a reply if all matches are that one reply, a conflict exactly if two differ |
| `TransportClaims.DedupMeaning` | src/request.rs:378 | adjacent deduplication leaves at most one reply exactly if all are equal |
| `TransportClaims.MatchIsTheReply` | src/request.rs:361-377 | a message `status` accepts is the rendering of the one reply record of that agent, principal and key |
| `TransportClaims.StatusNeverConflicts` | src/request.rs:344-393 | over every run and for any digest, `status` never reports conflicting replies |
| `TransportClaims.MessageStays` | src/request.rs:443-444 | a message once in a principal's boxes stays in them for ever, and an archived one stays archived |
| `TransportClaims.StatusSees` | src/request.rs:361-362 | a `status` that starts after a message arrived sees it, although it reads the two boxes at different moments |
| `TransportClaims.ReplyIsForEver` | src/request.rs:344-393 | once `status` has returned a reply, every later `status` for that key returns the same reply |
| `TransportClaims.DeliveredReplyIsReported` | src/request.rs:280-393 | a delivered reply to the recorded request is what every later `status` reports; `ReplyIsReported` takes this from the arguments of `reply` to the result of `status` |
| `TransportClaims.ReplyIsReported` | src/request.rs:280-393 | end to end: once `reply` has given its receipt, every later `status` of the request's sender for that key returns exactly the tags and the body that were given to `reply`, from that agent and for that request |
| `TransportClaims.RequestIsDelivered` | src/request.rs:242-278 | end to end: once `publish` has given its receipt, the recipient's boxes hold, then and for ever, a request with exactly the key, tags and body that were given to `publish` |
| `TransportClaims.RequestCanBeAnswered` | src/request.rs:254-293 | once `publish` has given its receipt, the recipient can at every later moment reply to exactly that request, under the name of the receipt, archived or not |
| `TransportClaims.PublishCarriesItsArguments` | src/request.rs:254-278 | a receipt of `publish` belongs to a record whose message carries exactly the arguments of that call |
| `TransportClaims.ReplyCarriesItsArguments` | src/request.rs:288-319 | a receipt of `reply` belongs to a record whose message goes to the request's sender, names the request's file and carries exactly the arguments of that call |
| `TransportClaims.RequestIsAnswered` | src/request.rs:289-293 | what `reply` answers is a well-formed request addressed to the agent, in its inbox or archive |
| `TransportClaims.ReceiptMeansDelivered` | src/request.rs:435-450 | over every run a receipt means that the recorded message is in the recipient's boxes |
| `TransportClaims.RequestRecord` | src/request.rs:254-268 | the record of a request an agent can read under a name is the one its sender's `status` reads |
| `TransportClaims.RepliedMeans` | src/request.rs:361-392 | a reply `status` reports is the body of a listed message that answers the recorded request, from its recipient and for its key |
| `TransportClaims.StateKeysDiffer` | src/request.rs:304 | replies to different principals or keys have different state keys |
| `TransportClaims.FirstPublicationDelivers` | src/request.rs:254-278 | the first publication under a key, undisturbed, puts exactly its request into the inbox under the new name and is no duplicate |
| `TransportClaims.FirstReplyDelivers` | src/request.rs:288-319 | the first reply of an agent to a request, undisturbed, puts exactly its reply into the inbox of the request's sender and is no duplicate |
| `TransportClaims.ReceiptsAgree` | src/request.rs:396-451 | all receipts of a state key name one file and one envelope, and at most one is not a duplicate |
| `TransportClaims.OneMessagePerRecord` | src/request.rs:396-451 | at most one message exists for a record, in one box under one name, with the first envelope |
| `TransportClaims.MatchingCallDelivers` | src/request.rs:435-444 | however other calls interleave, a call that matches its record gets its message into a box |
| `TransportClaims.DifferentEnvelopeFails` | src/request.rs:435-442 | over every run, however other calls interleave: a send that differs from the record of its key, or collides with another key, never gets a receipt or as far as the inbox, and its own steps leave records and boxes alone |
| `TransportClaims.DifferentEnvelopeAlone` | src/request.rs:435-442 | the same for one undisturbed call from any state |
| `TransportClaims.ExactRetryCompletes` | src/request.rs:429-450 | an exact retry after a crash between record and message completes the delivery under the recorded name and is marked a duplicate |
| `TransportClaims.AloneMeaning` | src/request.rs:396-451 | what an undisturbed call does to records, inbox and receipts, and exactly when it succeeds |
| `TransportClaims.Files.PublishOnce` | src/request.rs:396-451 | the imperative call has exactly the file effects and the receipt of the four atomic steps |
| `ModuleLayers.Without` | scripts/module_layers.py:198-199 | exactly the allowed references are gone, and no module is lost |
| `ModuleLayers.FindCycle` | scripts/module_layers.py:202-225 | what is returned is a closed walk of references; nothing is returned exactly if the graph is acyclic |
| `ModuleLayers.CycleSearch.Visit` | scripts/module_layers.py:206-218 | a found list is a cycle; otherwise the module is finished and the path of open modules is as before |
| `ModuleLayers.BackEdge` | scripts/module_layers.py:210-211 | a reference to an open module closes a cycle along the stack |
| `ModuleLayers.FinishedIsAcyclic` | scripts/module_layers.py:220-225 | a search that finishes every module proves the graph acyclic |
| `ModuleLayers.Layers` | scripts/module_layers.py:228-240 | on an acyclic graph every module gets the length of its longest chain of references |
| `ModuleLayers.Layering.Level` | scripts/module_layers.py:232-236 | the memoised recursion gives the longest chain, and the placeholder value is never read |
| `ModuleLayers.DepthFalls` | scripts/module_layers.py:228-240 | every reference goes to a strictly smaller depth |
| `ModuleLayers.CheckLayers` | scripts/module_layers.py:385-398 | a cycle is reported exactly if one avoids the allowlist; otherwise every reference outside the allowlist goes strictly down |
| `ModuleLayers.ReverseClosure` | scripts/module_layers.py:401-412 | exactly the modules from which a start module is reached |
| `Paths.SplitJoin` | apps/ios/agentsView.ts:236 | splitting undoes joining on clean components |
| `Paths.PathOrder` | apps/ios/agentsView.ts:237-242 | the comparator is a total preorder |
| `Paths.StrLessMeans` | apps/ios/agentsView.ts:239 | a string comes before another if and only if it is a proper prefix of it or has the smaller character where the two first differ |
| `Paths.PathLeMeans` | apps/ios/agentsView.ts:237-242 | a path comes first if and only if it is a prefix or has the smaller component where the two first differ |
| `Paths.PrefixIsContiguous` | apps/ios/agentsView.ts:237-242 | in sorted order everything below one folder stands together |
| `Outline.SortIsStableOrder` | apps/ios/agentsView.ts:237-242 | the sort gives a sorted permutation in which rows of equal path keep their order |
| `Outline.LeafOfMeans` | apps/ios/agentsView.ts:236 | a managed row lies at the components of its path, one that is only found under `found` and its host |
| `Outline.RecordHolds` | apps/ios/agentsView.ts:265-274 | the recorded children are exactly what each folder holds |
| `Outline.OneChildMeansOpen` | apps/ios/agentsView.ts:280 | a folder is joined to the next exactly if that folder is all it holds |
| `Outline.CompactPath` | apps/ios/agentsView.ts:275-287 | one path's folders are cut exactly at the folders that hold a row or several folders |
| `Outline.CompactFolders` | apps/ios/agentsView.ts:264-288 | the same for all paths: boundaries are a property of the folder alone |
| `Outline.JoinedExactlyIf` | apps/ios/agentsView.ts:264-288 | a folder ends its line if and only if it holds a row or two different folders |
| `Outline.ClosedMeansBranches` | apps/ios/agentsView.ts:265-280 | the recorded children decide exactly that |
| `Outline.NamesReadBack` | apps/ios/agentsView.ts:264-288 | splitting the compact names gives the original folders back |
| `Outline.SameStartSameNames` | apps/ios/agentsView.ts:264-288 | compact names depend only on the folders they spell, not on what follows |
| `Outline.FolderIsContiguous` | apps/ios/agentsView.ts:246-256 | rows under one compact folder stand together |
| `Outline.KeyNamesFolder` | apps/ios/agentsView.ts:253 | equal folder keys mean equal folders |
| `Outline.NewFolderIsNew` | apps/ios/agentsView.ts:248-254 | a folder that is opened was never opened before |
| `Outline.DrawLeaves` | apps/ios/agentsView.ts:244-257 | the lines read back to the rows and their folders, every row line with the row's key and one level below its last folder, no folder opened twice, and every folder line that of a folder of some row with its own key, depth and name |
| `Outline.AgentTreeLines` | apps/ios/agentsView.ts:235-258 | every row once, in ascending path order (a path before what extends it, otherwise by the first component that differs), rows of one path in their given order, with its own key and depth; each folder of a row opened at most once and nothing else opened; a reader with a stack recovers the folders of every row's path |
| `BundleDigest.BigEndianRoundTrip` | src/agent_publish.rs:852-855 | a length below 2 to the 64 is recovered from its bytes |
| `BundleDigest.TakeRecordOf` | src/agent_publish.rs:850-857 | the decoder recovers one record and what follows it |
| `BundleDigest.DecodeStream` | src/agent_publish.rs:820-857 | the decoder recovers the whole record list |
| `BundleDigest.RecordsAreTrue` | src/agent_publish.rs:820-848 | every record tells path, kind, executable bit and contents of an entry of the tree |
| `BundleDigest.RecordsAreComplete` | src/agent_publish.rs:820-848 | every entry of the tree has its record |
| `BundleDigest.LookupDecidesTree` | src/agent_publish.rs:820-848 | trees that answer every lookup alike are equal |
| `BundleDigest.StreamDecidesTree` | src/agent_publish.rs:813-863 | injectivity: equal streams come from equal trees |
| `BundleDigest.SortNamesSorted` | src/agent_publish.rs:859-863 | the names of a directory, each once, in strictly ascending byte order whatever order they were read in |
| `BundleDigest.RecordsAreOrdered` | src/agent_publish.rs:820-863 | in the whole stream the records stand in strictly ascending order of their path components, so a directory stands before what it holds and no path twice |
| `BundleDigest.RecordsAscend` | src/agent_publish.rs:820-863 | the same for the records of any set of entries of a directory |
| `BundleDigest.FormatExample` | src/agent_publish.rs:850-857 | the exact bytes of one file record and one directory record |
| `BundleDigest.Hasher.HashRecord` | src/agent_publish.rs:850-857 | the hasher is fed exactly one record |
| `BundleDigest.HashBundleDir` | src/agent_publish.rs:820-848 | succeeds exactly on trees of files and directories, and then feeds the tree's stream whatever the read order |
| `BundleDigest.HashEntry` | src/agent_publish.rs:822-845 | one entry feeds its own record and, for a directory, the stream below it |
| `Publication.Catalog.Publish` | src/agent_publish.rs:289-450 | for every request and every place where the call fails: the outcome, its receipt, the new files, the intent and the generation, each with its exact condition, through legal changes of the store only; `WriteLeaves` and `WrittenExactlyIf` say what is then in the files and when |
| `Publication.CallIsDetermined` | src/agent_publish.rs:289-450 | catalog, request and place of the fault leave one result |
| `Publication.WriteLeaves` | src/agent_publish.rs:422-432 | over every run a write leaves at its target the candidate's declaration, and beside it for a spec exactly the files that were there and for a bundle exactly the candidate's; no other target changes |
| `Publication.WritesOnlyAsExpected` | src/agent_publish.rs:299-396 | over every run nothing is written unless the input has the announced digest, a create finds no declaration, a replacement finds the expected digest, a bundle finds no directory and a marked incumbent is released by its one marker |
| `Publication.WrittenExactlyIf` | src/agent_publish.rs:289-450 | over every run and without a fault: a request writes if and only if it is announced, its overlay validates and it may write; it is published if and only if the catalog then validates; it is unchanged if and only if its candidate is already there as expected; all else is refused |
| `Publication.AdmittedMeans` | src/agent_publish.rs:299-416 | the checks under the lock, said of what is at the target |
| `Publication.ValidShaMeans` | src/agent_publish.rs:549-559 | a digest is well formed exactly if it is 64 lower-case hexadecimal digits |
| `Publication.Catalog.Admit` | src/agent_publish.rs:299-416 | admits exactly what the checks under the lock admit, with the receipt |
| `Publication.Catalog.Commit` | src/agent_publish.rs:419-449 | the exact outcome, files, intent and generation of a commit that fails after any number of changes |
| `Publication.Catalog.Settle` | crates/fractal-drivers/src/catalog_lock.rs:375-390 | advance, then remove the intent, failing in between or not: how a commit ends and how the next lock recovers |
| `Publication.SameGenerationSameFiles` | crates/fractal-drivers/src/catalog_lock.rs:353-428 | two moments of one generation without an intent: every moment between has the same files |
| `Publication.FencedReadIsConsistent` | crates/fractal-drivers/src/catalog_lock.rs:24-34 | two fences with one value: whatever was read between them was one unchanged catalog, although the fence takes no lock and calls fail anywhere |
| `Publication.RunIsHistory` | crates/fractal-drivers/src/catalog_lock.rs:353-428 | the moments of all calls of a run together are one history of legal changes |
| `Publication.WritesAreCounted` | crates/fractal-drivers/src/catalog_lock.rs:353-428 | over every run the generation, with a pending intent, rises by exactly the number of writes plus the number of calls that overcount |
| `Publication.FaultFreeRunsCountExactly` | crates/fractal-drivers/src/catalog_lock.rs:353-428 | in a run without faults it rises by exactly the number of writes |
| `Publication.LockCounts` | crates/fractal-drivers/src/catalog_lock.rs:375-390 | a call that finds an intent and gets as far as the counter advances the generation |
| `Publication.NextCallCounts` | crates/fractal-drivers/src/catalog_lock.rs:375-390 | a write whose own commit failed is counted by the next call that takes the lock and gets as far as the counter |
| `Publication.ReceiptIsTrue` | src/agent_publish.rs:312-338 | a published receipt gives the announced input digest, the digests of what was and what is at its target and the marker that was asserted against an incumbent, and nothing else changed |
| `Publication.ReceiptsChain` | src/agent_publish.rs:397-450 | no lost update: the next receipt of a target starts where the last one ended |
| `Publication.OnlyOneReplacesAVersion` | src/agent_publish.rs:351-363 | two writers that expected one version cannot both replace it, unless the first wrote bytes of the same digest |
| `Publication.FailureBeforeTheWriteChangesNothing` | src/agent_publish.rs:312-434 | a call that fails before its write, wherever and for whatever reason, leaves every declaration and every other file |
| `Publication.EmptyDirectoryStaysExactlyIf` | src/agent_publish.rs:422-432 | a call without a write leaves a new directory if and only if it was creating a declaration and failed between directory and write |
| `Publication.FailedCreateIsCounted` | src/agent_publish.rs:366-432 | a concrete failed create that leaves an empty directory, after which an admissible bundle is refused and the generation counts one although nothing was written |
| `Publication.NixIsReplacedOnlyByAssertion` | src/agent_publish.rs:325-338 | an incumbent marked `nix` is replaced only under the assertion of exactly that marker |
| `Publication.ReplayIsUnchanged` | src/agent_publish.rs:316-416 | an exact replay of a create, with nothing written in between and no fault, is unchanged, repeats the digest and leaves no intent, also when the first call broke after its write |
| `Publication.UntouchedStays` | src/agent_publish.rs:418-450 | a target nobody wrote to is as it was |
| `AuthorEdits.RemoveUndoesInsert` | src/agent_author.rs:352-488 | for every text, insertion point and authored node: removing what was inserted gives the original text back if and only if the point is restorable |
| `AuthorEdits.OwnLineRestores` | src/agent_author.rs:374-392 | in a block over several lines the removal restores the text |
| `AuthorEdits.SeparatorRestores` | src/agent_author.rs:393-403 | after an inserted separator the removal restores the text |
| `AuthorEdits.EmptyBlockKeepsABlank` | src/agent_author.rs:395-396 | an empty block keeps exactly one blank |
| `AuthorEdits.TerminatorTakesTheGap` | src/agent_author.rs:458-470 | after a terminator the removal keeps one blank in place of the gap that followed |
| `AuthorEdits.NewBlockStays` | src/agent_author.rs:363-366 | a node without a block keeps the block it was given |
| `AuthorEdits.InsertsNewBlock` | src/agent_author.rs:363-366 | a node without a block gets one behind it, with the authored node in it |
| `AuthorEdits.InsertsOwnLine` | src/agent_author.rs:374-392 | in a block over several lines the authored node gets the line before the closing brace, indented like the first child if that starts its line and else two blanks deeper than the brace; refused exactly if the brace does not start its line |
| `AuthorEdits.InsertsInline` | src/agent_author.rs:393-403 | in a block on one line it follows the last node, with the separator that node lacks |
| `AuthorEdits.RefusesWithoutBrace` | src/agent_author.rs:367-372 | a block that does not end in its brace is refused |
| `AuthorEdits.RemovesOwnLine` | src/agent_author.rs:406-438 | a node alone on its line goes with the whole line and the line comment behind it |
| `AuthorEdits.RemovesLineEnd` | src/agent_author.rs:444-453 | a node that ends its line behind other text goes with the blanks around it, and the line end stays |
| `AuthorEdits.RemovesTerminator` | src/agent_author.rs:455-470 | a node with a terminator goes with it and with the gap behind it, whatever stands before |
| `AuthorEdits.RefusesWithoutSeparator` | src/agent_author.rs:472-484 | a node with other text on both sides and no separator is refused |
| `AuthorEdits.EmptyBlockIsNotRestored` | src/agent_author.rs:395-396 | a concrete text that is not restored |
| `Authority.AuthorizeActor` | src/agent_author.rs:162-208 | ends on every catalog, cyclic supervision included, and accepts exactly if there is no actor, the actor is the target, or the actor supervises some agent any number of steps up the chain |
| `Authority.NextMeans` | src/agent_author.rs:191-202 | the next agent is the one named if it is declared, the one of that name on the same host if only that is, else the bare name |
| `Authority.SupervisesMeans` | src/agent_author.rs:185-201 | an agent is supervised by what its declaration names and by what that name resolves to, and by nobody else |
| `Authority.ChainStaysInside` | src/agent_author.rs:179-203 | a set closed under the next step holds the whole unbounded chain |
| `Authority.NotAboveWhenClosed` | src/agent_author.rs:181-203 | once the walk comes back to a visited agent the actor is nowhere up the chain |
| `Signal.RunKeepsInv` | scripts/script_process.py:31-66 | against every interleaving of exits, PID reuse and changes of /proc, the reads made while the opened process lives were of that process |
| `Signal.ReceiverPassedEveryCheck` | scripts/script_process.py:45-99 | whoever receives the signal is one process that itself answered and passed all five reads |
| `Signal.ReceiverIsSelected` | scripts/script_process.py:69-99 | what the receiver itself showed, read by read: the caller's user, the selected start time, parent and group, the selected environment and endpoint, the selected words in its command line, and a working directory or an argument under the selected root |
| `Signal.UndisturbedExactlyIf` | scripts/script_process.py:31-99 | a call that nothing disturbs signals the holder of the PID if and only if the selector is usable, the PID is above 1 and no ancestor's, and the holder is the selected process; else nobody |
| `Signal.EnvironMeans` | scripts/script_process.py:80-88 | the environment check holds exactly if every selected variable has its value and, with an endpoint, at least one of the two endpoint variables is set and every one set is it |
| `Signal.SignalFollowsTheDescriptor` | scripts/script_process.py:45-61 | only the process that held the PID when the descriptor was opened can receive the signal |
| `Signal.ReplacementIsNeverSignalled` | scripts/script_process.py:59-61 | a process that took over the PID after the open never receives it |
| `Ratchet.FindHome` | scripts/clippy_ratchet.py:82-87 | the walk ends on every splits map, cyclic ones included, at the crate's home |
| `Ratchet.HomeIsFirstInBase` | scripts/clippy_ratchet.py:82-87 | a crate finds a home in the base if and only if its chain of splits, cyclic or not, meets the base, and then it is the first such crate |
| `Ratchet.HomeIsFirstStop` | scripts/clippy_ratchet.py:82-87 | what the home is on every splits map: the first crate of the chain that the base has, that nothing split out, or that came before |
| `Ratchet.CycleOffBaseStays` | scripts/clippy_ratchet.py:74-87 | a concrete cycle of splits off the base in which each crate stays its own home |
| `Ratchet.AddLints` | scripts/clippy_ratchet.py:92-93 | lint by lint the sum of both counts |
| `Ratchet.Folded` | scripts/clippy_ratchet.py:74-94 | every crate's folded count is the sum over the crates it is home of, and each lint's workspace total is conserved for every splits map |
| `Ratchet.Increases` | scripts/clippy_ratchet.py:68-71 | empty exactly if no count is above its ceiling, and everything listed is above |
| `Ratchet.Check` | scripts/clippy_ratchet.py:108-119 | passes exactly if toolchains agree, observed and committed counts agree everywhere, and no base crate's folded count rose |
| `Ratchet.HomesBoundTheTotal` | scripts/clippy_ratchet.py:112-114 | if no home's folded count rose, no lint's workspace total rose, whatever the splits map |
| `Ratchet.TotalsNeverRise` | scripts/clippy_ratchet.py:108-119 | along every chain of checks that pass, each with its own splits map, no lint's workspace total ever rises |
| `Ratchet.AgreeingIsEqual` | scripts/clippy_ratchet.py:53-65 | for validated counts agreeing everywhere is being equal |
| `Answer.World.SubmitAnswer` | apps/ios/answer.ts:30-50 | for every pattern of lost replies and refusals and every try limit: the exact course of builds, sends, waits and questions with its outcome; all requests built but the last are refused for good, success means the item no longer waits, and builds, sends and waiting are bounded by the limit |
| `Answer.UnknownIsRepeated` | apps/ios/answer.ts:37-41 | a first send with an unknown outcome is always repeated, with the same key and after the fixed wait |
| `Answer.RebuiltOnlyAfterRefusal` | apps/ios/answer.ts:43-47 | a new request is built only after the last one was refused as not applied, the item was not found settled, and a wait |
| `Answer.DelayIs` | apps/ios/answer.ts:32-48 | the delays between tries are 50, 100, 200, 400, 800, 1600 and then always 2000 ms, and what they add up to |
| `Answer.World.Settled` | apps/ios/answer.ts:53-55 | says yes only if the item no longer waits |
| `Answer.AtMostOneIsEverApplied` | apps/ios/answer.ts:30-50 | whatever happens later, two requests of one answer are never both applied |
| `Answer.DelayWithinLimits` | apps/ios/answer.ts:46-47 | no delay passes two seconds, so the waiting between tries is linear in the limit |
| `BoundedCache.Cache.RememberBounded` | apps/ios/boundedCache.ts:1-10 | refuses a limit below one unchanged; otherwise the key moves to the end with its value and the oldest entries go |
| `BoundedCache.CacheIsNewestLastWrites` | apps/ios/boundedCache.ts:1-10 | after every history of writes the cache is exactly the newest last writes up to the limit, in the order of those writes |
| `BoundedCache.LastWritesDistinct` | apps/ios/boundedCache.ts:1-10 | no key twice |
| `BoundedCache.LastWritesHoldLatest` | apps/ios/boundedCache.ts:1-10 | a key is held with the value of its latest write |

## Left out

- Building the reference graph, moving items between crates and editing manifests (`build_refs`, `apply_cut`, `wire_crate`, `fix_once`): regular expressions over Rust text; the graph is an input.
- Domain patterns of files and the `include!` pattern: an item's own label and the include groups are inputs.
- Planner.Planner.Plan: claims one layer per include group after the group loop only, because the last loop of `unify_includes` may raise one member of a group again.
- LayerPlan.FallsAlongReach: says nothing of references to items of crates already cut, because those items do not move.
- Finding the `use` items of a file, joining their lines and splicing them back.
- Text after a complete `use` tree: the parser ignores it, and so does the model.
- KDL, TOML and JSON parsing, message rendering and SHA-256: functions with the contracts stated above.
- File-system detail of records, messages and declarations: fsync, temporary files, symlink checks, directory creation.
- Resolving principals and agents in `publish`, `reply` and `status`: the resolved names are inputs, and an empty idempotency key is refused before the modelled steps.
- Other writers of the catalog (`agent_author`, catalog apply), which use the same lock and generation, and the apply marker a fence also looks at.
- The permission bits and the comparison walk of `bundle_projection_matches`: publication sees it as "the target holds the whole payload".
- The digest's domain prefix: a constant in front of the stream.
- Offsets in edited text count characters; the program counts UTF-8 bytes.
- The string order of the outline compares code points; JavaScript compares UTF-16 units.
- A cache limit that is not an integer.
- Writing order and wording of messages: which cycle is reported first, the rows `increases` prints.
- The other findings of `module_layers.py`, the process ancestry walk, `install-macos.py`, the command line, screens, release and rename scripts: plumbing without comparable invariants.
