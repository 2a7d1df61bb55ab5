# Verified models of the OmniLedger building blocks

This project models, in Dafny, the protocols and data structures on which the OmniLedger prototype is
built, and proves what they guarantee for all inputs, trees, runs and interleavings:

- the **skipchain** service: a hash-linked deterministic skip list whose higher forward links arrive
  asynchronously (`Powers`, `SkipIndex`, `SkipBlocks`, `Skipchain`, `SkipchainInvariant`,
  `SkipchainRuns`, `SkipchainLinks`, `SkipchainInOrder`, `SkipchainPaths`, `SkipchainOvertaken`,
  `SkipchainService`);
- **BFTCoSi**: two rounds of collective signing over a tree in which nodes may refuse (`GroupArith`,
  `BftCosi`, `BftCosiTree`, `BftCosiRun`, `BftCosiProtocol`, `BftCosiNode`);
- **Merkle proofs** with sorted-pair hashing and zero padding (`MerkleProof`, `MerkleMeaning`);
- the simplified **PBFT** round (`Pbft`, `PbftSafety`, `PbftRuns`, `PbftOutcome`, `PbftRest`);
- **tree propagation** with counted acknowledgements (`Propagate`, `PropagateRuns`) and the all-pairs
  **broadcast** (`Broadcast`, `BroadcastRuns`);
- plain **CoSi** (`Cosi`), the **Bitcoin transaction parser** (`BlkParser`, `BlkTransactions`,
  `BlkReader`, `BlkTruncated`) and the two-stage integer **interpolation** of daily values (`Interpolation`).

`Options` and `Counts` hold what several parts share.

Each part has the same shape. Operations are functions on values; the objects and loops of the program
are classes and methods whose postconditions equate their effect with those functions; the properties are
lemmas about the functions, about every state a run can reach, or about every tree. Protocols are step
systems: a run is any sequence of enabled events, so a statement about reachable states covers every
order, delay, loss or repetition that the events allow.

`dafny verify dfyconfig.toml` checks everything.

## Modelling decisions

- Skipblock hashes are symbolic terms over the hashed fields, so different contents have different
  hashes. Index, height, maximum height and base height are not among them: `binary.Write` of a Go `int`
  writes nothing (omniledger/skipchain/struct.go:182-185).
- A collective signature is a term over the signing roster and the message; forging is outside the model.
- Group elements are represented by their logarithm to the base point, scalars are taken modulo the
  group order `q`, and hashes and challenge functions are parameters about which nothing is assumed.
- For Merkle trees the hash is a parameter as well. Collision freedom is assumed only on the finite set of
  strings that the trees and proofs in question hash (`CollisionFree`), which a real hash can satisfy.
- The header comment of omniledger/bftcosi/bftcosi.go speaks of a quorum of signers; the code at line 375
  compares the number of refusals with `(n+1)*2/3`. The model follows the code.
- Run-time panics of the parser and of the interpolation are the value `None`.

## What was found

- The guard for forward links counts a block's links and does not look where they lead. A request that is
  served while its target lacks a lower link puts its link on a lower position. In every run the links are
  those of the skip list, each on the position of its level, exactly if no service was premature in this
  sense (`SkipchainLinks.ExactIff`), and complete under the same condition once every request has had a
  completed signing round (`SkipchainLinks.CompleteIff`). Only the order of levels at one target matters;
  sending order is sufficient (`SkipchainInOrder.InOrderInTime`).
- After a premature service an overtaken request may be refused for ever although it was never served
  (`SkipchainOvertaken.LostRequest`), or accepted behind a longer link (`SkipchainOvertaken.SwappedLinks`).
  A request is refused for ever exactly if its target has more links than its level
  (`SkipchainInOrder.RefusedForeverIff`).
- The update chain is the shortest one that the stored links allow exactly if every block on it has its
  farthest link last (`SkipchainPaths.UpdateChainShortestIff`). So it is at every moment of a run without
  premature service, requests lost or not; in the run with swapped links it is not
  (`SkipchainOvertaken.NotShortest`).
- A BFTCoSi signature with four nodes can be output although only two accepted
  (`BftCosiProtocol.ThresholdCountsRefusals`).
- PBFT's root sends before it sets its state. A Prepare that comes before the first setting is stored and
  never replayed, and a setting that comes after the Commit takes the root back. When a round has come to
  rest, and every round does, the root has finished exactly if the Prepares of a threshold of nodes did not
  come early and it was not set back (`PbftOutcome.RootFinishesIff`, `PbftRest.RunsEnd`). Both failures
  are reachable with three nodes of which the other two verified, and final (`PbftOutcome.EarlyPrepare`,
  `PbftOutcome.TooEarlyForever`, `PbftRuns.LateReset`, `PbftRuns.SetBackForever`).
- With one node, Broadcast never calls back (`BroadcastRuns.SingleNodeNeverDone`).
- A leaf whose sibling is nil gets a Merkle proof that fails unless the leaf is a fixed point of the hash
  (`MerkleMeaning.NilSibling`); leaves of other lengths than the hash's make proofs and roots ambiguous,
  and exactly how is stated (`MerkleMeaning.CheckIffPair`, `MerkleMeaning.EqualRootsIffPairs`).
- The CoSi check with exceptions uses the unreduced key and recreates the commitment exactly when the
  challenge times the refusers' keys vanishes (`Cosi.ExceptionsRecreate`), which it need not
  (`Cosi.ExceptionsWrong`).
- A long count at the very end of the input is read as 0 (`BlkParser.VarIntRoundTrip`). Input that is cut
  short is noticed by a panic everywhere but there: `ParseTxs` then returns no transactions
  (`BlkTruncated.TruncatedIff`).
- `VerifyLinks` panics on a block whose predecessor is a stored tip (`SkipchainRuns.VerifyLinksExactly`).
- Past the last day the interpolated value falls (`Interpolation.PastTheEnd`).

## Model

| member | source | states |
|---|---|---|
| `SkipIndex.HeightLevels` | omniledger/skipchain/skipchain.go:113-119 | block i takes part in level e exactly when e is below the maximum height and b^e divides i |
| `SkipIndex.HeightIsMultiplicity` | omniledger/skipchain/skipchain.go:113-119 | the height is min(m, 1 + the number of times b divides i) |
| `SkipIndex.GenesisHeight` | omniledger/skipchain/skipchain.go:73-74 | index 0 has the maximum height, as the genesis block is given it |
| `SkipIndex.NearestBelow` | omniledger/skipchain/skipchain.go:122-134 | i - b^h exists, reaches level h, and no block strictly between it and i does |
| `SkipIndex.VisitsMultiple` | omniledger/skipchain/skipchain.go:183-207 | no path of forward links jumps over the next multiple of b^f |
| `SkipIndex.GreedyShortest` | omniledger/skipchain/skipchain.go:183-207 | following the highest link is a shortest path among all paths of forward links |
| `SkipIndex.GreedyIsPath` | omniledger/skipchain/skipchain.go:183-207 | the greedy walk is itself such a path |
| `SkipIndex.HopBound` | omniledger/skipchain/skipchain.go:183-207 | it follows at most 2(b-1)(m-1) + (n-j)/b^(m-1) links |
| `SkipBlocks.StoreAllKeeps` | omniledger/skipchain/struct.go:369-393 | no sequence of Stores drops or rewrites a stored link, child or fixed field |
| `SkipBlocks.StoreConverges` | omniledger/skipchain/struct.go:369-393 | if all copies carry prefixes of one list of valid links, Stores in any order with repeats leave the longest prefix seen |
| `SkipBlocks.ChildrenConverge` | omniledger/skipchain/struct.go:386-388 | if moreover their children are prefixes of one list, the longest of these is left as well |
| `SkipBlocks.MergeTakesValid` | omniledger/skipchain/struct.go:375-385 | of the links that a copy adds, exactly those before the first invalid one are taken |
| `SkipBlocks.StoreReplyTells` | omniledger/skipchain/struct.go:369-393 | the answer is nil exactly if the stored block still has fewer links than the copy, and then its children are as before; otherwise no child of the copy is missing |
| `SkipBlocks.HashCovers` | omniledger/skipchain/struct.go:180-202 | two blocks have one hash exactly if they agree in back-links, verifiers, parent, genesis, data and roster |
| `SkipBlocks.FirstCopy` | omniledger/skipchain/struct.go:389-391 | an unknown block is taken as it arrives |
| `SkipBlocks.SkipBlock.AddForward` | omniledger/skipchain/struct.go:295-299 | appends one link and changes nothing else |
| `SkipBlocks.SkipBlock.MergeFrom` | omniledger/skipchain/struct.go:375-388 | the link-copying loop of Store and the copying of children compute Merge; false exactly on an invalid new link |
| `SkipBlocks.SkipBlock.VerifyForwardSignatures` | omniledger/skipchain/struct.go:232-241 | true exactly when every link is signed by the roster |
| `SkipBlocks.SkipBlockMap.Store` | omniledger/skipchain/struct.go:369-393 | the map afterwards is StoreBlock of the map before; the known object is updated in place |
| `SkipBlocks.SkipBlockMap.GetLatest` | omniledger/skipchain/struct.go:488-497 | from any block, stored or not, the loop terminates and ends where the walk along highest links ends, or fails exactly when that walk does |
| `SkipBlocks.SkipBlockMap.VerifyLinks` | omniledger/skipchain/struct.go:434-485 | the checks and the loop over the parent's children compute LinksVerify, with the panic on a predecessor that has no link |
| `SkipchainInvariant.SearchBackStops` | omniledger/skipchain/skipchain.go:124-132 | the back-search stops at the nearest earlier block that is high enough |
| `SkipchainInvariant.BackLinksFound` | omniledger/skipchain/skipchain.go:122-134 | the search from the previous block misses no block, does not pass genesis and yields i - b^h on each level h |
| `SkipchainInvariant.CreateChainKeepsInv` | omniledger/skipchain/skipchain.go:70-95 | creating a chain keeps the invariant of all chains |
| `SkipchainInvariant.CreateEffect` | omniledger/skipchain/skipchain.go:70-95 | a chain is created exactly for 1 <= maximum height <= base, a roster and a nil or known parent; the genesis block has the proposal's data, roster, verifiers, parent and heights, the parent gets one child more, and nothing else changes |
| `SkipchainInvariant.AppendEffect` | omniledger/skipchain/skipchain.go:96-156 | a stored append writes exactly the new block, with the proposal's data and roster and the verifiers of its predecessor, one link of the old tip and one request per higher level |
| `SkipchainInvariant.AppendStoredIff` | omniledger/skipchain/skipchain.go:96-156 | an append succeeds exactly after a known block without successor, run by one of its two or more conodes, if signing completes; otherwise nothing changes and the error tells unknown blocks from the rest |
| `SkipchainInvariant.NewBlockAccepted` | omniledger/skipchain/skipchain.go:384-395 | the conodes accept exactly if the first back-link to the source is on its lowest free level |
| `SkipchainInvariant.AppendKeepsInv` | omniledger/skipchain/skipchain.go:96-156 | appending keeps the invariant and only grows blocks and chains |
| `SkipchainInvariant.NewHashIsFresh` | omniledger/skipchain/skipchain.go:135-136 | the hash of an appended block is that of no stored block, although index and height are not hashed |
| `SkipchainInvariant.RequestTarget` | omniledger/skipchain/skipchain.go:141-149 | a request for level h targets the block b^h before the newest, and both reach that level |
| `SkipchainInvariant.DeliverEffect` | omniledger/skipchain/skipchain.go:246-271 | serving a request changes nothing, or appends one signed link to its target, which then had at most h links |
| `SkipchainInvariant.DeliverAnything` | omniledger/skipchain/skipchain.go:246-275 | any request, from anybody, changes the store exactly if it carries the link to its newest block signed by the roster of its previous one, its target is of the same chain with that level free, and signing completes; then the target gains that link, signed by its roster, and nothing else changes |
| `SkipchainInvariant.DeliverKeepsInv` | omniledger/skipchain/skipchain.go:246-275 | serving any request at any time keeps the invariant |
| `SkipchainRuns.RunBackLinks` | omniledger/skipchain/skipchain.go:107-134 | in every reachable state block i of a chain has its index, its height and exactly the back-links i - b^h |
| `SkipchainRuns.RunVerifiers` | omniledger/skipchain/skipchain.go:110-110 | in every reachable state every block carries the verifiers of the genesis block of its chain |
| `SkipchainRuns.RunIndicesUnique` | omniledger/skipchain/skipchain.go:384-391 | no two blocks of a chain share an index |
| `SkipchainRuns.RunForwardLinks` | omniledger/skipchain/skipchain.go:347-350 | under loss, delay, reordering and repetition every link is signed, leads to a later block of the same chain, the first to the successor, and there are at most height many |
| `SkipchainRuns.RunLatest` | omniledger/skipchain/struct.go:488-497 | the walk along highest links and the walk along level 0 both end at the tip |
| `SkipchainRuns.RunVerifyLinks` | omniledger/skipchain/struct.go:434-485 | every block of every reachable store passes VerifyLinks |
| `SkipchainRuns.VerifyLinksExactly` | omniledger/skipchain/struct.go:434-485 | what VerifyLinks says of any block against any reachable store: with a stored predecessor it passes exactly if it is the chain's own successor of that, and panics if that is the tip |
| `SkipchainRuns.RunLinksGrow` | omniledger/skipchain/struct.go:295-299 | along every run link lists only grow at their end |
| `SkipchainRuns.CopiesConverge` | omniledger/skipchain/skipchain.go:411-426 | copies propagated at any moments of a run, stored in any order, leave the most recent links and the most recent children among them |
| `SkipchainLinks.ServeAccepted` | omniledger/skipchain/skipchain.go:319-361 | a sent request is accepted exactly if its signing round completes and its target has no more links than the request's level |
| `SkipchainLinks.RunAsked` | omniledger/skipchain/skipchain.go:141-156 | in every run every missing link of the skip list has been asked for, and requests of a chain are sent by newest block, then level |
| `SkipchainLinks.ExactIff` | omniledger/skipchain/skipchain.go:347-350 | in every run the l-th link of each block i leads to i + b^l exactly if no request was served while its target lacked a lower link |
| `SkipchainLinks.CompleteIff` | omniledger/skipchain/skipchain.go:136-156 | once every request sent has had a completed signing round, each block links exactly to i + b^e for the levels e below its height that fit, in order, exactly if no service was premature |
| `SkipchainInOrder.InOrderInTime` | omniledger/skipchain/skipchain.go:141-156 | service in the order of sending is never premature |
| `SkipchainInOrder.InOrderSettles` | omniledger/skipchain/skipchain.go:141-156 | and after all requests the run is settled: all served, none too early |
| `SkipchainInOrder.SettledLinks` | omniledger/skipchain/skipchain.go:136-156 | once settled, block j links exactly to j + b^e for the levels e below its height with j + b^e at most the tip |
| `SkipchainInOrder.SettledSymmetric` | omniledger/skipchain/skipchain.go:246-275 | then j links forward to i on level e exactly when i links back to j on level e |
| `SkipchainInOrder.RefusedForeverIff` | omniledger/skipchain/skipchain.go:347-350 | a request is refused in this and every later state exactly if its target has more links than its level |
| `SkipchainOvertaken.LostRequest` | omniledger/skipchain/skipchain.go:347-350 | for every base and height with three levels, a run after which a request that was never served is refused for ever |
| `SkipchainOvertaken.SwappedLinks` | omniledger/skipchain/skipchain.go:347-350 | with four levels, a run after which the links of the genesis block lead to 1, b^3 and b^2 in this order |
| `SkipchainPaths.UpdateChainShortestIff` | omniledger/skipchain/msgs.go:60-64 | in every reachable state the update chain follows the fewest links of all paths to the tip exactly if every block on it has its farthest link last |
| `SkipchainPaths.UpdateChainShortest` | omniledger/skipchain/msgs.go:60-64 | so it does at every moment of every run without premature service |
| `SkipchainOvertaken.NotShortest` | omniledger/skipchain/msgs.go:60-64 | and not in a reachable state with the links swapped, where a path of one link leads to the tip |
| `SkipchainPaths.UpdateChainLength` | omniledger/skipchain/skipchain.go:183-207 | once settled, its links number at most 2(b-1)(m-1) + (tip-j)/b^(m-1) |
| `SkipchainService.ComputeHeight` | omniledger/skipchain/skipchain.go:113-119 | the height loop terminates, also for base 1, with the height of the index |
| `SkipchainService.Service.FindBackLinks` | omniledger/skipchain/skipchain.go:122-134 | the two nested loops compute BackLinks and terminate |
| `SkipchainService.Service.AddForwardLinkTo` | omniledger/skipchain/skipchain.go:469-495 | signs exactly when the level is free and the round completes, and then adds exactly that link |
| `SkipchainService.Service.StoreSkipBlock` | omniledger/skipchain/skipchain.go:65-169 | the new store, requests and reply are those of CreateChain or Append, including every error, and the invariant is kept |
| `SkipchainService.Service.ForwardSign` | omniledger/skipchain/skipchain.go:246-275 | for any request the new store is Deliver of the old one; the invariant is kept for every request that an append can send |
| `SkipchainService.Service.VerifyFollow` | omniledger/skipchain/skipchain.go:319-361 | accepts exactly the requests that BftVerifyFollowBlock accepts |
| `SkipchainService.Service.GetUpdateChain` | omniledger/skipchain/skipchain.go:175-212 | fails only for an unknown block, terminates, and returns the stored blocks of the walk in order |
| `BftCosi.Verify` | omniledger/bftcosi/packets.go:51-102 | the loops decide the equation with reduced key and exception commitments; nothing is accepted without signature and message |
| `BftCosiRun.VerifiesExactly` | omniledger/bftcosi/packets.go:51-102 | for all keys and every signature, whoever made it: accepted exactly if signature and message are there and the response is commitment minus exception commitments plus challenge times the remaining keys |
| `BftCosiTree.CommitTreeSum` | omniledger/bftcosi/bftcosi.go:278-325 | the aggregate commitment of any subtree stands for the sum of its secrets |
| `BftCosiTree.PrepareTreeSum` | omniledger/bftcosi/bftcosi.go:473-495 | the response sent up by any subtree is the sum over its accepting nodes |
| `BftCosiTree.PrepareTreeExceptions` | omniledger/bftcosi/bftcosi.go:594-623 | the exceptions sent up are those of its refusing nodes, in order |
| `BftCosiRun.VerifiesIff` | omniledger/bftcosi/packets.go:51-102 | for genuine exceptions, Verify accepts exactly when the response is the sum over all nodes minus that over the exceptions |
| `BftCosiProtocol.RefusersOnce` | omniledger/bftcosi/bftcosi.go:473-523 | the root lists each refuser exactly once and nobody else |
| `BftCosiProtocol.ExceptionCount` | omniledger/bftcosi/bftcosi.go:473-484 | as many exceptions as refusals |
| `BftCosiProtocol.PreparedVerifies` | omniledger/bftcosi/bftcosi.go:497-523 | for every tree and set of refusers the corrected prepare signature passes Verify |
| `BftCosiProtocol.PartialExceptions` | omniledger/bftcosi/packets.go:60-98 | against only some exceptions it passes exactly when the omitted refusers' responses sum to zero |
| `BftCosiProtocol.DeclinesIff` | omniledger/bftcosi/bftcosi.go:362-379 | a node that is shown only some refusals declines exactly if the omitted responses do not sum to zero or the shown ones reach the threshold |
| `BftCosiProtocol.CommitResponseSum` | omniledger/bftcosi/bftcosi.go:535-588 | in the commit round the response of any subtree is the sum over the nodes that sign |
| `BftCosiProtocol.CommitVerifiesIff` | omniledger/bftcosi/bftcosi.go:535-588 | the commit signature verifies exactly if the responses of the declining nodes, whichever these are, sum to zero |
| `BftCosiProtocol.Outcome` | omniledger/bftcosi/bftcosi.go:352-389 | the root outputs a signature, without exceptions, exactly when fewer than (n+1)*2/3 nodes refused, and otherwise none, with the exceptions; Verify accepts the first kind and rejects the second |
| `BftCosiProtocol.OutputTells` | omniledger/bftcosi/bftcosi.go:213-233 | the output has no signature exactly if the refusals reach the threshold, and then its exceptions name each refuser once and nobody else |
| `BftCosiProtocol.SignatureMeansAcceptance` | omniledger/bftcosi/bftcosi.go:126-126 | with n >= 3f+1 nodes a signature means at least f+1 acceptances |
| `BftCosiProtocol.ThresholdCountsRefusals` | omniledger/bftcosi/bftcosi.go:374-379 | four nodes, two of which refuse, still output a signature |
| `BftCosiNode.ProtocolBFTCoSi.StartCommitment` | omniledger/bftcosi/bftcosi.go:422-425 | a leaf sends its own commitment and keeps the secret in the round it belongs to |
| `BftCosi.CommitSendsOnce` | omniledger/bftcosi/bftcosi.go:278-325 | however the messages of the two rounds are mixed, each round's aggregate is sent once, when all its commitments are there |
| `BftCosiNode.ProtocolBFTCoSi.HandleCommitment` | omniledger/bftcosi/bftcosi.go:287-323 | one message goes into the buffer of its round; a full buffer is aggregated, for the parent or, at the root, for the challenge |
| `BftCosiNode.ProtocolBFTCoSi.HandleCommitments` | omniledger/bftcosi/bftcosi.go:278-325 | a batch of messages of both rounds fills the two buffers in order and sends what CommitSends says |
| `BftCosiNode.ProtocolBFTCoSi.HandleChallengePrepare` | omniledger/bftcosi/bftcosi.go:328-348 | a node that is not the root takes over challenge, message and data; all verify what they then hold, and inner nodes pass the challenge on |
| `BftCosiNode.ProtocolBFTCoSi.HandlePrepareResponses` | omniledger/bftcosi/bftcosi.go:473-495 | sends PrepareResponse of the buffered answers and its own decision |
| `BftCosiNode.ProtocolBFTCoSi.WaitResponseVerification` | omniledger/bftcosi/bftcosi.go:594-623 | a refusal takes the own response out and appends the own exception |
| `BftCosiNode.ProtocolBFTCoSi.HandleChallengeCommit` | omniledger/bftcosi/bftcosi.go:352-389 | the node refuses exactly if it did before, or the prepare signature on the digest of the message fails, or the refusals reach the threshold; all but the root take the challenge |
| `BftCosiNode.ProtocolBFTCoSi.HandleCommitResponses` | omniledger/bftcosi/bftcosi.go:535-588 | sends the aggregate response, without the own one and with the own exception if it declines |
| `MerkleProof.PairSymmetric` | crypto/proof.go:34-37 | the hashed string does not depend on the order of the two nodes |
| `MerkleProof.LexDecided` | crypto/proof.go:35-37 | the first differing byte decides the order, and a prefix comes first |
| `MerkleProof.PairSorted` | crypto/proof.go:34-54 | so the smaller node is hashed first |
| `MerkleProof.PairDetermines` | crypto/proof.go:34-54 | for nodes of one length it determines them up to order |
| `MerkleProof.Calc` | crypto/proof.go:58-66 | the loop from the leaf computes the nested hash from the root's side |
| `MerkleProof.Check` | crypto/proof.go:69-73 | accepts exactly when that hash is the root |
| `MerkleProof.ProofLeadsUp` | crypto/proof.go:164-176 | the siblings of a leaf lead to the hash of its ancestor at every height |
| `MerkleProof.TreeDepth` | crypto/proof.go:125-134 | the loop finds the least d with 2^d >= n |
| `MerkleProof.BuildTree` | crypto/proof.go:137-161 | every stored level holds the hashes of its subtrees and the top level one node, so the "oops" panic is unreachable |
| `MerkleProof.ProofTree` | crypto/proof.go:121-178 | the root of the padded leaves and, per given leaf, its siblings without nil ones; the empty string for no leaves |
| `MerkleMeaning.StoredProofsPass` | crypto/proof.go:121-178 | every proof that ProofTree returns for non-nil leaves passes Check |
| `MerkleMeaning.NilSibling` | crypto/proof.go:166-174 | the shorter proof of a leaf with a nil sibling passes exactly when the leaf is a fixed point of the hash |
| `MerkleMeaning.CheckIff` | crypto/proof.go:69-73 | with leaves of the hash's length, a proof of the tree's depth is accepted exactly when it is the tree's own proof of one of its padded leaves |
| `MerkleMeaning.CheckIffPair` | crypto/proof.go:58-73 | for leaves of any length: exactly when its lowest hashed string is that of a pair of neighbours and the rest is the tree's own |
| `MerkleMeaning.EmptyLeafAccepted` | crypto/proof.go:69-73 | for every hash and tree some proof of the tree's depth is accepted for the empty leaf |
| `MerkleMeaning.ActKeepsHash` | crypto/proof.go:34-54 | swapping sibling subtrees keeps the root, for every hash |
| `MerkleMeaning.EqualRootsIff` | crypto/proof.go:121-162 | two padded lists of leaves have equal roots exactly when one becomes the other by swapping sibling subtrees |
| `MerkleMeaning.EqualRootsIffPairs` | crypto/proof.go:121-162 | for leaves of any length: exactly when the strings of their neighbouring pairs do |
| `MerkleMeaning.UnsizedRoots` | crypto/proof.go:34-54 | two lists with equal roots under every hash that no swapping relates |
| `MerkleMeaning.SubInjective` | crypto/proof.go:137-155 | a tree determines its leaves |
| `Pbft.Threshold` | pbft/pbft.go:85-85 | two thirds of the nodes rounded up |
| `Pbft.Protocol.Broadcast` | pbft/pbft.go:272-279 | every node but the sender, once each, in order |
| `Pbft.Protocol.OnPrePrepare` | pbft/pbft.go:147-182 | the new state is HandlePrePrepare of the old one, and Prepare goes out exactly if the block was verified in the first state |
| `Pbft.Protocol.OnPrepare` | pbft/pbft.go:184-226 | counts, stores or broadcasts Commit as HandlePrepare says |
| `Pbft.Protocol.OnCommit` | pbft/pbft.go:230-255 | counts, stores or finishes as HandleCommit says |
| `PbftSafety.NoSecondQuorum` | pbft/pbft.go:134-140 | the root cannot collect a second quorum of Prepares after its state was set back |
| `PbftSafety.StepKeepsInv` | pbft/pbft.go:129-255 | every delivery, state reset and replay keeps phases, counts and the copies of each message in order |
| `PbftRuns.CommitsOnce` | pbft/pbft.go:199-213 | in every interleaving each node broadcasts Commit at most once and finishes at most once |
| `PbftRuns.VerifiedIff` | pbft/pbft.go:147-170 | in every run a node has broadcast Prepare exactly if the block was delivered to it and its verification accepted it |
| `PbftRuns.FinishedQuorum` | pbft/pbft.go:236-254 | a node has finished only after a threshold of distinct other nodes broadcast Commit |
| `PbftRuns.CommittedQuorum` | pbft/pbft.go:190-213 | a node has broadcast Commit only after a threshold of distinct non-root nodes verified the block |
| `PbftRuns.FinishedVerified` | pbft/pbft.go:236-254 | so finishing implies a threshold of distinct non-root verifiers |
| `PbftRuns.QuorumsMeet` | pbft/pbft.go:85-85 | two finished nodes counted Commits of at least a third of the nodes in common |
| `PbftRuns.SetBackForever` | pbft/pbft.go:134-140 | once set back between its Commit and its finish the root never finishes, whatever happens |
| `PbftRuns.LateReset` | pbft/pbft.go:139-139 | such a state is reachable with three nodes |
| `PbftOutcome.StepKeepsFull` | pbft/pbft.go:129-255 | every step keeps: before its Commit a node has counted or can still count every Prepare sent to it, save the early ones at the root, and before its finish every Commit, unless it was set back |
| `PbftOutcome.CommittedIff` | pbft/pbft.go:190-213 | at rest another node than the root has broadcast Commit exactly if it verified and a threshold of nodes did |
| `PbftOutcome.RootCommittedIff` | pbft/pbft.go:184-213 | at rest the root has broadcast Commit exactly if a threshold of Prepares did not come before its first state |
| `PbftOutcome.FinishedIff` | pbft/pbft.go:230-255 | at rest a node has finished exactly if it committed, a threshold of the others did, and it was not set back in between |
| `PbftOutcome.RootFinishesIff` | pbft/pbft.go:129-255 | in every reachable state at rest the root has finished exactly if verifiers minus early Prepares reach the threshold and no reset came between its Commit and its finish |
| `PbftOutcome.RootFinishesIfAllVerify` | pbft/pbft.go:129-255 | if all others verified: exactly if at most n - 1 - threshold Prepares were early and it was not set back |
| `PbftOutcome.TooEarlyForever` | pbft/pbft.go:184-189 | with more early Prepares the root never commits or finishes, whatever happens |
| `PbftOutcome.EarlyPrepare` | pbft/pbft.go:134-140 | such a state is reachable with three nodes, both others having verified and no reset outstanding |
| `PbftRest.StepLowers` | pbft/pbft.go:129-255 | every step lowers a potential of messages, stores and replays |
| `PbftRest.RunsEnd` | pbft/pbft.go:129-255 | so no run has more steps than the potential it starts with |
| `PbftRest.ComesToRest` | pbft/pbft.go:129-255 | and from every reachable state a state at rest is reached |
| `Propagate.Propagation.Dispatch` | omniledger/messaging/propagate.go:137-187 | the loop takes messages until it stops and sends what Loop says, with the callback of the root at its end |
| `Propagate.LoopExact` | omniledger/messaging/propagate.go:140-187 | on any inputs the loop stops at the first one that ends it; the root calls back exactly then, once and last, with one more than the replies taken; each input taken is stored, acknowledged and passed on as it demands |
| `Propagate.LeafIff` | omniledger/messaging/propagate.go:158-159 | a node without children is one without descendants |
| `PropagateRuns.StoredOnce` | omniledger/messaging/propagate.go:145-163 | no node stores the data twice |
| `PropagateRuns.StepKeepsInv` | omniledger/messaging/propagate.go:144-172 | every delivery keeps the accounting of data, replies and stops |
| `PropagateRuns.StoppedIsQuiet` | omniledger/messaging/propagate.go:158-172 | no message is on its way to a node that has stopped |
| `PropagateRuns.RepliesCounted` | omniledger/messaging/propagate.go:164-172 | in every run, descendants that stored = replies received + replies on their way in the subtree |
| `PropagateRuns.CallbackExact` | omniledger/messaging/propagate.go:180-184 | the callback is called at most once, with n, and only after all n nodes stored |
| `PropagateRuns.Progress` | omniledger/messaging/propagate.go:140-179 | before the callback some message can be handled |
| `PropagateRuns.RunLength` | omniledger/messaging/propagate.go:140-187 | runs are bounded; one that cannot go on has handled one data message per node and one reply per node and ancestor, and has called back |
| `Broadcast.Protocol.Start` | omniledger/messaging/broadcast.go:53-59 | n(n-1)/2 replies and a message to the root |
| `Broadcast.Protocol.HandleContactNodes` | omniledger/messaging/broadcast.go:63-91 | sets the count and contacts exactly the later nodes, or answers |
| `Broadcast.Protocol.RegisterOnDone` | omniledger/messaging/broadcast.go:118-120 | sets the callback, on whatever node |
| `Broadcast.Protocol.HandleDone` | omniledger/messaging/broadcast.go:95-114 | counts down and, at zero, reports to the root; the callback is called exactly if one is registered and the count is zero |
| `BroadcastRuns.StepKeepsInv` | omniledger/messaging/broadcast.go:63-114 | every delivery keeps, for each pair, exactly one of contact on its way, answer on its way, counted |
| `BroadcastRuns.CallbackAfterAllPairs` | omniledger/messaging/broadcast.go:101-105 | the callback fires at most once and only after every pair i < j had its contact delivered |
| `BroadcastRuns.Progress` | omniledger/messaging/broadcast.go:63-114 | before the callback some message is on its way |
| `BroadcastRuns.RunLength` | omniledger/messaging/broadcast.go:63-114 | a run handles at most n(n-1)+1 messages, and one that cannot go on exactly these with one callback |
| `BroadcastRuns.SingleNodeNeverDone` | omniledger/messaging/broadcast.go:69-74 | with one node the callback is never called |
| `Cosi.Node.Commit` | cosi/cosi.go:139-161 | the loop sums the children's commitments with their aggregates, and the own one is added for the aggregate |
| `Cosi.Node.CreateChallenge` | cosi/cosi.go:165-176 | fails without aggregate commitment, else the challenge of it |
| `Cosi.Node.GenResponse` | cosi/cosi.go:271-288 | fails exactly without key, secret or challenge, else v - c*x |
| `Cosi.Node.Respond` | cosi/cosi.go:194-216 | sums the children's responses and adds the own one |
| `Cosi.Node.VerifyResponses` | cosi/cosi.go:247-260 | accepts exactly when the recreated commitment is the aggregate one |
| `Cosi.CommitUpSum` | cosi/cosi.go:139-161 | what any subtree sends up stands for the sum of its secrets |
| `Cosi.RespondUpSum` | cosi/cosi.go:194-216 | and its responses for secrets minus challenge times keys |
| `Cosi.ResponsesVerify` | cosi/cosi.go:247-260 | for every tree and challenge the root passes VerifyResponses |
| `Cosi.SignatureVerifies` | cosi/cosi.go:292-314 | for every tree and message the signature verifies under the sum of all keys |
| `Cosi.VerifySignature` | cosi/cosi.go:292-314 | accepts exactly if the challenge is that of the commitment secret + key * challenge and the message |
| `Cosi.VerifiesExactly` | cosi/cosi.go:292-314 | the same for a key that stands for a given private key |
| `Cosi.SignatureFor` | cosi/cosi.go:292-314 | for every tree the signature of one message is accepted for another exactly if the round's commitment has one challenge with both |
| `Cosi.AlteredResponse` | cosi/cosi.go:292-314 | with any other response exactly if the commitment that is off by the difference has the same challenge |
| `Cosi.VerifySignatureWithException` | cosi/cosi.go:320-336 | the loop adds the exceptions' commitments to the commitment recreated with the full key |
| `Cosi.ExceptionsRecreate` | cosi/cosi.go:320-336 | after honest refusals that is off by the challenge times the refusers' keys, and right exactly when this vanishes |
| `Cosi.ExceptionsAccepted` | cosi/cosi.go:320-336 | the check accepts if that product vanishes, and in general exactly if the challenge is also that of the commitment that is off |
| `Cosi.ExceptionsWrong` | cosi/cosi.go:320-336 | with two nodes, one of which refuses, and a group of order five the recreated commitment is wrong |
| `BlkParser.DecodeVariableLengthInteger` | byzcoin_lib/protocol/blockchain/blkparser/utils.go:13-29 | the loop reads the little-endian value of one of the four forms |
| `BlkParser.VarIntRoundTrip` | byzcoin_lib/protocol/blockchain/blkparser/utils.go:13-29 | decoding an encoded count gives it back as a signed 64-bit integer if its form is short or more input follows, and else 0 |
| `BlkParser.LongForms` | byzcoin_lib/protocol/blockchain/blkparser/utils.go:17-28 | every long form, also one that is longer than needed, is read as its value, as a signed 64-bit integer |
| `BlkParser.HashString` | byzcoin_lib/protocol/blockchain/blkparser/utils.go:46-51 | 64 digits: two for each of the 32 bytes, the last byte first |
| `BlkParser.HexAt` | byzcoin_lib/protocol/blockchain/blkparser/utils.go:46-51 | characters 2i and 2i+1 are the high and the low digit of byte n-1-i |
| `BlkParser.HexInjective` | byzcoin_lib/protocol/blockchain/blkparser/utils.go:46-51 | that string determines the bytes |
| `BlkTransactions.InRoundTrip` | byzcoin_lib/protocol/blockchain/blkparser/tx.go:89-104 | an encoded input in front of anything is read back with its length |
| `BlkTransactions.OutRoundTrip` | byzcoin_lib/protocol/blockchain/blkparser/tx.go:106-128 | so is an output |
| `BlkTransactions.ReadMany` | byzcoin_lib/protocol/blockchain/blkparser/tx.go:66-81 | lists of readable things, one behind the other, are read back |
| `BlkTransactions.TxRoundTrip` | byzcoin_lib/protocol/blockchain/blkparser/tx.go:54-87 | so is a transaction, with its counts as uint32 |
| `BlkTransactions.RoundTrip` | byzcoin_lib/protocol/blockchain/blkparser/tx.go:36-52 | ParseTxs on the wire form of any list of well-formed transactions, whatever follows, returns their fields, the hash of each one's bytes and their number as size |
| `BlkTruncated.CountPrefix` | byzcoin_lib/protocol/blockchain/blkparser/utils.go:13-29 | a count cut after any number of bytes: a panic, 0 or its value |
| `BlkTruncated.HugeCount` | byzcoin_lib/protocol/blockchain/blkparser/utils.go:22-28 | counts of 2^63 and more come out negative and panic in every place |
| `BlkTruncated.InTruncated` | byzcoin_lib/protocol/blockchain/blkparser/tx.go:89-104 | every proper prefix of an encoded input panics |
| `BlkTruncated.OutTruncated` | byzcoin_lib/protocol/blockchain/blkparser/tx.go:106-128 | so does every proper prefix of an output, except one cut right behind a long count, which is read with an empty script |
| `BlkTruncated.TxTruncated` | byzcoin_lib/protocol/blockchain/blkparser/tx.go:54-87 | every proper prefix of an encoded transaction panics |
| `BlkTruncated.TruncatedIff` | byzcoin_lib/protocol/blockchain/blkparser/tx.go:36-52 | ParseTxs on any proper prefix of any list of transactions panics, except within or right behind a long count, where it returns no transactions |
| `BlkReader.ReadLoop` | byzcoin_lib/protocol/blockchain/blkparser/tx.go:65-81 | the loops with an advancing offset compute ParseMany, panics included |
| `BlkReader.NewTx` | byzcoin_lib/protocol/blockchain/blkparser/tx.go:54-87 | on every input the transaction and its length, or the panic, of ParseTx |
| `BlkReader.ParseTxs` | byzcoin_lib/protocol/blockchain/blkparser/tx.go:36-52 | on every input the result, or the panic, of ParseAll |
| `Interpolation.GetIndex` | omniledger/read_files.go:47-72 | the two scans compute IndexValue, panics included |
| `Interpolation.GetValue` | omniledger/read_files.go:31-45 | the result, or panic, of Value |
| `Interpolation.IndexPanics` | omniledger/read_files.go:54-65 | a scan leaves the array, or the division fails, exactly on an unknown day that is day 0 or has no known day after it |
| `Interpolation.IndexRounds` | omniledger/read_files.go:54-71 | an unknown day's value lies on the line between the known days around it, rounded towards the earlier one |
| `Interpolation.DayBounds` | omniledger/read_files.go:66-71 | a day's value lies between those of the known days around it |
| `Interpolation.DayMonotone` | omniledger/read_files.go:47-72 | day values do not decrease if known ones do not |
| `Interpolation.ValueOnDay` | omniledger/read_files.go:31-45 | on every day the value is that day's, on a known day the known one |
| `Interpolation.ValueRounds` | omniledger/read_files.go:31-45 | within a day the value lies on the line to the next day, rounded towards the day; it panics exactly if one of the two days does |
| `Interpolation.ValueOutside` | omniledger/read_files.go:32-35 | further out it is -1, and less than a day before the table the first line is continued backwards |
| `Interpolation.ValueMonotone` | omniledger/read_files.go:31-45 | from the first to the last day there is no panic and no decrease |
| `Interpolation.PastTheEnd` | omniledger/read_files.go:33-40 | p parts past the last day the value is still the last one exactly when (last+2)*p < ppv, else smaller |
| `Interpolation.AfterTheEnd` | omniledger/read_files.go:33-50 | a day past the end it is -2 |

## Left out

- Skipchain: fetching missing blocks from other conodes (omniledger/skipchain/skipchain.go:225-242, 277-315), rosters that change between blocks, saving and loading, fuzzy search; one store and one set of verifiers is modelled.
- Skipchain: the verification functions that applications register for verifier identifiers (omniledger/skipchain/skipchain.go:397-406); like everything else that decides a signing round they are part of whether it completes.
- Skipchain: a failing propagation. At omniledger/skipchain/skipchain.go:136-160 the new block is stored only by the propagation, after its predecessor's link is signed; in the model both happen together, where a failure would leave a signed link to a block that no store holds.
- SkipchainService.Service.StoreSkipBlock: a proposal to append comes with no forward links and no children, and with a roster, because the append branch neither clears nor checks them.
- SkipchainService.Service.ForwardSign: keeps the invariant only for requests that an append can have sent; the effect on the store is stated for every request.
- SkipchainService.Service.GetUpdateChain: the test whether this conode is in the roster and the fetching of missing blocks are not modelled.
- SkipBlocks.SkipBlockMap.GetLatest: asks for a store whose links lead to higher indices, because the loop need not end otherwise; every reachable store is one.
- BFTCoSi: message loss, timeouts and nodes that deviate from the protocol; all nodes answer and refuse only by their verification function. The near copies of the package elsewhere in the repository are not modelled again.
- BftCosiProtocol.Outcome: speaks of trees of at least one node; a single-node tree is treated as a root that aggregates its own share, where the program would wait for children.
- Unforgeability of signatures and hardness of hashes.
- Merkle: paths through blobs (crypto/proof.go:184-223), and hashes of size zero, for which a stored node could be nil.
- PBFT: the block's contents and hash (messages are represented by their senders), view changes, and the Finish message, which only ends a node's participation and so removes steps. One replay goroutine of each kind is kept per node, which the at-most-once theorem justifies.
- Propagation and broadcast: failing sends and the marshalling of the data; the tree is numbered so that parents come before children, and node 0 is the root.
- Propagate.Propagation.Dispatch: the branch taken on a timeout is not modelled.
- Broadcast.Protocol.HandleContactNodes: a failing send, which ends the loop over the nodes to contact, is not modelled.
- Cosi: key generation and the announcement phase; leaves use CreateCommitment and CreateResponse, inner nodes Commit and Response.
- BlkParser.DecodeVariableLengthInteger: the bitwise or of non-overlapping bytes is a sum.
- BlkTransactions: the double SHA-256 and the extraction of addresses are parameters; slices are bounded by the input's length, not by spare capacity behind it.
- Interpolation: 64-bit overflow of intermediate products, and reading the CSV file.
- ByzCoin's own protocol and its priority queues, ntree, gossip, random peer choice, the VRF code, simulations, networking and logging.
