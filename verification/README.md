# XBT client and tracker: a verified model

The modules in this directory model the hashing, allocation, bookkeeping and
codec code of the XBT BitTorrent client and the peer tables of the XBT tracker,
and prove what this code is for. `dafny verify dfyconfig.toml` checks all of it.

| Part | Modules |
|---|---|
| Merkle hash tree of section 2 of draft-jchapweske-thex-02 | `MerkleShape`, `MerkleSpec`, `MerkleProofs`, `MerkleSoundness`, `MerkleFill`, `MerkleTree`, `MerkleStream`, `MerkleFiles`, `MerklePieces`, `MerkleDownload`, `MerkleBinding` |
| Upload allocators | `SendQuota`, `Unchoke` |
| Download bookkeeping | `TorrentLayout`, `FileRange`, `TorrentInfo`, `Piece`, `Torrent`, `Hasher`, `Availability`, `Stranded` |
| Peer byte stream | `RingBuffer`, `Framing` |
| Tracker peer tables | `Tracker` |
| Codecs and hash | `StreamInt`, `Sha1`, `Sha1Vectors`, `Bencode`, `Xif`, `XifKey` |
| Shared | `Arithmetic`, `Wrappers` |

Objects whose methods change them are classes whose methods are proved against
functions on values; the laws are lemmas about these functions.

- The Merkle tree is an array of cells; its meaning is a map from (level, index)
  to known hashes. The inner hash is a function parameter. Soundness holds for any
  function: a run that ends with a false leaf has been sent a collision. Torrents
  hash into 20 bytes, as `internal_hash` asserts (`xbt/BT Test/merkle_tree.cpp:6-7`)
  and `Sha1.Digest` does.
- What sockets take or deliver, what a failed read leaves in its buffer, random
  choices and orders of equal links are arbitrary. Which files the operating
  system creates and opens is a field of the torrent that may change between calls
  (`Torrent.System`). Time is a parameter, and so are compression and the digest.
- Bytes are numbers below 256. Widths are written out where they matter: the
  32-bit piece index of `write_data`, 32-bit differences in XIF files, `atoi` and
  `atoll`, the 64-bit length of SHA-1.

## Where the code falls short

These are results of the model, each with the exact condition.

- After `test_and_set`, leaves are sound but inner nodes are not:
  `MerkleSoundness.InnerNodeForged`, `MerkleSoundness.ForgeableIff`.
- `compute_root` steps past the end of its input unless its length is a multiple
  of 1024 (`MerkleStream.ComputeRoot`); the torrent maker's loop does not.
- A Merkle torrent whose piece length is not a power of two is accepted, and its
  files may not lie in their pieces: `TorrentInfo.OddPieceLengthFails`,
  `TorrentInfo.MerkleLayoutOkIff`.
- `Cbt_file::open` looks for the pieces of a missing file without the padding of
  Merkle torrents, and invalidates others: `Hasher.LostIffInPlace` is the exact
  condition, `Hasher.WrongPieceLost` two files for which it fails.
- `Cbt_hasher::run` counts the chunks of a Merkle torrent piece by piece. With
  pieces that are not whole chunks of 32 KiB, which are accepted, it is wrong from
  the second piece of a file on, and may leave the tree:
  `Hasher.Hasher.ChunkIsRightIff` is the exact condition, `Hasher.Hasher.LeafBehindLast`
  and `Hasher.ReachLeafBehind` a run behind the last leaf.
- `read_piece` takes a request off its list before the chunk may be refused for its
  size. The sub-piece then stays asked of the link, also when the link is gone:
  `Availability.Swarm.ReadPiece` is the exact condition, `Stranded.LastChunkRefused`
  a run, and `Stranded.StaysStranded` says that it stays so for ever.
- `Cxif_key::get_size` counts a float four bytes too large, and a file with a
  float in its tree loads with an error: `XifKey.GetSize`, `Xif.FileRoundTrip`.
- `Cserver::read_db_users` of the tracker drops users whose peers remain. When such
  a user is read again his counters start at zero: `Tracker.RereadCountedIff` is
  the exact condition, `Tracker.RereadGoesNegative` a run that ends at -1.

`Cbt_file::write_data` cuts the piece index to 32 bits (`Torrent.Torrent.IndexWraps`),
so that it would take a chunk 2^32 pieces further on and write it nowhere. No caller
passes such an offset: `read_piece` passes only those of its own requests, and
`read_merkle_piece` those that `test_and_set_hashes` finds in a file.

## Model

| member | source | states |
|---|---|---|
| MerkleSoundness.OnlyTrueUnlessCollision | xbt/BT Test/merkle_tree.cpp:65-175 | for any hash function: from a tree that knows only the true root, after any run of `test_and_set` calls whose hashes and proofs hold no collision with a pair of the true tree, every known leaf is the true leaf, `test` accepts nothing else for a leaf but with a proof that holds a collision, and the true hash with the true proof is still accepted |
| MerkleSoundness.FalseLeafCollides | xbt/BT Test/merkle_tree.cpp:65-175 | for any hash function: if a leaf is known that is not the true one, one of the offers holds a pair of hashes, computed from its `hash` and `chain` alone, that is not a pair of the true tree and has the hash of one |
| MerkleSoundness.CollisionForges | xbt/BT Test/merkle_tree.cpp:65-165 | the other direction on the level of the leaves: a pair of hashes that collides with a pair of true leaves makes one accepted offer after which a false leaf is known |
| MerkleSoundness.TrueOffersAreClean | xbt/BT Test/merkle_tree.cpp:45-90 | true hashes with true proofs hold no collision, whatever the hash function is |
| MerkleProofs.CollisionOf | xbt/BT Test/merkle_tree.cpp:65-90 | the pair of hashes found by walking up the offers is a collision with a pair of the true tree |
| MerkleSoundness.OnlyTrueLeaves | xbt/BT Test/merkle_tree.cpp:65-175 | with a hash function for which no other pair collides with a pair of the true tree: from a tree that knows only the true root, after any run of `test_and_set` calls with any hashes and proofs: every known leaf is the true leaf, `test` accepts nothing but the true hash of a leaf, and the true hash with the true proof is still accepted |
| MerkleSoundness.InjectiveSuffices | xbt/BT Test/merkle_tree.cpp:4-13 | an injective inner hash meets that hypothesis; a hash of two strings of 20 bytes into 20 bytes is not injective, so that there the theorem for any hash function applies |
| MerkleSoundness.RunKeepsInv | xbt/BT Test/merkle_tree.cpp:159-165 | the invariant behind soundness (what is known outside the entered part of the tree is true) holds after any run of offers that hold no collision |
| MerkleSoundness.StepKeepsInv | xbt/BT Test/merkle_tree.cpp:134-157 | one accepted proof that holds no collision keeps that invariant, with the path of its leaf entered |
| MerkleSoundness.InnerNodeForged | xbt/BT Test/merkle_tree.cpp:134-157 | inner nodes are not sound: two accepted proofs in a tree of four leaves store a hash of the sender's choice in an inner node |
| MerkleSoundness.ForgeableIff | xbt/BT Test/merkle_tree.cpp:134-157 | exactly when an accepted proof of a leaf can store a false hash: when the first sibling at or above the first known node of its path is still unknown |
| MerkleProofs.AcceptedIsTrue | xbt/BT Test/merkle_tree.cpp:65-90 | a proof that holds no collision and is accepted against a true known node proves a true hash, and its first hash is the true sibling |
| MerkleProofs.TestOfTrueChain | xbt/BT Test/merkle_tree.cpp:65-90 | the true proof is accepted if and only if the first known node of the path is true |
| MerkleProofs.ProofIsComplete | xbt/BT Test/merkle_tree.cpp:45-90 | a proof taken from a complete tree is accepted by every verifier whose known nodes agree with that tree, for every leaf, also on promoted paths |
| MerkleProofs.ExtractIsChain | xbt/BT Test/merkle_tree.cpp:45-63 | `get(i, c)` with enough or unlimited levels gives the whole chain of siblings |
| MerkleProofs.CachedIsTrue | xbt/BT Test/merkle_tree.cpp:134-157 | what an accepted proof that holds no collision caches outside the entered part is true |
| MerkleProofs.CachedFills | xbt/BT Test/merkle_tree.cpp:134-157 | an accepted proof leaves no child of its path unknown |
| MerkleProofs.CachedKeys | xbt/BT Test/merkle_tree.cpp:134-157 | a proof caches unknown siblings of its path only |
| MerkleProofs.WalkEndsTrue | xbt/BT Test/merkle_tree.cpp:65-90 | the walk of `test` from a node that was not entered ends at a true node |
| MerkleFill.FillIsOrderIndependent | xbt/BT Test/merkle_tree.cpp:106-132 | after setting any leaves in any order, a node is known if and only if all leaves below it are, and then holds its level-by-level hash |
| MerkleFill.FillCompletes | xbt/BT Test/merkle_tree.cpp:106-132 | setting every leaf in any order makes the whole reference tree, with the recursive root on top |
| MerkleFill.KnownIffLeavesKnown | xbt/BT Test/merkle_tree.cpp:106-132 | the same for any tree that meets the fill invariant |
| MerkleFill.SetLeafKeepsInv | xbt/BT Test/merkle_tree.cpp:106-132 | setting a leaf keeps the fill invariant and adds that leaf only |
| MerkleFill.ClimbFills | xbt/BT Test/merkle_tree.cpp:106-132 | the climb from a new node fills in exactly the parents whose children are known |
| MerkleShape.MerkleTreeSize | xbt/misc/bt_misc.cpp:306-317 | `merkle_tree_size` is the number of cells of all levels |
| MerkleShape.CellsAreDistinct | xbt/BT Test/merkle_tree.cpp:45-63 | in the flat array no two nodes share a cell |
| MerkleShape.NodeFits | xbt/BT Test/merkle_tree.cpp:20-25 | every node of the tree lies in the array |
| MerkleShape.CellHasNode | xbt/BT Test/merkle_tree.cpp:20-25 | every cell of the array is some node's |
| MerkleShape.HeightExact | xbt/BT Test/merkle_tree.cpp:45-63 | the level walk `while (b - a >= 2)` ends at the root and not before |
| MerkleShape.NextLevel | xbt/BT Test/merkle_tree.cpp:45-63 | one step of the level walk goes from a node to its parent |
| MerkleSpec.RootIsTopLevel | xbt/BT Test/merkle_tree.cpp:206-238 | the recursive root is the one hash of the top level, with odd nodes promoted |
| MerkleSpec.TreeOfIsTree | xbt/BT Test/merkle_tree.cpp:106-132 | the levels of a list of leaves form a tree in which every parent is the hash of its children, or a promoted child |
| MerkleTree.MerkleTree.Resize | xbt/BT Test/merkle_tree.cpp:20-25 | makes the array of exactly the right size, nothing known |
| MerkleTree.MerkleTree.Invalidate | xbt/BT Test/merkle_tree.cpp:27-30 | forgets every node |
| MerkleTree.MerkleTree.Set0 | xbt/BT Test/merkle_tree.cpp:99-104 | writes one cell, which changes one node |
| MerkleTree.MerkleTree.Has | xbt/BT Test/merkle_tree.cpp:92-97 | tells whether a leaf is known |
| MerkleTree.MerkleTree.Get | xbt/BT Test/merkle_tree.cpp:32-43 | reads a leaf |
| MerkleTree.MerkleTree.Root | xbt/BT Test/merkle_tree.cpp:167-170 | reads the last cell, which is the root |
| MerkleTree.MerkleTree.SetRoot | xbt/BT Test/merkle_tree.cpp:172-175 | sets the root and nothing else |
| MerkleTree.MerkleTree.Proof | xbt/BT Test/merkle_tree.cpp:45-63 | the level walk over the array collects the siblings of the path |
| MerkleTree.MerkleTree.Test | xbt/BT Test/merkle_tree.cpp:65-90 | the level walk over the array decides as the recursive test does |
| MerkleTree.MerkleTree.SetLeaf | xbt/BT Test/merkle_tree.cpp:106-132 | the level walk over the array sets what the recursive climb sets |
| MerkleTree.MerkleTree.SetProof | xbt/BT Test/merkle_tree.cpp:134-157 | the level walk over the array caches what the recursive walk caches |
| MerkleTree.MerkleTree.TestAndSet | xbt/BT Test/merkle_tree.cpp:159-165 | tests, and stores only what was accepted |
| MerkleStream.ComputeRoot | xbt/BT Test/merkle_tree.cpp:206-238 | the binary counter gives the level-by-level root of the 1 KiB blocks for any multiple of 1024 bytes; for every other length the cursor steps past the end |
| MerkleStream.TorrentRoot | xbt/Client/dlg_make_torrent.cpp:252-287 | the torrent maker's loop gives the level-by-level root for every file |
| MerklePieces.WholeFile | xbt/BT Test/bt_hasher.cpp:24-74 | a file of a Merkle torrent that is all there and has no tree yet: its pieces are valid exactly if the root that the torrent maker computes over its blocks is the published one |
| MerkleDownload.ValidPiecesAreTrue | xbt/BT Test/bt_hasher.cpp:24-41 | from the wire to the disk, for any hash function: when the tree of a file started from the root of its true chunks and took any offers that hold no collision, a piece that is hashed again is valid if and only if it can be read, has the true chunks, and these have been accepted |
| MerkleDownload.WrongPieceCollides | xbt/BT Test/merkle_tree.cpp:4-13 | for the hash of `internal_hash` with any digest: if that fails for a piece, two different messages of 41 bytes with the same digest are found, one in the offers and one in the true tree |
| MerkleDownload.SomeDigestIsSafe | xbt/BT Test/merkle_tree.cpp:4-13 | hashes have 20 bytes, and so for any two leaves there is a digest such that no other pair of hashes collides with theirs |
| MerkleBinding.RootBindsFile | xbt/BT Test/merkle_tree.cpp:206-238 | for any digest and any two byte strings that are not empty and differ, of any lengths: with one root they give two different messages of one digest, one hashed for each, of blocks behind a zero byte or of pairs of hashes behind a one |
| MerkleBinding.HashesOf | xbt/BT Test/merkle_tree.cpp:4-13 | a block is hashed behind a zero byte and two nodes behind a one, so that no message of a block is one of two nodes |
| MerkleBinding.BlocksAreHashed | xbt/Client/dlg_make_torrent.cpp:255-267 | the root is that of the level-by-level tree over the hashes of the blocks of 1024 bytes, the last one shorter |
| MerkleBinding.BlocksJoined | xbt/Client/dlg_make_torrent.cpp:255-267 | these blocks, one behind the other, are the file, and all but the last have 1024 bytes |
| MerkleBinding.RootSplits | xbt/BT Test/merkle_tree.cpp:206-238 | the root of more than one leaf is the hash of two roots, the left one over the largest power of two of leaves below their number |
| MerkleBinding.BlocksBound | xbt/BT Test/merkle_tree.cpp:206-238 | the same for any two lists of blocks |
| MerkleBinding.ValidFileIsPublished | xbt/BT Test/bt_hasher.cpp:24-74 | a file with an empty tree of which a run finds a piece valid is the one whose root was published, or there is such a collision |
| MerkleDownload.KnownIsTrue | xbt/BT Test/bt_hasher.cpp:32-36 | in a tree of true leaves, leaves are known to be certain hashes if and only if these are true and the leaves are there |
| MerkleSoundness.RunKeepsRoot | xbt/BT Test/merkle_tree.cpp:134-165 | no run of offers loses or changes the root |
| MerklePieces.RootIsNotEnough | xbt/BT Test/bt_hasher.cpp:32-36 | with a tree that knows only the published root, no piece of a file of more than one chunk is valid |
| MerklePieces.ZeroRootIsTaken | xbt/BT Test/bt_hasher.cpp:26-38 | a published root of twenty zeros is that of an empty tree: no piece of such a file is valid, and its tree stays empty |
| MerklePieces.CounterIsRightIff | xbt/BT Test/bt_hasher.cpp:29-40 | what a run has counted when it comes to a piece of a file is where the piece starts if and only if pieces are whole chunks of 32 KiB, or the piece is the first of its file |
| MerklePieces.CounterStep | xbt/BT Test/bt_hasher.cpp:29-40 | every piece adds its chunks to the counter, which is then as many for each piece as a full piece has |
| Hasher.Hasher.ChunkIsRightIff | xbt/BT Test/bt_hasher.cpp:14-87 | the same of the counter of the hasher in any run that checks a Merkle torrent, at every piece |
| MerklePieces.LeavesStep | xbt/BT Test/bt_hasher.cpp:29-40 | the leaves of a file's pieces follow one another and end with its last leaf |
| MerklePieces.PieceIsRead | xbt/BT Test/bt_hasher.cpp:27-28 | a piece of an aligned file can be read exactly if the file holds its bytes, and is those bytes |
| MerklePieces.ProgressJudge | xbt/BT Test/bt_hasher.cpp:24-41 | one piece further: pieces are compared with a tree that has the published root, and entered in a tree that is empty |
| MerklePieces.ProgressEnd | xbt/BT Test/bt_hasher.cpp:61-74 | the end of a file: its tree is kept, or reset to the published root with no piece valid |
| MerkleFiles.JudgeChunks | xbt/BT Test/bt_hasher.cpp:29-40 | the chunks of a piece are compared with the leaves from the counter on, or become these leaves |
| MerkleFiles.HashChunk | xbt/BT Test/bt_hasher.cpp:31 | the hash of each chunk is the root of its blocks, when it is made of whole blocks |
| MerkleFiles.ExtendCompletes | xbt/BT Test/bt_hasher.cpp:38 | setting all leaves in order makes the reference tree, with the recursive root |
| MerkleFiles.RootOfPart | xbt/BT Test/bt_hasher.cpp:26 | before the last leaf is set the root is not known |
| Hasher.Hasher.LeafBehindLast | xbt/BT Test/bt_hasher.cpp:32-39 | a file of 32 KiB in pieces of 16 KiB: every run counts the chunk of the second piece as a leaf behind the last |
| Hasher.ReachLeafBehind | xbt/BT Test/bt_hasher.cpp:14-87 | such a run, for any content and root of the file |
| Hasher.SmallPiecesAccepted | xbt/BT Test/bt_file.cpp:57-112 | metadata with such a file is accepted, and its tree has one leaf |
| MerkleStream.ChunkingComposes | xbt/BT Test/bt_hasher.cpp:29-40 | the tree over the roots of 32 KiB chunks has the root the torrent maker computes over all 1 KiB blocks |
| MerkleStream.RunRootsAreLevel | xbt/BT Test/merkle_tree.cpp:206-238 | the roots of runs of a power of two of leaves are a level of the tree over all of them |
| MerkleStream.AddBlock | xbt/BT Test/merkle_tree.cpp:218-226 | inserting a block carries like a binary counter |
| MerkleStream.CarryCounts | xbt/BT Test/merkle_tree.cpp:218-226 | a carry keeps the counter's invariant: an entry for every odd level, each the root of its run |
| MerkleStream.Fold | xbt/BT Test/merkle_tree.cpp:229-236 | folding the entries from the lowest up gives the root of all blocks |
| SendQuota.PassIsFair | xbt/BT Test/server.cpp:542-558 | a pass allots a water level: every link gets its demand or the level, give or take a byte, and all together exactly min(quota, sum of demands) |
| SendQuota.ShortLinksAreServedBest | xbt/BT Test/server.cpp:542-558 | no link gets more than a byte more than a link that was cut short |
| SendQuota.Server.Pass | xbt/BT Test/server.cpp:544-558 | one pass: every link is sent its allotment less what it leaves, what is left goes back to the quota, and quota plus bytes sent is what it was |
| SendQuota.Server.SendAll | xbt/BT Test/server.cpp:542-559 | all passes: they end, with no quota or no link left, and quota plus bytes sent is what it was, whatever the sockets take |
| SendQuota.PassProgresses | xbt/BT Test/server.cpp:542-559 | links plus quota go down with every pass |
| SendQuota.Collect | xbt/BT Test/server.cpp:516-539 | a peer that can send is in the list exactly if something is queued, or it is not choked and has a request; the list is in order of demand, each peer once; in an ordinary torrent the demand is the length by which all that is owed extends what was sent |
| SendQuota.PeerLink.Send | xbt/BT Test/bt_peer_link.cpp:257-314 | the quota goes down by exactly the bytes sent, the bytes sent are a prefix of the stream the link owes, and a link that would not compete gives the whole quota back; what an ordinary link owes in all keeps its length |
| SendQuota.PeerLink.Taken | xbt/BT Test/bt_peer_link.cpp:294-311 | a partial send cuts the first buffer and keeps the byte stream |
| SendQuota.AllotIsPlanned | xbt/BT Test/server.cpp:545-556 | the quota left after every link of a pass |
| SendQuota.PeerLink.WorkIsDemand | xbt/BT Test/bt_peer_link.cpp:209-222 | a link has a demand exactly if something is queued, or it is not choked and has a request |
| SendQuota.PeerLink.DemandIsOwed | xbt/BT Test/bt_peer_link.cpp:209-222 | for a link of an ordinary torrent whose requests are answered by size + 13 bytes and whose haves have 9, the demand is the length by which everything owed extends what was sent |
| SendQuota.PeerLink.MerkleDemand | xbt/BT Test/bt_peer_link.cpp:209-222 | in a Merkle torrent the hashes behind a block are not counted: the demand is at most that length, and equal to it without hashes |
| SendQuota.PeerLink.NextBuffer | xbt/BT Test/bt_peer_link.cpp:261-278 | a request is answered when nothing is queued, and there is nothing to send exactly if there is no work or the answer failed |
| SendQuota.WorkCompetes | xbt/BT Test/server.cpp:518-539 | a peer is collected exactly if it can send and has work |
| Unchoke.UpdateChokes | xbt/BT Test/server.cpp:997-1070 | the goals of all links are what the three passes over the sorted list of candidates say; stated with the settings and goals alone: a torrent has more unchoked interested links than its `slotsMax` > 0 only if no candidate is choked whose torrent has `slotsMax` 0 or is below its own, every torrent reaches its minimum or has no choked candidate left if there are slots for all minimums, no more slots are charged than there are and none is left while a candidate is choked, and of two candidates of a torrent of the same list the one that comes first is not passed over |
| Unchoke.SlotsAreRespected | xbt/BT Test/server.cpp:1026-1068 | slots charged never exceed the slots there are, each charged link counts once, and slots left over mean that every candidate is unchoked |
| Unchoke.MinimumsAreReached | xbt/BT Test/server.cpp:1026-1068 | with enough slots for all minimums every torrent reaches its own, or all its candidates are unchoked |
| Unchoke.MaximumsAreKept | xbt/BT Test/server.cpp:1026-1068 | a torrent passes its maximum only if no torrent below its own has a choked candidate |
| Unchoke.PassIsThorough | xbt/BT Test/server.cpp:1027-1068 | a pass ends with no slot left, or the candidate unchoked, or the torrent's limit reached |
| Unchoke.PassIsLimited | xbt/BT Test/server.cpp:1027-1068 | the first pass stops at the minimum, the second at the maximum |
| Unchoke.PassesAccounted | xbt/BT Test/server.cpp:1026-1068 | the remaining limits and slots agree with the links charged, after any number of passes |
| Unchoke.GoalsHold | xbt/BT Test/server.cpp:1022-1068 | the laws of the passes, said of the settings of torrents and the goals of links |
| Unchoke.PassesKeepOrder | xbt/BT Test/server.cpp:1026-1068 | of two candidates of one torrent that are both charged or both not, the first is not choked if the second is unchoked |
| Unchoke.ChargedSum | xbt/BT Test/server.cpp:1031-1042 | the slots charged to all torrents are those charged in all |
| Unchoke.RunPasses | xbt/BT Test/server.cpp:1027-1068 | the nested loops do the three passes, also when they stop early |
| Unchoke.Sort | xbt/BT Test/server.cpp:1006-1023 | candidates are sorted into three lists, and the goals of all other links set |
| Unchoke.Classify | xbt/BT Test/server.cpp:1010-1020 | when a link competes, and its goal when it does not |
| RingBuffer.RingBuffer.Windows | xbt/BT Test/ring_buffer.h:30-69 | `cb_read` + `cb_write` is the capacity; the read window is empty only if the buffer is empty and the write window only if it is full |
| RingBuffer.RingBuffer.Skip | xbt/BT Test/ring_buffer.h:41-48 | `cb_r(v)` drops a prefix |
| RingBuffer.RingBuffer.Advance | xbt/BT Test/ring_buffer.h:71-76 | `cb_w(v)` appends what was stored in the write window |
| RingBuffer.RingBuffer.Write | xbt/BT Test/ring_buffer.cpp:4-15 | `write` within the free space appends |
| RingBuffer.RingBuffer.Combine | xbt/BT Test/ring_buffer.cpp:31-43 | `combine` keeps the contents and makes them contiguous |
| RingBuffer.RingBuffer.Resize | xbt/BT Test/ring_buffer.cpp:17-29 | `size` empties the buffer and sets its capacity |
| Framing.PeerStream.PostSelect | xbt/BT Test/bt_peer_link.cpp:113-139 | the messages delivered are those of the byte stream received so far, however receives split it and wherever the ring wraps, and there is room to receive afterwards |
| Framing.ParseIsIncremental | xbt/BT Test/bt_peer_link.cpp:113-139 | parsing the rest of one part together with the next part gives the messages of the whole |
| Framing.RestIsUnfinished | xbt/BT Test/bt_peer_link.cpp:113-139 | what is left holds no whole message and fits 4 + 32 KiB bytes |
| Framing.FramedParses | xbt/BT Test/bt_peer_link.cpp:116-132 | messages of 1 to 32768 bytes, each behind its length in four big-endian bytes, parse to these messages and what comes behind them |
| Framing.OtherLengths | xbt/BT Test/bt_peer_link.cpp:118-131 | a length of zero is skipped, and one above 32768 is an error |
| Framing.PeerStream.Drain | xbt/BT Test/bt_peer_link.cpp:114-136 | the loop with `combine` ends and delivers every whole message |
| Framing.PeerStream.Recv | xbt/BT Test/bt_peer_link.cpp:224-255 | receiving appends to the buffer; unless the link ends, it stops when the socket has no more or the buffer has no room in its window |
| StreamInt.LeRoundTrip | xbt/misc/stream_int.h:58-84 | writing and reading a little-endian integer of any width is reduction modulo 256 to that width |
| StreamInt.BeRoundTrip | xbt/misc/stream_int.h:26-56 | the same for big-endian integers |
| StreamInt.ReadInt | xbt/misc/stream_int.h:26-33 | `read_int` is the big-endian value, as a signed 64-bit number |
| StreamInt.ReadIntLe | xbt/misc/stream_int.h:58-66 | `read_int_le` is the little-endian value, as a signed 64-bit number |
| StreamInt.WriteInt | xbt/misc/stream_int.h:45-56 | `write_int` writes the big-endian bytes, in two's complement |
| StreamInt.WriteIntLe | xbt/misc/stream_int.h:73-84 | `write_int_le` writes the little-endian bytes, in two's complement |
| StreamInt.Wrap64IsSigned | xbt/misc/stream_int.h:26-33 | a 64-bit number is the one of its residue class from -2^63 to 2^63 - 1 |
| Sha1.DigestOfPieces | xbt/misc/sha1.cpp:404-420 | for any byte string cut into any pieces the digest is the fold of the compression function over the padded string (sections 4 and 7 of FIPS PUB 180-1), whose values `Sha1Vectors` states, and an error from 2^64 bits on |
| Sha1.Context.Input | xbt/misc/sha1.cpp:160-211 | bytes are appended to the message, with the length carried over 64 bits and the error codes of the source |
| Sha1.Context.Result | xbt/misc/sha1.cpp:102-138 | the digest of the message, the same when asked again, or the error |
| Sha1.Context.PadMessage | xbt/misc/sha1.cpp:345-391 | the message is padded to one block or two, and the length put behind it |
| Sha1.Context.ProcessBlock | xbt/misc/sha1.cpp:234-319 | a block is compressed as the standard says |
| Sha1.Context.Expand | xbt/misc/sha1.cpp:250-261 | the message schedule of 80 words |
| Sha1.Context.RunRounds | xbt/misc/sha1.cpp:263-310 | the 80 rounds |
| Sha1.Context.CountByte | xbt/misc/sha1.cpp:191-200 | the length counter carries from its low to its high word, and reports overflow |
| Sha1.PaddedBlocks | xbt/misc/sha1.cpp:345-391 | where the padding of a message is cut into blocks |
| Sha1Vectors.DigestOfAbc | xbt/misc/sha1.cpp:234-319 | the digest of `abc`, byte by byte, as in appendix A of FIPS PUB 180-1 |
| Sha1Vectors.DigestOfTwoBlocks | xbt/misc/sha1.cpp:345-391 | the digest of the 56 bytes of appendix B, which need a second block |
| Piece.Piece.NextInvalidSubPiece | xbt/BT Test/bt_piece.cpp:30-45 | the first free sub-piece is given to the peer, 16384 bytes or the rest of the piece; the failing assertion is never reached; the counters stay true |
| Piece.Piece.Write | xbt/BT Test/bt_piece.cpp:62-74 | a chunk is taken exactly if it fits an allocated unfinished sub-piece, of which all but the last have 16384 bytes; the counters stay true, and the piece is complete exactly if all others had arrived |
| Piece.Piece.ErasePeer | xbt/BT Test/bt_piece.cpp:47-60 | a request is taken back, and the sub-piece is free again |
| Piece.Piece.CheckPeer | xbt/BT Test/bt_piece.cpp:76-92 | late requests, and only those, are taken back |
| Piece.Piece.SetValid | xbt/BT Test/bt_piece.cpp:18-28 | setting validity keeps the counters true |
| Piece.Piece.Resize | xbt/BT Test/bt_piece.cpp:11-16 | a new piece counts all its sub-pieces |
| Piece.UpdateCounts | xbt/BT Test/bt_piece.h:24-29 | how both counters follow one sub-piece |
| Piece.SaveAndLoad | xbt/BT Test/bt_piece.cpp:135-176 | saved state restores the same sub-pieces, with nobody asked for the missing ones, and leaves what follows in the input |
| Piece.Piece.LoadState | xbt/BT Test/bt_piece.cpp:135-156 | what each kind of saved state restores; a valid piece keeps the counters it was created with |
| Piece.RankIsLexicographic | xbt/BT Test/bt_piece.cpp:104-110 | `rank` orders by priority, then scarcity, then sub-pieces left, then peers: no part outweighs one before it |
| Piece.KeyInRange | xbt/BT Test/bt_piece.cpp:104-110 | the parts of the rank stay in the ranges for which that holds |
| Piece.KeyPrefers | xbt/BT Test/bt_piece.cpp:104-110 | the order of ranks is the preference of pieces, in their fields |
| TorrentInfo.Info | xbt/BT Test/bt_file.cpp:57-124 | which metadata is accepted, and the layout it makes; pieces and files have the same bytes, without padding for any piece length and with padding for a power of two |
| TorrentInfo.PlainIsOk | xbt/BT Test/bt_file.cpp:70-92 | contiguous files and pieces cut from the total have the same bytes |
| TorrentInfo.PowerOfTwoIsOk | xbt/BT Test/bt_file.cpp:84-110 | files padded to a power of two and cut into pieces one by one have the same bytes, and start at pieces |
| TorrentInfo.MerkleLayoutOkIff | xbt/BT Test/bt_file.cpp:84-110 | in a Merkle torrent pieces and files agree if and only if every file that is not empty starts where its first piece does |
| TorrentInfo.OddPieceLengthFails | xbt/BT Test/bt_file.cpp:84-85 | accepted metadata with a piece length of 24 KiB and files of 8193 bytes and 1 byte, for which they do not agree |
| TorrentInfo.MaskIsMod | xbt/BT Test/bt_file.cpp:85 | `-offset & (cb - 1)` is the remainder, for a power of two |
| TorrentInfo.CutAt | xbt/BT Test/bt_file.cpp:107-120 | the pieces cut from a size: all full but the last, none empty, all bytes covered |
| TorrentInfo.AcceptedIff | xbt/BT Test/bt_file.cpp:57-124 | exactly which metadata is accepted, in its own fields: names, piece length, sizes, and as many piece hashes as there are pieces, or a root for every file |
| TorrentInfo.PowersAre | xbt/BT Test/bt_file.cpp:85 | the test for a power of two |
| TorrentLayout.SumsAgree | xbt/BT Test/bt_file.cpp:203-217 | the bytes in invalid pieces of all files add up to the size of the invalid pieces |
| TorrentLayout.AllInvalidIn | xbt/BT Test/bt_hasher.cpp:61-73 | the bytes left of a file whose pieces are all invalid are all its bytes |
| TorrentLayout.Advance | xbt/BT Test/bt_hasher.cpp:52-83 | one step of the joint walk over pieces and files stays at the same byte of both |
| TorrentLayout.NextPiece | xbt/BT Test/bt_hasher.cpp:50-86 | between pieces the walk skips no byte of a file |
| Torrent.Torrent.ReadData | xbt/BT Test/bt_file.cpp:517-535 | what is read across files is the flat slice; a range in a piece is read exactly if all its bytes are there |
| Torrent.Torrent.WriteChunk | xbt/BT Test/bt_file.cpp:417-456 | a chunk is written across files; it fails exactly if one it touches is not open for writing then, and every file is either written to or as it was; a file it touches is open for writing then exactly if it was, or was closed and could be created |
| Torrent.WroteIsFlat | xbt/BT Test/bt_file.cpp:419-456 | the flat range holds the chunk, and no other byte changes but the last one of a file that had to be created |
| Torrent.Torrent.WriteData | xbt/BT Test/bt_file.cpp:404-515 | when a chunk is accepted, where it lies, what it writes and when that fails, that the piece it completes becomes valid exactly if its bytes match, and that the books stay right |
| Torrent.Torrent.IndexWraps | xbt/BT Test/bt_file.cpp:408-410 | an offset and the one 2^32 pieces behind it name the same piece |
| Torrent.Torrent.Finish | xbt/BT Test/bt_file.cpp:459-494 | the completed piece is checked, and counted off torrent and files |
| Torrent.Torrent.CountDown | xbt/BT Test/bt_file.cpp:474-491 | every file loses exactly the bytes it shares with the piece; a file without bytes left is opened again for reading only, any other is open as it was |
| Torrent.BooksOfValid | xbt/BT Test/bt_file.cpp:468-491 | the books are right again after a piece became valid |
| Torrent.Torrent.CheckPiece | xbt/BT Test/bt_hasher.cpp:44-46 | a readable piece matches exactly if the bytes on disk have its hash |
| Torrent.Torrent.ReadPiece | xbt/BT Test/bt_hasher.cpp:27-28 | a piece is read exactly if all its bytes are there, and then it is its flat slice |
| Torrent.SliceIsUnique | xbt/BT Test/bt_file.cpp:517-535 | there is only one flat slice of a piece |
| Torrent.CreatedFile | xbt/BT Test/bt_file.cpp:424-442 | a file that is created for a write is extended by zeros, and its last byte is a zero, whatever it was |
| Hasher.Hasher.Open | xbt/BT Test/bt_file.cpp:181-220 | after opening, the bytes left of the torrent are the size of its invalid pieces, those of every file its bytes in invalid pieces, and the sums agree; which pieces are valid, of ordinary and of Merkle torrents; files are opened for reading and writing if possible, else for reading, and those without bytes left again for reading only |
| Hasher.Hasher.RunAll | xbt/BT Test/bt_hasher.cpp:14-87 | the hasher from zero opens the books. In an ordinary torrent a piece is valid exactly if the bytes on disk have its hash. In a Merkle torrent every file ends with the published root; with that root from the start a piece is valid exactly if it can be read and its chunks are the known leaves, and with an empty tree exactly if it can be read and the root of all chunks is the published one. Every file with bytes is open for reading only if it is complete, and as it was if not |
| Hasher.Hasher.Run | xbt/BT Test/bt_hasher.cpp:14-87 | one piece further, with the cursor at the next piece and the books right up to it, and every file passed judged |
| Hasher.Hasher.WalkFiles | xbt/BT Test/bt_hasher.cpp:51-84 | the bytes of a piece are entered file by file |
| Hasher.Hasher.EndFile | xbt/BT Test/bt_hasher.cpp:59-83 | the end of a file: a wrong Merkle root puts it back as a whole, in the middle of the walk, and the books stay right; a complete file is opened again for reading only |
| Hasher.Hasher.CheckRoot | xbt/BT Test/bt_hasher.cpp:61-74 | the root is compared with the published one; if it differs, the pieces of the file become invalid and its tree knows the published root only |
| Hasher.Hasher.WalkFile | xbt/BT Test/bt_hasher.cpp:54-83 | one turn of that walk |
| Hasher.Hasher.InvalidateFile | xbt/BT Test/bt_hasher.cpp:63-71 | all pieces of that file, and no others, become invalid, and its tree is reset |
| FileRange.RangeOfFile | xbt/BT Test/bt_hasher.cpp:63-64 | in an aligned layout the range of pieces the loop names lies in the file |
| FileRange.RangeApart | xbt/BT Test/bt_hasher.cpp:63-64 | pieces outside that range have no bytes in the file, and pieces in it none in others |
| Hasher.MidInvalidate | xbt/BT Test/bt_hasher.cpp:61-73 | the books in the middle of a piece, after a whole file became invalid |
| Hasher.Hasher.OpenFiles | xbt/BT Test/bt_file.cpp:190-202 | exactly the pieces in the ranges of files that do not open become invalid; a file is open for reading and writing if possible, else for reading |
| Hasher.WrongPieceLost | xbt/BT Test/bt_file.cpp:190-202 | accepted metadata with two files of one byte: with the second file missing the piece of the first is lost, and its own is not |
| Hasher.LostIffInPlace | xbt/BT Test/bt_file.cpp:197-201 | those ranges are the right ones if and only if the file lies in the pieces it would lie in without padding |
| Availability.Swarm.RemoteHas | xbt/BT Test/bt_peer_link.cpp:316-326 | a `have` sets one bit, once; the number of links with each piece and the bytes each link has left stay right |
| Availability.Swarm.Bitfield | xbt/BT Test/bt_peer_link.cpp:722-733 | a bit field adds exactly its bits; bits behind the last piece are ignored |
| Availability.FieldIsBe | xbt/BT Test/bt_peer_link.cpp:722-733 | bit i of a field of n bytes is bit 8 * n - 1 - i of the big-endian number |
| Availability.Swarm.Close | xbt/BT Test/bt_peer_link.cpp:193-202 | a closed link is counted nowhere, its requests are given back, and closing it again changes nothing |
| Availability.Swarm.ClearRequests | xbt/BT Test/bt_peer_link.cpp:845-851 | exactly the sub-pieces that the list of the link names and that are still asked of it are free again |
| Availability.NothingStaysIff | xbt/BT Test/bt_peer_link.cpp:845-851 | no sub-piece stays with a link that goes if and only if its list names all that was asked of it |
| Availability.Swarm.ReadPiece | xbt/BT Test/bt_peer_link.cpp:645-664 | a chunk takes the first request for it off the list, and is then taken or refused; the list stays complete if and only if the chunk had no request, or fits a sub-piece that has not arrived, or that sub-piece is not asked of the link or named by another request; the bytes left go down by a piece that becomes valid |
| Availability.Swarm.TakeOff | xbt/BT Test/bt_peer_link.cpp:647-658 | the first request for a byte comes off the list, if there is one |
| Availability.Swarm.TakeChunk | xbt/BT Test/bt_peer_link.cpp:680-696 | a chunk is taken exactly if it fits, and a piece that is complete becomes valid or starts again |
| Availability.NamedHere | xbt/BT Test/bt_peer_link.cpp:647-659 | when a list is still complete after one of its requests came off |
| Availability.Swarm.CheckPieces | xbt/BT Test/bt_peer_link.cpp:853-858 | what a link has not delivered in time is taken back, in exactly those pieces that its list still names |
| Stranded.StaysStranded | xbt/BT Test/bt_peer_link.cpp:645-664 | once a sub-piece is asked of a link that is gone and no list names it, no sequence of joining, leaving, announcing, asking, delivering and checking by links of other identities changes that: it does not arrive, nobody is asked for it, and its piece does not become valid |
| Stranded.TakeStep | xbt/BT Test/bt_peer_link.cpp:193-202 | the same for one such step |
| Stranded.LastChunkRefused | xbt/BT Test/bt_peer_link.cpp:658-659 | a run that comes to that: a link is asked for the one byte of a piece, delivers two, and goes; the piece is not wanted of anybody any more |
| Availability.Swarm.Ask | xbt/BT Test/bt_peer_link.cpp:164-168 | the next free sub-piece is asked of a link and put on its list, so that the list stays complete |
| Availability.Swarm.Erase | xbt/BT Test/bt_piece.cpp:47-60 | one request is given back, and no other piece changes |
| Availability.Swarm.Connect | xbt/BT Test/bt_peer_link.cpp:380-400 | a new link has nothing, and all of the torrent left |
| Availability.Swarm.Remove | xbt/BT Test/bt_peer_link.cpp:193-202 | taking a closed link off the list leaves the counts right |
| Availability.Swarm.NextInvalidPiece | xbt/BT Test/bt_file.cpp:537-572 | the piece chosen is one the peer has and that is wanted, and none such is preferred, in the fields of the pieces: none of higher priority (from -10 to 9), then none with fewer peers up to three, then none that has been started with less left of it (below 999), then none with fewer peers (below 99); none is chosen exactly if there is none; and when end mode starts |
| Availability.Swarm.Scan | xbt/BT Test/bt_file.cpp:549-565 | the scan finds the pieces of least rank |
| Availability.CountUpdate | xbt/BT Test/bt_peer_link.cpp:199-200 | how the count of a piece follows one link |
| Availability.MissingUpdate | xbt/BT Test/bt_peer_link.cpp:321 | how the bytes left of a link follow one piece |
| Tracker.Tracker.InsertPeer | xbt/Tracker/server.cpp:244-328 | for new, repeated, stopped and refused announces and a change of user: the reply is the one the rules give, the peer table changes as the reply says, other torrents do not change, all counters of torrents and users stay right, and an accepted new leecher is within the limits of its user |
| Tracker.Tracker.Admit | xbt/Tracker/server.cpp:264-328 | an announce for a known torrent: the limits, the peer table, the counters |
| Tracker.Tracker.Register | xbt/Tracker/server.cpp:265-322 | the old peer leaves all counters and the new one enters them |
| Tracker.Tracker.Withdraw | xbt/Tracker/server.cpp:265-271 | one peer leaves the counters of its torrent and its user |
| Tracker.Tracker.CleanUpFile | xbt/Tracker/server.cpp:378-395 | exactly the peers that have not announced since are forgotten, and the counters stay right |
| Tracker.Tracker.CleanUp | xbt/Tracker/server.cpp:397-402 | the same for all torrents |
| Tracker.Tracker.DeleteFile | xbt/Tracker/server.cpp:555-565 | a torrent goes, and its peers leave the counters of their users |
| Tracker.PeerLeaves | xbt/Tracker/server.cpp:383-386 | the counters of all users after one peer left |
| Tracker.PeerArrives | xbt/Tracker/server.cpp:311-321 | the counters of all users after one peer arrived |
| Tracker.RereadCountedIff | xbt/Tracker/server.cpp:593-650 | after the table of users was read again the counters of all users are right if and only if no user that is new in the rows has a peer in any torrent |
| Tracker.UserZeroFails | xbt/Tracker/server.cpp:265-320 | why nobody may have number 0: a peer without a user, which has that number, comes without being counted and is counted off when it goes |
| Tracker.Tracker.ReadUsers | xbt/Tracker/server.cpp:593-650 | users in the rows keep their counters and take the limits of the last row with their number, column by column, new users start at zero, all others are dropped; and when the tables are right afterwards |
| Tracker.ReadRowsKeep | xbt/Tracker/server.cpp:617-638 | rows keep the counters of users that are known, in any order and with repetitions |
| Tracker.RereadGoesNegative | xbt/Tracker/server.cpp:384-386 | a run in which a counter goes to -1: an announce, the table read without the user and then with him, and expiry of the peer |
| Tracker.Tracker.MarkUsers | xbt/Tracker/server.cpp:614-615 | every user is marked |
| Tracker.Tracker.Sweep | xbt/Tracker/server.cpp:639-645 | exactly the marked users are dropped |
| Tracker.Tracker.CheckLimits | xbt/Tracker/server.cpp:272-281 | the limits on leeching for one more peer |
| Tracker.Tracker.ReplyIsFair | xbt/Tracker/server.cpp:253-281 | when each refusal may be given, and that who was accepted has met every limit: a leecher has waited, and one who has waited is not refused for that |
| Tracker.Tracker.PeerOfAnnounce | xbt/Tracker/server.cpp:268-322 | the peer an announce makes, field by field, and its key |
| Tracker.ReadRowsTerms | xbt/Tracker/server.cpp:614-635 | the last row of a user decides, and what no column says stays |
| Bencode.RoundTrip | xbt/misc/bvalue.cpp:108-186 | parsing what was printed, followed by anything, gives the value and leaves what follows |
| Bencode.Encodings | xbt/misc/bvalue.cpp:318-366 | the encoding of every kind of value, byte by byte |
| Bencode.KindOf | xbt/misc/bvalue.cpp:132-186 | the first byte of what was parsed tells its kind |
| Bencode.ReencodingIsStable | xbt/misc/bvalue.cpp:278-371 | whatever was parsed encodes to bytes that parse to the same value |
| Bencode.ParsedIsEncodable | xbt/misc/bvalue.cpp:108-186 | what is parsed has 64-bit numbers, lengths that fit an int and keys in order |
| Bencode.PrintIsInjective | xbt/misc/bvalue.cpp:318-371 | two values never print alike, not even as prefixes |
| Bencode.PreRead | xbt/misc/bvalue.cpp:278-303 | `pre_read` is the exact length of the encoding |
| Bencode.Read | xbt/misc/bvalue.cpp:318-371 | the printer writes the encoding |
| Bencode.Write | xbt/misc/bvalue.cpp:108-186 | the parser with its moving cursor gives what the recursive definition gives, on any input |
| Bencode.InsertSorted | xbt/misc/bvalue.cpp:151 | inserting into a dictionary keeps the order, sets the key and keeps all others |
| Bencode.AtollOfDec | xbt/misc/bvalue.cpp:166 | reading the decimal form of a number with a terminator behind it gives the number |
| Bencode.AtollOfText | xbt/misc/bvalue.cpp:166 | leading blanks are skipped, a sign is taken, and a number that does not fit is the nearest that does |
| Bencode.AtollOfOther | xbt/misc/bvalue.cpp:166 | nothing else is skipped, and without a digit the number is 0 |
| Bencode.LessIsLexicographic | xbt/misc/bvalue.cpp:139-157 | keys are in order at their first difference |
| Xif.FileRoundTrip | xbt/misc/xif_key.cpp:113-197 | a tree comes back from its file, fast or compressed, and without an error if and only if it holds no float |
| Xif.TreeRoundTrip | xbt/misc/xif_key.cpp:27-39 | the saved tree loads as the same tree with hollow external values, with anything behind it |
| Xif.ExternalRoundTrip | xbt/misc/xif_key.cpp:41-47 | the external data fills that tree to the one that was saved |
| Xif.ValueRoundTrip | xbt/misc/xif_value.cpp:60-91 | every kind of value comes back |
| Xif.ValueBytes | xbt/misc/xif_value.cpp:115-138 | the bytes of every kind of value |
| Xif.VersionOne | xbt/misc/xif_key.cpp:113-158 | a file of version 1 gives its tree: a plain one with its externals, a compressed one without |
| Xif.BadCompression | xbt/misc/xif_key.cpp:127-140 | a tree that cannot be uncompressed, or is larger than the header says, is an error |
| Xif.RefusedHeaders | xbt/misc/xif_key.cpp:113-120 | files that are too short, do not start with `XIF` and 0x1a, or have another version are refused |
| Xif.HeaderBytes | xbt/misc/xif_key.cpp:169-174 | the bytes of a header |
| Xif.InsertIsMap | xbt/misc/xif_key.cpp:27-39 | a number that is read again replaces what was there, and all others stay, in order |
| Xif.Delta | xbt/misc/xif_key.cpp:88-89 | differences of 32-bit numbers may wrap around, and their sums wrap back |
| XifKey.GetSize | xbt/misc/xif_key.cpp:49-68 | the size computed in advance is that of the saved tree, and four bytes more for every float |
| XifKey.GetExternalSize | xbt/misc/xif_key.cpp:70-79 | the size of the external data is exact |
| XifKey.Save | xbt/misc/xif_key.cpp:81-103 | the writing loops |
| XifKey.ExternalSave | xbt/misc/xif_key.cpp:105-111 | the loops that write external data |
| XifKey.ExternalKeys | xbt/misc/xif_key.cpp:107-108 | the loop over the keys |
| XifKey.ExternalValues | xbt/misc/xif_key.cpp:109-110 | the loop over the values |
| XifKey.LoadNew | xbt/misc/xif_key.cpp:27-39 | the reading loops give what the recursive definition gives, on any input |
| XifKey.LoadExternal | xbt/misc/xif_key.cpp:41-47 | the loops that read external data |
| XifKey.SaveValue | xbt/misc/xif_value.cpp:115-138 | a value with its type |
| XifKey.VData | xbt/misc/xif_key.cpp:162-196 | a file: header, tree and external data |
| XifKey.SaveAndLoad | xbt/misc/xif_key.cpp:113-196 | a tree goes to a file and comes back |
| MerkleTree.MerkleTree.ProofLevel | xbt/BT Test/merkle_tree.cpp:52-61 | one level of the walk that collects the siblings |
| MerkleTree.MerkleTree.SetParent | xbt/BT Test/merkle_tree.cpp:112-130 | one level of the climb of `set` |
| MerkleTree.MerkleTree.ParentHash | xbt/BT Test/merkle_tree.cpp:115-129 | when the parent is completed by `set`, and with which hash |
| MerkleTree.MerkleTree.SetSibling | xbt/BT Test/merkle_tree.cpp:139-156 | one level of the walk that caches siblings |
| MerkleTree.MerkleTree.Known0 | xbt/BT Test/merkle_tree.cpp:92-97 | whether a cell is marked as known |
| MerkleTree.MerkleTree.Get0 | xbt/BT Test/merkle_tree.cpp:32-36 | the hash in a cell |
| MerkleStream.AddBytes | xbt/BT Test/merkle_tree.cpp:212-227 | one block of bytes is hashed and entered in the counter |
| MerkleStream.Finish | xbt/BT Test/merkle_tree.cpp:228-237 | the counter at the end of the input gives the root, or nothing for no input |
| MerkleStream.Lowest | xbt/BT Test/merkle_tree.cpp:231-234 | `map.begin()` is the lowest entry |
| SendQuota.Server.Offer | xbt/BT Test/server.cpp:548-556 | one link is offered its share, and what it leaves is given back |
| SendQuota.Server.Turn | xbt/BT Test/server.cpp:545-556 | one turn of a pass: what link i is sent, and what is left of the quota |
| SendQuota.CollectPeer | xbt/BT Test/server.cpp:518-539 | one peer is put in its place in the list, or left out, and one without work stays out |
| SendQuota.PeerLink.SendFirst | xbt/BT Test/bt_peer_link.cpp:280-311 | the socket takes a part of the first buffer, or blocks or fails |
| SendQuota.Server.SendTo | xbt/BT Test/server.cpp:550-551 | a link sends within its share, and is closed when that fails |
| SendQuota.PeerLink.AnswerRequest | xbt/BT Test/bt_peer_link.cpp:263-275 | a request is answered or dropped; what was owed before is still owed first |
| SendQuota.PeerLink.WriteHaves | xbt/BT Test/bt_peer_link.cpp:443-448 | a `have` message for every new piece the peer does not have goes behind what is owed |
| Unchoke.Consider | xbt/BT Test/server.cpp:1031-1042 | one candidate in one pass: unchoked and charged, or skipped |
| Unchoke.RunList | xbt/BT Test/server.cpp:1029-1055 | one list in one pass, until the slots run out |
| Unchoke.RunPass | xbt/BT Test/server.cpp:1029-1067 | one pass over the three lists |
| Unchoke.Shuffle | xbt/BT Test/server.cpp:1024-1025 | a shuffle is some permutation |
| Unchoke.SortOne | xbt/BT Test/server.cpp:1010-1020 | the goal of one link is set, and it goes on the list it belongs to, if any |
| Unchoke.PutByRate | xbt/BT Test/server.cpp:1018 | the map of the fast links stays in order of their rates |
| RingBuffer.RingBuffer.Restart | xbt/BT Test/ring_buffer.cpp:40-42 | the contents are laid at the start of the array |
| RingBuffer.RingBuffer.Fill | xbt/BT Test/ring_buffer.cpp:6-8 | storing in the write window and advancing appends |
| RingBuffer.RingBuffer.Store | xbt/BT Test/ring_buffer.cpp:7 | storing in the write window leaves the contents alone |
| RingBuffer.RingBuffer.Peek | xbt/BT Test/ring_buffer.h:15-18 | the read window shows the front of the contents |
| Framing.PeerStream.Receive | xbt/BT Test/bt_peer_link.cpp:85-88 | what is received follows what is left of earlier receives |
| Framing.PeerStream.DrainOne | xbt/BT Test/bt_peer_link.cpp:118-131 | one message is taken, or is not there yet, or is too long |
| Framing.PeerStream.DrainWindow | xbt/BT Test/bt_peer_link.cpp:116-132 | all whole messages of the read window are taken |
| Framing.PeerStream.Take | xbt/BT Test/bt_peer_link.cpp:125-128 | a message leaves the buffer and is delivered |
| Framing.LengthIsBe | xbt/BT Test/bt_peer_link.cpp:118 | the length of a message is a big-endian integer |
| Sha1.Context.ResetHash | xbt/misc/sha1.cpp:71-75 | the initial hash value |
| Sha1.Context.AddByte | xbt/misc/sha1.cpp:183-208 | one byte more of the message |
| Sha1.Context.PutByte | xbt/misc/sha1.cpp:185-207 | the buffered byte keeps hash and buffer in step with the message |
| Sha1.Context.ZeroTo | xbt/misc/sha1.cpp:345-376 | zeros up to a position in the block |
| Sha1.Context.PutLength | xbt/misc/sha1.cpp:381-388 | the length of the message in the last eight bytes |
| Sha1.Context.FullBlock | xbt/misc/sha1.cpp:352-366 | a block without room for the length is filled up and hashed |
| Sha1.Context.LastBlock | xbt/misc/sha1.cpp:368-390 | the last block is filled up and hashed |
| Piece.Piece.TakeSubPiece | xbt/BT Test/bt_piece.cpp:68-72 | a sub-piece arrives: both counters follow, and a complete piece forgets its sub-pieces |
| Piece.Piece.ExpireSubPiece | xbt/BT Test/bt_piece.cpp:80-90 | one late request is taken back |
| Piece.Piece.SaveState | xbt/BT Test/bt_piece.cpp:163-176 | the state that is saved |
| Piece.Piece.LoadFlags | xbt/BT Test/bt_piece.cpp:141-151 | the flags of sub-pieces are read, with the counters true |
| TorrentInfo.ReadFiles | xbt/BT Test/bt_file.cpp:66-87 | the list of files is refused, or placed one behind the other |
| TorrentInfo.PadOffset | xbt/BT Test/bt_file.cpp:84-85 | the place of the next file of a Merkle torrent |
| TorrentInfo.ResizeEach | xbt/BT Test/bt_file.cpp:103-110 | every file is cut into pieces of its own |
| TorrentInfo.ResizePlain | xbt/BT Test/bt_file.cpp:114-122 | the total is cut into pieces |
| Torrent.Torrent.Accept | xbt/BT Test/bt_file.cpp:408-416 | a piece takes a chunk, which then lies in the piece |
| Torrent.Torrent.CountFile | xbt/BT Test/bt_file.cpp:474-491 | one file loses the bytes it shares with the piece, and is opened again for reading only when none are left |
| Torrent.Torrent.SetPiece | xbt/BT Test/bt_file.cpp:461 | one piece changes its validity, and no other |
| Torrent.Torrent.WriteFile | xbt/BT Test/bt_file.cpp:423-450 | one file is created if need be, and written to if it is open for writing |
| Hasher.Hasher.Judge | xbt/BT Test/bt_hasher.cpp:22-50 | a piece is judged and entered in the bytes left of the torrent |
| Hasher.Hasher.JudgeChunks | xbt/BT Test/bt_hasher.cpp:24-41 | a piece of a Merkle torrent is read, and its chunks judged |
| Hasher.Hasher.InvalidatePiece | xbt/BT Test/bt_hasher.cpp:66-68 | one piece becomes invalid, and is entered in the bytes left |
| Hasher.Hasher.EnterBytes | xbt/BT Test/bt_hasher.cpp:54-56 | the bytes that piece and file share are entered in the bytes left of the file |
| Hasher.Hasher.OpenFile | xbt/BT Test/bt_file.cpp:193-200 | a file that does not open makes the pieces of its range invalid |
| Hasher.Hasher.InvalidateRange | xbt/BT Test/bt_file.cpp:197-199 | exactly those pieces |
| Availability.Swarm.DropBits | xbt/BT Test/bt_peer_link.cpp:199-200 | the bits of a closing link leave the counts |
| Tracker.Tracker.OpenFile | xbt/Tracker/server.cpp:259-261 | a torrent that is not known gets an empty entry |
| Tracker.Tracker.CountLeeching | xbt/Tracker/server.cpp:276-278 | the leeching peers of a user in a torrent |
| Tracker.Tracker.Complete | xbt/Tracker/server.cpp:323-324 | a completed download is counted |
| Tracker.Tracker.Erase | xbt/Tracker/server.cpp:384-389 | an expired peer leaves table and counters |
| Bencode.ScanStr | xbt/misc/bvalue.cpp:126-137 | a string: its length up to the colon, and its bytes |
| XifKey.SaveKeys | xbt/misc/xif_key.cpp:84-91 | the loop over the keys |
| XifKey.SaveValues | xbt/misc/xif_key.cpp:94-101 | the loop over the values |
| XifKey.GetInt | xbt/misc/xif_key.cpp:7-11 | a 32-bit integer, if the input has four bytes left |
| XifKey.WriteHeader | xbt/misc/xif_key.cpp:169-174 | the header of a file |
| Piece.MakePieces | xbt/BT Test/bt_file.cpp:103-122 | the pieces of a torrent are different objects of the right sizes, with all sub-pieces missing |
| Torrent.Torrent.constructor | xbt/BT Test/bt_file.cpp:57-124 | an accepted layout makes a torrent, whatever its files hold |
| TorrentInfo.PlaceFile | xbt/BT Test/bt_file.cpp:78-85 | one file is placed behind the others |

## Left out

- Merkle `load` and `save`, and output of trees: `load` recovers a wrong number of leaves for some sizes and has no caller in the modelled files.
- A proof whose length is not a multiple of 20 bytes: proofs are sequences of whole hashes.
- The chunk size of 32 KiB on the Merkle wire path: piece counters are modelled with sub-pieces of 16 KiB, as `Cbt_piece` keeps them.
- Handshake states of a link, and what single messages do: `Framing` delivers messages, and a message may be refused at will.
- Sockets, HTTP and UDP: receives and sends take arbitrary amounts.
- The path without an upload limit, where every link sends as much as it can.
- The limits on open requests, and `read_merkle_piece`, which leaves the list alone.
- Availability.Swarm.TakeChunk: whether a complete piece is good is arbitrary here; `Torrent.Torrent.WriteData` says when it is.
- Stranded.StaysStranded: what happens to one torrent between two starts, by links other than the one that is gone; pieces that are hashed again start again.
- SendQuota.PeerLink.AnswerRequest: what an answer holds is given with the request; `Torrent.Torrent.ReadData` models reading it.
- Renaming of a finished torrent, directories, and errors of the operating system other than a file that does not open or is too short: a write to a file open for writing succeeds.
- Hasher.Hasher.Open: a Merkle torrent in which a file does not start at a piece, which only a piece length that is no power of two makes, is not opened here; `TorrentInfo.MerkleLayoutOkIff` says when.
- Torrent.Torrent.constructor: the same torrents; pieces and files of a torrent have the same bytes.
- Hasher.Hasher.RunAll: which pieces of a Merkle torrent become valid is stated if no empty file comes before one with bytes, because an empty file has no root cell and the source reads in front of its tree; and with checking for files of whole 1 KiB blocks, because of `compute_root`, in pieces of whole chunks, and with a tree that is empty or has the published root, which is what every run leaves.
- Torrent.Torrent.WriteData: after a failed read of a complete piece the buffer may hold anything, so validity is only stated for readable pieces.
- Piece.Piece.LoadState: a piece restored as valid keeps the counters of a new piece, as in the source.
- Availability.Swarm.Connect: metadata is known, so that every link has a flag for each piece.
- Tracker.Tracker.InsertPeer: the announce log and the update buffers of the database are not modelled, users are the ones in the table, and none has number 0.
- Reading the list of torrents from a text file, which deletes torrents without touching users; there are none without a database.
- Choosing the peers sent in a reply, scraping and statistics of the tracker.
- Bencode.Write: a string whose length reads as negative throws; what the caller does with the exception is not modelled.
- Xif.FileRoundTrip: sizes fit the 32-bit fields of the header; version 0 files and values of unknown type are not modelled. A read behind the end of the input, which the source does not check for, is an outcome of its own.
- Config files, alerts, dumps, profiles and the scheduler: easy members only.
