# A verified model of the BitTorrent client

The project models the parts of the client that decide what is asked of whom, what is kept and what
is written: the per-peer `Downloader`, the `RandomPieceStrategy` that schedules many of them, the
piece vault and the merge into the output file, the bencode codec with the info hash and the torrent
file reader, the peer messages on the wire, and the packed bitfield.

## How it is built

**State, steps, runs.** `Download` describes one downloader: its pieces, the queue of pending
requests, the set of active ones, and the peer status it shares. The code is a set of coroutines, so
its steps are cut at the suspension points, which are the sends to the peer's queue. Two components
stand for coroutines that are waiting there: `starting` (calls of `download_piece` whose Interested
message is on its way) and `senders` (coroutines inside the send loop). `Swarm` describes the
strategy: the two maps between pieces and downloaders, the connections keyed by address, the missing
set, the vault, and all live downloaders, each with its own `Download.State`. An auxiliary `history`
records every `download_piece` call, every verdict of the hash check and every erase in `is_done`, so
that "never called when ..." can be stated over whole runs. `include`, `assign`, `revoke` and `is_done`
are one step each; a downloader's own steps interleave freely between them. The shuffle order, the
order of pointers in the pool and the set of inactive downloaders are parameters, so the results hold
for any of them.

**Objects.** `Downloader.Downloader`, `Downloader.Peer`, `Strategy.RandomPieceStrategy`,
`Storage.Vault`, `Transmit.Socket` and `BitFields.BitField` are classes whose methods update fields in
place, with the source's loops. Each method's contract gives the whole new state as a function of the
old one (`State() == Receive(old(State()), m)`); the theorems are about these functions and about all
runs made of them.

**Effects.** `DownloadEffects`, `PeerHistory`, `SwarmEffects` and `SwarmStored` say, field by field and
without naming the step functions' own definitions, what each step does and what it leaves alone;
`Formats` gives the byte formats on literal examples.

**Environments.** What remote peers may do comes in three strengths: `InBounds` (a block stays inside
its registered piece), `Matching` (a block also answers a request that is active when it arrives), and
`Authentic(pieces)` (it also carries the right bytes). Every result names the weakest one it needs.

**Bencode.** `BencodeGrammar` gives the format as syntax trees with a spelling and a meaning,
independently of any reader; the reader is proved complete and sound for it, including the depth
limit, and the printer is proved to make its canonical texts. Decimal printing and parsing are written
out and proved inverse to each other.

| file | contents |
|---|---|
| `Bytes.dfy`, `TorrentContext.dfy` | integers, byte strings; the torrent's sizes and hashes |
| `BitFields.dfy`, `Wire.dfy`, `Transmit.dfy` | bitfield; message layouts, framing, parsing; socket and receive loop |
| `Download.dfy`, `DownloadProofs.dfy`, `DownloadSteps.dfy`, `DownloadTheorems.dfy` | the downloader's steps, its invariant, each step's preservation, the results |
| `DownloadEffects.dfy`, `PeerHistory.dfy` | what each step does to each part of a downloader; what any messages make of a peer's status |
| `SplitLoop.dfy`, `RepeatedBlock.dfy` | the 32-bit split loop; a run in which a block arrives twice |
| `Downloader.dfy` | the downloader and the peer as objects |
| `Swarm.dfy`, `SwarmProofs.dfy`, `SwarmAssign.dfy`, `SwarmRevoke.dfy`, `SwarmDone.dfy`, `SwarmTheorems.dfy` | the same for the strategy |
| `SwarmEffects.dfy`, `SwarmStored.dfy` | what `include`, `assign` and `revoke`, and `is_done`, do to each part of the strategy |
| `SwarmEntries.dfy`, `SwarmRetry.dfy`, `LostBit.dfy` | who has a listed piece in hand; exactly when a retry is lost; a run in which one is |
| `SwarmStale.dfy` | slots that stay taken |
| `Strategy.dfy` | the strategy as an object |
| `Storage.dfy`, `EndToEnd.dfy` | vault and merge; from a run of the swarm to the file |
| `Decimal.dfy`, `Bencode.dfy`, `BencodeGrammar.dfy`, `BencodeTheorems.dfy` | decimals, codec, grammar, results |
| `TorrentFile.dfy` | fields, trackers, piece hashes, file layout, info hash, context |
| `Formats.dfy` | frames and texts, byte by byte |

`dafny verify dfyconfig.toml` checks everything.

## What the code does not guarantee

Some laws one would expect hold only under a condition. For each there is an exact statement.

* A block that answers no active request is still counted. An arriving block keeps conservation if and
  only if it answers one, or is for a piece that is not registered, or is empty and for a piece past
  its set-up (`DownloadTheorems.ConservationExact`). With the client's own policy there is a run in
  which one repeated block makes a piece count as complete while its other half is still requested
  (`RepeatedBlock.RepeatedBlockBreaksConservation`). The hash check still keeps a piece with wrong
  bytes out of the vault (`SwarmTheorems.StorageAgreement`).
* The request split counts in 32 bits. Its loop leaves at the last block if and only if
  ceil(length / block) * block is below 2^32, and otherwise starts over inside the piece
  (`SplitLoop.SplitLoopExits`). It ends at all if and only if the length is at most 2^32 less the
  largest power of two that divides the block size (`SplitLoop.SplitLoopEnds`). For the client's block
  size of 8192 bytes both say that the piece is at most 2^32 - 8192 bytes long
  (`SplitLoop.DefaultSplitEnds`); for others the loop can end late, with requests made twice
  (`SplitLoop.SplitCanEndLate`).
* The merge looks for files and not at the piece count. On a full vault it writes exactly the file if
  and only if no stale file follows the last piece, or the last piece is a whole one, or the stale
  file is too short to be read; in the last case it writes the file and then fails
  (`Storage.MergeExact`). The output file is not truncated. So after a finished run the output is the
  file if and only if no stored piece is another byte string with the right hash, no stale file adds
  to it, and the output file was no longer before (`EndToEnd.MergeAfterRun`).
* Nobody compares the number of piece hashes with the lengths. After a finished run the merge writes as
  many bytes as the file has if and only if it joins as many pieces as the file needs, or more of them
  after a whole last one (`EndToEnd.MergeAnyRun`); for a loaded torrent this is a condition on the
  length of its `pieces` string (`EndToEnd.LoadedRunWrites`). With a hash too many after a whole last
  piece, the extra piece is empty, nothing is ever requested for it, and `is_done` never answers true
  while blocks answer requests (`EndToEnd.ExtraHashNeverDone`).
* A bitfield message may clear a bit, and then the retry of a corrupt piece is refused. If all listed
  downloaders have their pieces in hand, they still have after `is_done` if and only if each piece that
  one of its downloaders has complete, with a wrong hash and without the bit, is delivered by another
  of them (`SwarmRetry.EntriesKeptExactly`); the other operations and all messages keep entries, so the
  same condition decides it for whole runs (`SwarmRetry.EntriesKeptThroughout`). There is a run that
  leaves a listed downloader with nothing (`LostBit.RetryIsRefused`).
* When one of two downloaders delivers a piece and the other cannot, the other keeps it in its load
  (`SwarmStale.RaceLeavesStale`). A slot with a stored piece stays taken as long as its downloader is pooled, and with two of them the downloader is never
  given a piece again (`SwarmStale.StaleSlotsStay`).
* A length field wraps in 32 bits, and a keepalive is never written, because the variant index minus
  one never equals its id. A message is read back if and only if it is not a keepalive and its body is
  shorter than 2^32 bytes (`Wire.SendReadExact`).
* File offsets are sums in 64 bits. The file list tiles the torrent if and only if the sizes do not
  overflow in sum (`TorrentFile.FilesTileExactly`).
* `revoke` drops only inactive downloaders that hold a piece; idle ones stay in the pool
  (`SwarmRevoke.RevokeForgets`).

## Model

| member | source | states |
|---|---|---|
| DownloadTheorems.Conservation | source/client/downloader/downloader.cpp:34-153 | In every state of every interleaving whose blocks answer active requests, pending and active requests are pairwise disjoint, distinct, nonempty and inside their pieces, and for each piece past its set-up the bytes received plus the outstanding lengths are the piece's size |
| DownloadTheorems.ConservationExact | source/client/downloader/downloader.cpp:69-94 | A received block keeps conservation if and only if it answers an active request, or is for an unregistered piece, or is empty and for a piece past its set-up |
| RepeatedBlock.RepeatedBlockBreaksConservation | source/client/downloader/downloader.cpp:76-91 | With the client's policy and a piece of 16384 bytes there is a run whose blocks all answer requests and whose last block, arriving once more, makes the piece Complete while its other half is still requested |
| DownloadTheorems.RequestWindow | source/client/downloader/downloader.cpp:96-153 | In every state of every run with in-bounds blocks, also when a piece is started again while requests for it are outstanding: at most the policy's number of requests are active, none while choked, and once no coroutine is sending, an unchoked downloader has an empty queue or a full window |
| DownloadTheorems.InitialHolds | source/client/downloader/downloader.cpp:11-22 | A new downloader satisfies the invariant |
| DownloadEffects.NewIsEmpty | source/client/downloader/downloader.cpp:11-22 | A new downloader has no piece, no request and no sender; it is choked and its peer has announced nothing |
| DownloadEffects.DefaultPolicy | source/client/downloader/downloader.hpp:14-18 | Blocks of 8192 bytes, seven requests at a time |
| DownloadEffects.StartEffect | source/client/downloader/downloader.cpp:34-67 | Without the bit a call does nothing. With it the piece gets a blank entry of its size; on a choked peer the call then waits and nothing is queued; otherwise its blocks, cutting the piece from end to end, go behind all others and the call is in the send loop, never having waited |
| DownloadEffects.BeginQueuesExactly | source/client/downloader/downloader.cpp:34-67 | In every run, a call for a nonempty piece queues requests for it if and only if the bit is set and the peer has not choked the client, and waits if and only if it has |
| DownloadEffects.ResumeEffect | source/client/downloader/downloader.cpp:51-64 | A call that waited stops waiting and puts its blocks behind all others; nothing else changes |
| DownloadEffects.TurnEffect | source/client/downloader/downloader.cpp:139-153 | While unchoked with a request in the queue and room in the window, the front request becomes active; otherwise one sender leaves |
| DownloadEffects.DrainEffect | source/client/downloader/downloader.cpp:139-153 | A whole send loop takes requests off the front of the queue in order and makes exactly these active, until its guard fails |
| DownloadEffects.BlockEffect | source/client/downloader/downloader.cpp:69-94 | A block for a registered piece puts its payload at its offset and changes no other byte and no other piece, counts its bytes in 32 bits, completes the piece exactly at its size, and ends the active request of just that place and length; for another piece it does nothing |
| DownloadEffects.ChokeEffect | source/client/downloader/downloader.cpp:124-132 | A choke puts exactly the active requests before the queue, the last in the set's order first, empties the active set and starts a sender |
| DownloadEffects.OtherEffect | source/client/downloader/downloader.cpp:96-137 | An unchoke starts a sender; every other message changes the peer's status alone |
| DownloadEffects.RetrieveEffect | source/client/downloader/downloader.cpp:155-179 | An unfinished piece stays and is reported with its status and byte count and no data; a complete one leaves with its data, as corrupt if and only if its hash is wrong |
| DownloadEffects.ServedEffect | source/client/downloader/downloader.cpp:96-153 | A served message leaves pieces, waits and peer as its arrival does, and its sender moves requests forward until the guard fails |
| PeerHistory.BitfieldSetsBits | source/client/peer.cpp:43-47 | After a bitfield message index i reads true if and only if bit 7 - i mod 8 of byte i div 8 of the payload is set, in arithmetic on the bytes |
| PeerHistory.BitsAfter | source/client/peer.cpp:112-131 | After any messages an index reads true if and only if a Have for it came after the last bitfield, or that bitfield's payload has it, or, if there was none, it read true before |
| PeerHistory.FlagsAfter | source/client/peer.cpp:29-41 | After any messages the client is choked, and the peer interested, as the last message about it said |
| DownloadTheorems.CompleteIsRight | source/client/downloader/downloader.cpp:69-179 | When blocks answer requests with the right bytes, in any order, with any chokes and several pieces at once, a Complete piece is the right byte string and is never reported Corrupt |
| DownloadTheorems.RetrievedIsHashed | source/client/downloader/downloader.cpp:155-179 | Whatever in-bounds blocks came, a piece handed out as Complete has its size and its hash; a piece leaves the downloader exactly when it was Complete, with verdict Complete or Corrupt |
| DownloadTheorems.CompleteExactly | source/client/downloader/downloader.cpp:87-93 | In a conserved state a nonempty piece is Complete if and only if no request for it is outstanding |
| DownloadTheorems.StepCounts | source/client/downloader/downloader.cpp:34-153 | Each matching block of a piece lowers its outstanding requests by one; choke, unchoke, sending and work on other pieces leave their number alone |
| DownloadTheorems.ReceiptsComplete | source/client/downloader/downloader.cpp:69-94 | Over any run that does not collect the piece, it is Complete if and only if as many blocks came for it as requests were outstanding |
| DownloadTheorems.CanComplete | source/client/downloader/downloader.cpp:34-153 | No dead ends: from every state that satisfies the invariant (all reachable ones do) with a nonempty piece past its set-up and room for at least one request, however choked, some run of messages and sending steps, right bytes included, makes that piece Complete |
| DownloadTheorems.NextMove | source/client/downloader/downloader.cpp:96-153 | While such a piece is not Complete, a reply, an unchoke or a sending step is possible that lowers the outstanding requests, the unsent ones, or wakes the sender |
| DownloadTheorems.QueuedCount | source/client/downloader/downloader.cpp:51-62 | Queueing a fresh piece puts exactly ceil(size / block size) requests out |
| DownloadTheorems.PieceTakesItsBlocks | source/client/downloader/downloader.cpp:51-94 | In every run, from the step that queues a piece's requests on and until it is collected, the piece is Complete if and only if exactly ceil(size / block size) blocks have come for it |
| SplitLoop.SplitLoopExits | source/client/downloader/downloader.cpp:53-55 | The 32-bit loop variable runs below the length for ceil(length / block) rounds, and is past it at the next look if and only if that many blocks fit into 32 bits |
| SplitLoop.SplitLoopEnds | source/client/downloader/downloader.cpp:53-55 | The loop variable ever reaches the length if and only if the length is at most 2^32 less the largest power of two that divides the block size |
| SplitLoop.AllSplitsFit | source/client/downloader/downloader.cpp:51-62 | If the blocks of the first piece fit into 32 bits, so do those of every piece of the torrent, and the loop leaves each at its last block |
| SplitLoop.SettingIsPerPiece | source/client/downloader/downloader.cpp:51-62 | What the results ask of a torrent is that each piece's own blocks fit into 32 bits |
| SplitLoop.RequestsAreSplit | source/client/downloader/downloader.cpp:53-62 | A loop that leaves at the last block requests exactly the blocks of the split |
| SplitLoop.DefaultSplitEnds | source/client/downloader/downloader.hpp:14-18 | With 8192-byte blocks the loop ends if and only if the piece has at most 2^32 - 8192 bytes, and then always at the last block |
| SplitLoop.SplitCanEndLate | source/client/downloader/downloader.cpp:53-55 | With a piece of 2^32 - 1 bytes and blocks of 7 the loop starts over at offset 3 and ends in its second pass |
| DownloadProofs.SplitIsPartition | source/client/downloader/downloader.cpp:51-62 | The requests of a piece are consecutive nonempty blocks no longer than the limit, inside the piece, that together cover each of its positions |
| DownloadProofs.SplitCount | source/client/downloader/downloader.cpp:51-62 | The split makes ceil(length / step) requests |
| DownloadSteps.ChokeLosesNothing | source/client/downloader/downloader.cpp:124-132 | A choke leaves every request outstanding exactly as often as before and empties the active set |
| DownloadSteps.AnswerConserves | source/client/downloader/downloader.cpp:69-94 | A block that answers an active request keeps conservation |
| DownloadSteps.AnswerKeepsContent | source/client/downloader/downloader.cpp:83-85 | After a block with the right bytes, all positions that are not awaited still hold the right bytes, in every piece |
| DownloadSteps.CompleteIsSettled | source/client/downloader/downloader.cpp:89-93 | A Complete piece has no position and no request outstanding |
| DownloadSteps.BeginKeeps | source/client/downloader/downloader.cpp:34-67 | Starting a fresh piece keeps the downloader's invariant, whether it waits for Interested or queues its requests at once |
| DownloadSteps.ContinueKeeps | source/client/downloader/downloader.cpp:47-64 | Going on after the Interested message keeps the invariant, whatever happened in between |
| DownloadSteps.StepKeeps | source/client/downloader/downloader.cpp:34-179 | Every step keeps the invariant, in each environment |
| DownloadSteps.RunKeeps | source/client/downloader/downloader.cpp:34-179 | So does every run |
| Downloader.Downloader.constructor | source/client/downloader/downloader.cpp:11-22 | A new downloader has no piece and no request and shares its peer's status |
| Downloader.Downloader.DownloadPiece | source/client/downloader/downloader.cpp:34-67 | Up to its first suspension: refuses without the bit, else registers a zeroed piece and either waits (choked) or queues all requests; Interested is sent exactly in the waiting case |
| Downloader.Downloader.ContinueDownload | source/client/downloader/downloader.cpp:51-64 | The rest of a call that waited: its requests go to the end of the queue |
| Downloader.Downloader.QueueRequests | source/client/downloader/downloader.cpp:51-62 | For every block size with which the loop with its wrapping 32-bit offset ends, on time or late, it appends one request for each of its rounds; the split of the piece if it ends on time |
| Downloader.Downloader.SendTurnOnce | source/client/downloader/downloader.cpp:139-153 | One look at the guard: the front request becomes active and is sent, or the coroutine leaves the loop |
| Downloader.Downloader.SendBuffered | source/client/downloader/downloader.cpp:139-153 | The whole send loop: requests leave the front of the queue in order until the guard fails |
| Downloader.Downloader.HandleBlock | source/client/downloader/downloader.cpp:69-94 | Ignores an unregistered piece; else erases the matching request, overwrites the bytes, counts in 32 bits and sets the status |
| Downloader.Downloader.ChokeActive | source/client/downloader/downloader.cpp:124-132 | All active requests move to the front of the queue, in reverse of the set's order |
| Downloader.Downloader.OnMessage | source/client/downloader/downloader.cpp:96-137 | The peer's handling comes first, then the downloader's; for each message the whole new state |
| Downloader.Downloader.Serve | source/client/downloader/downloader.cpp:96-137 | The same and the awaited send loop after it |
| Downloader.Downloader.RetrievePiece | source/client/downloader/downloader.cpp:155-179 | Nothing for an unknown piece, status and count for an unfinished one, extraction and hash verdict for a complete one |
| Downloader.Peer.constructor | source/client/context.hpp:66-78 | A new peer is choked, not interested, and has no bits |
| Downloader.Peer.HandleMessage | source/client/peer.cpp:112-131 | Each message changes exactly its own part of the status |
| Downloader.Peer.AssignBitfield | source/client/peer.cpp:43-47 | A bitfield message replaces the whole field by its payload |
| SwarmTheorems.Composition | source/client/reactor/strategy/strategy.hpp:73-171 | Over every run, `download_piece` is only called on a downloader with no entry for the piece and, when blocks answer requests, with no request for it either, also on the retry after a corrupt piece; the erase in `is_done` always finds its element; with right bytes no piece is judged corrupt |
| SwarmEffects.IncludeEffect | source/client/reactor/strategy/strategy.hpp:55-71 | The connected addresses become the old ones and all candidates'; each new one has exactly one new, empty downloader that holds nothing, with the first candidate of that address, port included; everything else stays |
| SwarmEffects.AssignEffect | source/client/reactor/strategy/strategy.hpp:73-105 | Lists and loads keep what they have, in order, and grow by just the same pairs: a pooled downloader that offers a missing piece, which it gets as a blank entry; all other entries, pool, connections, peers and vault stay |
| SwarmEffects.RevokeEffect | source/client/reactor/strategy/strategy.hpp:107-132 | Each list loses the inactive downloaders and keeps its order; those of them that hold a piece leave the pool with their connections; every other downloader keeps load, state and connection |
| SwarmStored.IsDoneEffect | source/client/reactor/strategy/strategy.hpp:134-171 | A piece is delivered if one of its downloaders has it whole with the right hash. Exactly the delivered pieces leave the lists, the missing ones and their deliverers' loads, and of those not stored yet the first deliverer's bytes are stored; connections and peers stay |
| SwarmStored.CollectAsksAgain | source/client/reactor/strategy/strategy.hpp:155-157 | A corrupt piece whose bit is still set is asked for again, waiting on a choked peer and queued on another; in every other case collecting queues nothing |
| SwarmRetry.CollectAllDecides | source/client/reactor/strategy/strategy.hpp:138-164 | What is left of each collected piece: nothing of a right one or of a corrupt one without its bit, a blank entry of another corrupt one, everything of an unfinished one; pieces of other lists stay as they are |
| SwarmTheorems.AssignmentRelation | source/client/reactor/strategy/strategy.hpp:55-171 | In every reachable state at most two distinct downloaders per piece and two distinct pieces per downloader; a listed downloader is pooled and holds the piece; on missing pieces the two maps agree; nonempty lists only belong to missing pieces; entries are held |
| SwarmTheorems.StorageAgreement | source/client/reactor/strategy/strategy.hpp:134-171 | Between any two points of a run, whatever in-bounds blocks arrive: the missing set is exactly the unstored indices and never grows, stored pieces are never overwritten, and each newly stored piece has its size and its hash |
| SwarmTheorems.DoneExactly | source/client/reactor/strategy/strategy.hpp:134-171 | From every reachable state `is_done` answers true if and only if every piece is then stored |
| SwarmTheorems.EmptyPieceStaysMissing | source/client/reactor/strategy/strategy.hpp:134-171 | When blocks answer requests, a piece of no bytes that the vault does not have stays missing in every run |
| SwarmRetry.EntriesKeptExactly | source/client/reactor/strategy/strategy.hpp:134-171 | From a state whose listed downloaders all have their entries, `is_done` leaves them all with entries if and only if each piece with a downloader that has it complete, with a wrong hash and without the bit, is also delivered by another one |
| SwarmRetry.LosesExactly | source/client/reactor/strategy/strategy.hpp:138-168 | After `is_done` a downloader is still listed exactly if nobody delivered the piece, and then has no entry exactly if its copy was complete, corrupt and without the bit |
| SwarmRetry.EntriesKeptThroughout | source/client/reactor/strategy/strategy.hpp:55-171 | Over every run with in-bounds blocks, whatever the other messages, the listed downloaders have their entries in every state if and only if each `is_done` meets that condition |
| SwarmEntries.OthersEnter | source/client/reactor/strategy/strategy.hpp:55-132 | `include`, `assign`, `revoke` and every message keep the entries of listed downloaders; bits too, if no message clears one |
| SwarmEntries.ListedHaveEntries | source/client/reactor/strategy/strategy.hpp:73-171 | In particular, in every run in which no message clears a bit the downloaders listed under a missing piece are exactly those with an entry for it, and they have its bit |
| SwarmStale.RaceLeavesStale | source/client/reactor/strategy/strategy.hpp:138-168 | After an `is_done` in which another downloader delivers a piece, one that was listed under it and could not deliver it holds the piece in its load although it is not missing any more |
| SwarmStale.StaleSlotsStay | source/client/reactor/strategy/strategy.hpp:146-168 | From any reachable state on, a piece in a load that is not missing stays there as long as its downloader is pooled, and a downloader with two of them is never eligible again |
| LostBit.RetryIsRefused | source/client/reactor/strategy/strategy.hpp:155-157 | There is a run whose blocks all answer requests, and in which a bitfield loses a bit, that ends in `is_done` with a downloader listed under a missing piece but without entry or request for it |
| SwarmTheorems.ConnectionUniqueness | source/client/reactor/strategy/strategy.hpp:55-132 | In every reachable state pooled downloaders and connections correspond one to one by address alone |
| SwarmTheorems.WindowInSwarm | source/client/downloader/downloader.cpp:96-153 | The same request window for every live downloader in every run of the swarm with in-bounds blocks |
| SwarmTheorems.EnabledIsCallable | source/client/reactor/strategy/strategy.hpp:55-171 | In every state that satisfies the invariant, each operation finds the objects it dereferences alive and the hashes it indexes present |
| SwarmTheorems.StepKeeps | source/client/reactor/strategy/strategy.hpp:55-171 | Each strategy operation and each step of a downloader keeps the swarm's invariant and does not grow the missing set |
| SwarmTheorems.MoveKeeps | source/client/downloader/downloader.cpp:47-153 | A message, a sending step or a resumed call of one downloader keeps the whole swarm's invariant |
| SwarmTheorems.RunKeeps | source/client/reactor/strategy/strategy.hpp:55-171 | So does every run |
| SwarmTheorems.Reachable | source/client/reactor/strategy/strategy.hpp:43-171 | Every state reached from the constructor's satisfies the invariant relative to the initial vault |
| SwarmAssign.AssignIsMaximal | source/client/reactor/strategy/strategy.hpp:73-105 | For any shuffle and pool order, after `assign` every missing piece has two downloaders, or each pooled downloader lacks its bit, is already on it, or holds two pieces |
| SwarmAssign.AssignKeeps | source/client/reactor/strategy/strategy.hpp:73-105 | `assign` keeps the invariant: it only asks downloaders that have no entry and no request for the piece |
| SwarmAssign.VisitIsLater | source/client/reactor/strategy/strategy.hpp:82-104 | While the loops of `assign` run, bits, listings and loads only move so that eligibility shrinks |
| SwarmAssign.OfferFindsFirst | source/client/reactor/strategy/strategy.hpp:85-101 | The inner loop gives the piece to the first eligible downloader of the pool, or to none if there is none |
| Swarm.AskAccepts | source/client/reactor/strategy/strategy.hpp:91-95 | The call accepts if and only if the bit is set, which the strategy has just looked at |
| SwarmRevoke.RevokeForgets | source/client/reactor/strategy/strategy.hpp:107-132 | After `revoke` no list mentions an inactive downloader, all other listings stay, and exactly the inactive downloaders that hold a piece leave the pool |
| SwarmRevoke.RevokeKeeps | source/client/reactor/strategy/strategy.hpp:107-132 | `revoke` keeps the invariant, although it can recreate empty lists |
| SwarmRevoke.DropAllResult | source/client/reactor/strategy/strategy.hpp:126-129 | The removal loop takes out exactly the named downloaders and their addresses, however often one is named |
| SwarmDone.IsDoneKeeps | source/client/reactor/strategy/strategy.hpp:134-171 | `is_done` keeps the invariant in any order of the pieces, does not grow the missing set and answers true exactly when it is empty |
| SwarmDone.CollectKeeps | source/client/reactor/strategy/strategy.hpp:139-163 | Collecting one piece from one downloader stores, releases or asks again, and keeps books and storage right |
| SwarmDone.EraseOneRemoves | source/client/reactor/strategy/strategy.hpp:146-149 | On a list without duplicates the erase of a single position removes exactly the piece |
| Bytes.WithoutInOrder | source/client/reactor/strategy/strategy.hpp:116-119 | Removing an element keeps all others in their order |
| SwarmProofs.IncludeKeeps | source/client/reactor/strategy/strategy.hpp:55-71 | `include` keeps the invariant for any candidate list, also with repeated addresses |
| SwarmProofs.InitialHolds | source/client/reactor/strategy/strategy.hpp:43-53 | The constructor's state satisfies the invariant |
| Strategy.RandomPieceStrategy.constructor | source/client/reactor/strategy/strategy.hpp:43-53 | The missing set is made of exactly the indices the vault does not have |
| Strategy.RandomPieceStrategy.IncludePeers | source/client/reactor/strategy/strategy.hpp:55-71 | One new downloader with an empty load for each candidate whose address is not connected yet |
| Strategy.RandomPieceStrategy.DownloadFrom | source/client/reactor/strategy/strategy.hpp:95-95 | Asks one downloader up to its first suspension and records whether it had an entry or requests for the piece |
| Strategy.RandomPieceStrategy.VisitPiece | source/client/reactor/strategy/strategy.hpp:84-102 | The loops of `assign` for one piece: the list entry appears, and at most one downloader is asked and recorded on both sides |
| Strategy.RandomPieceStrategy.AssignPieces | source/client/reactor/strategy/strategy.hpp:73-105 | Two passes over the shuffled missing pieces, in place |
| Strategy.RandomPieceStrategy.RevokeInactive | source/client/reactor/strategy/strategy.hpp:107-132 | Scan and removal together, in place |
| Strategy.RandomPieceStrategy.ScanPool | source/client/reactor/strategy/strategy.hpp:109-124 | Lists lose the inactive downloaders, and each of these is named once per piece it holds |
| Strategy.RandomPieceStrategy.UnlistHeld | source/client/reactor/strategy/strategy.hpp:113-122 | The inactive downloader leaves the list of each piece it holds, which may create empty lists, and is named once for each |
| Strategy.RandomPieceStrategy.Remove | source/client/reactor/strategy/strategy.hpp:126-129 | The named downloaders leave pool and connections, and the objects nobody refers to are destroyed |
| Strategy.RandomPieceStrategy.CollectPiece | source/client/reactor/strategy/strategy.hpp:140-162 | The switch on the retrieved piece's status: store, erase and mark as complete, or ask again, or nothing |
| Strategy.RandomPieceStrategy.CollectFromAll | source/client/reactor/strategy/strategy.hpp:139-163 | All downloaders listed under a piece are asked, also after one of them delivered it |
| Strategy.RandomPieceStrategy.CollectPieces | source/client/reactor/strategy/strategy.hpp:134-171 | All listed pieces in order, then the completed ones leave the index; the answer is whether nothing is missing |
| Storage.Vault.PushPiece | source/client/storage/storage.cpp:13-34 | First writer wins unless overwriting is asked for; then the file is written over from its start and not truncated |
| Storage.Vault.PullPiece | source/client/storage/storage.cpp:36-58 | Refused without the file or with a small buffer, leaving the buffer alone; else exactly the asked bytes come first in the buffer and the rest of it stays; a short file fails |
| Storage.WrittenOverBytes | source/client/storage/storage.cpp:28-33 | A file written over begins with what was written, and behind it keeps what it had there |
| Storage.Merge | source/client/reactor/reactor.hpp:101-122 | The loop over one reused buffer writes the stored pieces, each cut to its size, over the existing output file up to the first index that is not stored, or stops at a short file |
| Storage.MergeIsFile | source/client/reactor/reactor.hpp:107-122 | With all pieces stored at their sizes the joined pieces have the file's length, and byte i is byte i mod size of piece i div size |
| Storage.MergeExact | source/client/reactor/reactor.hpp:111-125 | On a full vault the merge writes exactly the file if and only if no stale file follows the last piece, or the last piece is a whole one, or the stale file is too short to be read; it also completes in the first two cases only |
| Storage.LengthExact | source/client/reactor/reactor.hpp:111-122 | Joining n pieces writes as many bytes as the file has if and only if n is the number of pieces it needs, or larger after a whole last one |
| TorrentContext.PieceRange | source/client/context.hpp:55-63 | Each piece is the nonempty part of the file between two multiples of the piece size, cut at the end of the file |
| TorrentContext.FirstPieceIsLongest | source/client/reactor/reactor.hpp:109-115 | The buffer sized for piece 0 is large enough for every index |
| EndToEnd.JoinedIsFile | source/client/reactor/reactor.hpp:107-122 | A vault that holds the pieces of a file joins to that file |
| EndToEnd.MergeAnyRun | source/client/reactor/reactor.hpp:93-122 | If a run of the swarm with in-bounds blocks ends with nothing missing, however many hashes the torrent has, the merge stops at the first unreadable file past the last index, and writes as many bytes as the file has if and only if it joins as many pieces as the file needs, or more after a whole last one |
| EndToEnd.LoadedRunWrites | source/client/torrenter.cpp:58-65 | For a loaded torrent whose run ends, the stored pieces join to as many bytes as its files have if and only if its `pieces` string has just the right length, or is too long after a whole last piece |
| EndToEnd.MergeAfterRun | source/client/reactor/reactor.hpp:93-122 | After such a run of a torrent that describes a file, whatever stale files and output there were: each piece of the output is the file's if and only if no other byte string with its hash is stored for it, and the output is the file if and only if none is, no stale file adds to it, and the output was no longer before |
| EndToEnd.ExtraHashNeverDone | source/client/torrenter.cpp:58-65 | With a hash too many after a whole last piece, no run whose blocks answer requests ends with nothing missing, unless the vault had the extra piece |
| EndToEnd.HonestSwarmGivesFile | source/client/reactor/strategy/strategy.hpp:73-171 | With right blocks no piece is ever judged corrupt in any run, and once nothing is missing the stored pieces join to the file, without any assumption on the hash |
| BencodeTheorems.RoundTrip | source/torrent/metadata/bencode.cpp:20-187 | For every value, suffix and depth limit: reading the printed value gives it back and uses exactly its length if its nesting fits the limit, and fails on depth otherwise |
| BencodeTheorems.CanonicalExact | source/torrent/metadata/bencode.cpp:20-187 | Re-encoding an accepted input gives exactly the bytes used if and only if these are canonical (ascending keys, no leading zeros, no minus zero) |
| BencodeTheorems.NormalisingTwice | source/torrent/metadata/bencode.cpp:20-187 | A re-encoded input is no longer than the bytes used and reads back as the same value under the same limit |
| BencodeTheorems.Local | source/torrent/metadata/bencode.cpp:63-187 | An accepting read is unchanged when everything after the bytes it used is replaced |
| BencodeTheorems.NoAcceptedPrefix | source/torrent/metadata/bencode.cpp:63-187 | No proper prefix of the bytes used is accepted |
| BencodeTheorems.EncodingsSplitOneWay | source/torrent/metadata/bencode.cpp:20-61 | Concatenated encodings come from only one list of values |
| BencodeTheorems.HashedBytes | source/torrent/metadata/torrentfile.cpp:111-121 | In an accepted dictionary the last member with a key has one place in the input, and the re-encoded value of the key is what lies there if and only if that text is canonical |
| BencodeTheorems.LastMemberUnique | source/torrent/metadata/bencode.cpp:122-143 | A dictionary's text has at most one place for the last member with a key |
| BencodeTheorems.LastAssignmentWins | source/torrent/metadata/bencode.cpp:137-137 | Of several members with one key, the last in the input gives the value |
| BencodeTheorems.AssignLooksUp | source/torrent/metadata/bencode.cpp:137-137 | The entry list is a map: a key looks up what was assigned to it last, and other keys are unaffected |
| BencodeTheorems.AssignKeepsOrder | source/torrent/metadata/bencode.cpp:122-143 | The entry list stays strictly ascending in the byte order of its keys |
| BencodeTheorems.TreeSpells | source/torrent/metadata/bencode.cpp:20-61 | What the printer makes is a well-formed text of the grammar, as deep as the value |
| BencodeTheorems.TreeMeans | source/torrent/metadata/bencode.cpp:20-61 | That text is canonical and means the value |
| BencodeGrammar.ReadsSyntax | source/torrent/metadata/bencode.cpp:63-187 | Completeness: on every text of the grammar, whatever follows, the reader gives its meaning and length if the limit allows its height, and fails on depth otherwise |
| BencodeGrammar.SyntaxRead | source/torrent/metadata/bencode.cpp:63-187 | Soundness: whatever the reader accepts is a text of the grammar with that meaning, no deeper than the limit |
| BencodeGrammar.SyntaxUnique | source/torrent/metadata/bencode.cpp:63-187 | The format can be read in one way only: if two texts with anything behind them are the same bytes, they are the same text |
| Bencode.Decode | source/torrent/metadata/bencode.cpp:162-187 | An accepting read uses between 2 and all of the bytes; the definition ends on every input |
| Bencode.DecodeString | source/torrent/metadata/bencode.cpp:89-120 | An accepting read uses at least two bytes, a digit and the delimiter, and stays inside the input, although the length check is done in wrapping 64-bit arithmetic |
| Bencode.DecodeInt | source/torrent/metadata/bencode.cpp:63-87 | An accepting read uses at least prefix and suffix and stays inside the input |
| Bencode.DecodeValue | source/torrent/metadata/bencode.cpp:162-187 | The dispatch on depth, length and first byte, with the list and dictionary loops below it, computes the reader's function |
| Bencode.DecodeList | source/torrent/metadata/bencode.cpp:145-160 | The loop pushes exactly the items of the list and stops behind its suffix, or fails as the reader's function does |
| Bencode.DecodeDict | source/torrent/metadata/bencode.cpp:122-143 | The loop assigns exactly the members in input order and stops behind the suffix, or fails as the reader's function does |
| Bencode.EncodeValue | source/torrent/metadata/bencode.cpp:20-33 | The visitor computes the printer's function |
| Bencode.EncodeList | source/torrent/metadata/bencode.cpp:35-47 | The stream holds prefix, items in order and suffix |
| Bencode.EncodeDict | source/torrent/metadata/bencode.cpp:49-61 | The stream holds prefix, keys and values in key order, and suffix |
| Formats.Texts | source/torrent/metadata/bencode.cpp:13-61 | The texts of a number, a string, a list and a dictionary, byte by byte |
| Formats.KeyOrder | source/torrent/metadata/bencode.hpp:28-28 | Keys are ordered by their first differing byte, a prefix first |
| Decimal.PrintIsMinimal | source/torrent/metadata/bencode.cpp:25-33 | A printed number is a numeral without leading zeros whose value is the number |
| Decimal.PrintValue | source/torrent/metadata/bencode.cpp:25-33 | A numeral is what its value prints as if and only if it has no leading zero |
| Decimal.ReadsWhole | source/torrent/metadata/bencode.cpp:63-111 | The number parser reads its whole input if and only if that is one numeral in range, with a minus sign only for signed numbers |
| TorrentFile.LoadTorrentFile | source/torrent/metadata/torrentfile.cpp:76-219 | The checks in order; on success trackers, hashes, layout, lengths and the hash of the re-encoded info dictionary |
| TorrentFile.LoadAccepted | source/torrent/metadata/torrentfile.cpp:76-193 | Exactly which torrents load, and with which error each other one is refused |
| TorrentFile.LoadedParts | source/torrent/metadata/torrentfile.cpp:86-193 | Each field of a loaded torrent is that of its own field in the file, the piece length in 32 bits |
| TorrentFile.TrackersAre | source/torrent/metadata/torrentfile.cpp:86-109 | The trackers are `announce` and then all strings of `announce-list` in order, if it is a list |
| TorrentFile.EntryPath | source/torrent/metadata/torrentfile.cpp:170-178 | A file's path is a slash before each of its entry's path parts |
| TorrentFile.InfoHashOfFile | source/torrent/metadata/torrentfile.cpp:111-121 | For every torrent file that decodes and loads, the info hash is that of the re-encoded info dictionary, whose bytes are those at its one place in the file if and only if these are canonical |
| TorrentFile.ReadHashes | source/torrent/metadata/torrentfile.cpp:143-150 | The loop cuts the string into 20-byte hashes or refuses it |
| TorrentFile.HashesPartition | source/torrent/metadata/torrentfile.cpp:140-150 | The string is accepted if and only if its length is a multiple of 20, and then the hashes have 20 bytes each and concatenate to it |
| TorrentFile.ReadFiles | source/torrent/metadata/torrentfile.cpp:157-182 | The loop places each file at the 64-bit sum of the sizes before it, with the same sum as total |
| TorrentFile.PlaceIsSum | source/torrent/metadata/torrentfile.cpp:157-182 | Each file's offset, and the total, is the sum of the sizes before it modulo 2^64 |
| TorrentFile.ReadLayout | source/torrent/metadata/torrentfile.cpp:152-193 | The branches in order compute the layout that LayoutAccepted and LoadedLayout characterise |
| TorrentFile.LayoutAccepted | source/torrent/metadata/torrentfile.cpp:152-193 | A file list that is there decides alone: it is accepted if and only if every entry is a dictionary with an integer length and a path of strings, and gives one file for each entry with its 64-bit size; otherwise a single integer length is needed; with the error for each case |
| TorrentFile.LoadedLayout | source/torrent/metadata/torrentfile.cpp:135-193 | The piece hashes of every loaded torrent have 20 bytes each and concatenate to its `pieces` string, and its files, listed or single, tile it if and only if their sizes do not overflow 64 bits in sum |
| TorrentFile.FilesTileExactly | source/torrent/metadata/torrentfile.cpp:152-182 | The files tile the torrent, each byte lying in exactly one of them, if and only if their sizes do not overflow 64 bits in sum |
| TorrentFile.ContextFields | source/client/torrenter.cpp:58-65 | In the download's context the piece size is the torrent's `piece length` in 32 bits, the file size the sum of the files' sizes in 64 bits, and hash i the 20 bytes of `pieces` from 20 i on |
| TorrentFile.LoadedContext | source/client/torrenter.cpp:58-65 | That context has a hash for every index if and only if the `piece length` is not zero in 32 bits; its number of pieces is the length of the `pieces` string over 20, in 32 bits, whatever the file needs, and with one too many after a whole last piece the extra piece is empty |
| Wire.StoredHighByteFirst | source/auxiliary/big_endian.hpp:15-47 | On little- and big-endian machines alike a stored integer lies in memory high byte first and reads back |
| Wire.StreamRoundTrip | source/client/transmit/transmit.cpp:52-181 | The concatenation of any sent messages is read back as the same messages in order |
| Wire.SendReadExact | source/client/transmit/transmit.cpp:52-181 | A message is read back whole, leaving what follows it, if and only if it is not a keepalive and its length field does not wrap |
| Wire.ReadsOneFrame | source/client/transmit/transmit.cpp:159-181 | Reading takes exactly 4 + length bytes off the stream, whether the body is accepted or not; four zero bytes are a Keepalive |
| Wire.ReadsEveryFrame | source/client/transmit/transmit.cpp:103-181 | Any stream of frames is read frame by frame, so a rejected one does not disturb those after it |
| Wire.RejectedExactly | source/client/transmit/transmit.cpp:103-156 | A body is rejected if and only if its id is unknown or it is shorter than the id's layout, with the error that says which |
| Wire.BodyMeansMessage | source/torrent/messages.hpp:69-187 | Parsing the body of each sent message gives back its kind, public fields and payload |
| Formats.FlagFrames | source/torrent/messages.hpp:27-37 | The frames of choke, unchoke, interested and not interested, byte by byte |
| Formats.RequestFrame | source/torrent/messages.hpp:92-109 | A request's frame, byte by byte |
| Formats.CancelFrame | source/torrent/messages.hpp:111-120 | A cancel's frame, byte by byte |
| Formats.PieceFrame | source/torrent/messages.hpp:138-175 | A block's frame, byte by byte, with its payload's length in its length field |
| Formats.OtherFrames | source/torrent/messages.hpp:83-174 | The frames of a Have, a bitfield and a port, byte by byte |
| Formats.ReadFrames | source/client/transmit/transmit.cpp:159-181 | Four zero bytes are a keepalive, id 10 is unknown, a short Have is rejected |
| Transmit.SendMessage | source/client/transmit/transmit.cpp:52-99 | The message's bytes are appended to the stream; nothing for a keepalive |
| Transmit.ReceiveMessage | source/client/transmit/transmit.cpp:159-181 | Filling the frame buffer behind the restored length slot gives the reader's result and leaves the rest of the stream |
| Transmit.ReceiveLoop | source/client/peer.cpp:133-156 | Until the stream ends, every accepted message goes to the peer and then to the downloader's awaited callback, in order, and the latest three rejections are noted |
| Transmit.ServeRuns | source/client/peer.cpp:139-147 | Serving a message is a run in which it arrives and then, if it is a block, a choke or an unchoke, its sender takes turns until the guard fails and it leaves |
| Transmit.LoopRuns | source/client/peer.cpp:133-156 | The loop over frames is a run in which exactly the accepted messages arrive, in order, and nothing else happens but senders' turns |
| Transmit.ErrorsInOrder | source/client/peer.cpp:148-150 | Each rejected frame is one error, in order |
| Transmit.LatestAreLast | source/client/peer.hpp:32-32 | The last three errors are kept |
| Transmit.LoopKeepsWindow | source/client/peer.cpp:133-156 | For any bytes whose blocks stay inside their pieces, the loop is a run of the downloader, and leaves it with as many senders as before and its request window |
| Transmit.HandledAsSent | source/client/peer.cpp:133-156 | A downloader fed with the bytes of any sent messages handles exactly these messages in order, with no rejection, and its peer's status is what they make of it |
| BitFields.MarksRefineSet | source/torrent/bitfield/bitfield.cpp:7-53 | From any raw bytes and after any marks, with growth, an index reads its last mark, or else its original high-bit-first bit |
| BitFields.MarkChangesOneBit | source/torrent/bitfield/bitfield.cpp:17-36 | A mark changes its own index and no other |
| BitFields.GetReadsBit | source/torrent/bitfield/bitfield.cpp:38-53 | The mask test reads the high-bit-first bit, and false beyond the end |
| BitFields.BitField.Mark | source/torrent/bitfield/bitfield.cpp:17-36 | Grows the vector when needed and sets or clears one bit in place |
| BitFields.BitField.IsEmpty | source/torrent/bitfield/bitfield.cpp:55-64 | True if and only if no index reads true |

## Left out

- Strategy operations are single steps: the suspensions inside `assign` and `is_done` are not interleaved with other operations, and coroutine lifetimes are not modelled.
- Inside `Strategy`, downloaders are identities with states of their own (`Download.State`), not references to `Downloader.Downloader` objects, so aliasing between the two classes is not captured; both classes are proved against the same functions.
- DownloadSteps.AnswerConserves: late and repeated replies, as after a choke, are outside the `Matching` environment; `DownloadTheorems.ConservationExact` says exactly what they do to conservation.
- DownloadTheorems.Conservation: assumes a piece size whose blocks fit into 32 bits; with the client's block size these are exactly the sizes whose split loop ends (`SplitLoop.DefaultSplitEnds`).
- Downloader.Downloader.DownloadPiece: requires blocks that fit into 32 bits; what a loop queues that ends late, as only other block sizes allow, is stated for `QueueRequests` alone.
- Downloader.Downloader.HandleBlock: requires the block to stay inside its piece; the unchecked copy beyond it has no defined result.
- Storage.Merge: requires some 32-bit index that is not stored, because otherwise the loop counter wraps and the loop does not end.
- EndToEnd.MergeAfterRun: trusts the pieces that the vault has at the start.
- BencodeTheorems.RoundTrip: inputs are at most 2^63 - 1 bytes long, the largest size of a string object; list and dictionary loops test for the end of input before reading the byte, where the source relies on the terminating NUL.
- Wire.StreamRoundTrip: the private length field of received messages, which the reader leaves in machine byte order, is not part of a message's value.
- SHA-1 is a function parameter; nothing is assumed about it.
- Transmit.ReceiveLoop: requires blocks that stay inside their pieces when their turn comes, and runs each callback's send loop without other coroutines in between; `DownloadTheorems.RequestWindow` covers all interleavings.
- Sockets, connecting, the handshake, timers, the send channel's capacity, shutting down and the parallel tracker coroutine: runtime plumbing.
- File system calls: the vault is a map from index to bytes for one torrent, and pieces found at the start are trusted.
- Liveness of the swarm: stale slots (`SwarmStale.StaleSlotsStay`) and idle dead peers (`SwarmRevoke.RevokeForgets`) stay, so the code does not promise it.
- Fields nothing here depends on: timestamps, remote choke state, peer ids, message texts of exceptions, the hexadecimal form of the info hash, comment, creator, creation date and encoding of a torrent.
- The UDP tracker client, name resolution, random ids, the command line and the console output.
