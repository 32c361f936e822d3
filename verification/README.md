# A verified model of the HotStuff replica and the library under it

This project models, in Dafny, the consensus core of a replicated state machine
built on the event-driven three-chain HotStuff protocol, the structures that
protocol rests on, its speculation layer, and three algorithms of the bundled XDR
library. The main results are statements about every run, every schedule or every
input. `dafny verify dfyconfig.toml` checks all of it.

## The parts

**Consensus** (`Blocks`, `Quorum`, `Replica`, `Network`, `Safety`, `Invariant`,
`Agreement`, `Progress`, `Lockstep`, `Forks`, `Limits`). A block is a value that contains its
parent and its justify block, which is what an injective hash makes of a header.
`ReplicaSpec` holds the handlers of `HotstuffCore` as functions on a replica's state;
`ReplicaCore` holds the object with its loops, each method proved equal to its function
and to what it means. `Network` puts the honest replicas and an arbitrary set of faulty
voters into one transition system: proposals and votes arrive in any order at any
replica, blocks are minted, bodies are collected, replicas reboot. Signatures are ideal:
a signature exists exactly when its owner voted.

Agreement is proved for every number of replicas under four hypotheses. Each of them is
needed: without it, and with the other three, some run makes two honest replicas execute
different chains, in every configuration that has two honest replicas and whose ids fit
the certificate's bit map.

- The faulty replicas number fewer than n - 2⌊n/3⌋. This covers ⌊(n-1)/3⌋ for every
  n and is exact (`Limits.AgreementIsExact`). The code's own `nfaulty = n/3` is one
  too many when three divides n.
- Every block that is delivered has its justify block among its proper ancestors.
  `insert_block` does not test this; `do_propose` always produces it
  (`Limits.UnrelatedJustifyBreaksAgreement`).
- Heights stay below 2^32, because `vheight` has 32 bits while heights have 64
  (`Limits.HeightsBreakAgreement`).
- No replica restarts, because a reload resets `vheight` and the lock
  (`Limits.RestartsBreakAgreement`).

**Recovery** (`BigEndian`, `Recovery`). The decided index under big-endian keys, the
database that a run's commits build, and the reload loop that reads it back.

**Certificates** (`BitVectors`, `Certificates`). The bit vector, the wire form of a
quorum certificate and its verification.

**Block store and fetching** (`BlockStorage`, `FetchQueue`, `FetchProgress`). The store by
hash, the network queue whose events may wait for blocks that are being fetched, and what
becomes of them. Where it matters that hashes do not collide, that is a hypothesis on the
blocks that arrive (`FetchProgress.Coherent`).

**Speculation** (`Speculation`, `VmControl`). The list of speculatively executed
blocks, the bridge over it, and the asynchronous interface to the state machine.
Every region under a mutex is one atomic step; the bridge's rewind branch takes its
own mutex twice in the source and is modelled by its intended effect.

**XDR library** (`Xdr`, `XdrLayout`, `XdrCanonical`, `XdrArchive`, `BufferedWriter`,
`Framing`, `ReadTurns`, `MsgSock`, `Channels`, `NumberTheory`, `Rotation`). Marshalling
(RFC 4506) as functions and as the two archives that move a cursor over a buffer, a
buffered writer over it, record-marked streams (section 11 of RFC 5531) with the socket
that reads and writes them, and the gcd cycle-leader rotation of `permute_args`.

`Options` is shared by several of these.

## What the source does not do

Found while proving, and stated as lemmas about the code as it is:

- The length limit of a vector is documented to be enforced when marshalling
  (hotstuff/xdrpp/xdrpp/types.h:502-504); the code checks it only when
  unmarshalling, so an over-long vector is written and cannot be read back
  (`Xdr.MessageRoundTrip`).
- A message that finds the send queue empty and whose first write would block is
  never sent: `output` returns without asking for a write callback, and later
  messages do not find the queue empty (`MsgSock.StallsIff`, `Channels.BytesLeaveIff`).
- After a failed write the queue is thrown away and later messages are dropped, so the
  receiver never gets everything (`Channels.EndToEnd`).
- A caller asleep in `get_proposal` is left asleep by a block submitted for execution,
  and by another caller who takes the last proposal after proposals were stopped
  (`VmControl.StrandedIff`).
- After a length word that is too long, `input` does not return but reports the
  failure again in its remaining turns; a refused word is never consumed
  (`MsgSock.MsgSocket.Input`).
- The set of replicas a block was requested from is never written, so every new
  dependent event asks again; and an event naming an unconfigured replica drops, with
  itself, everything that waited for its block (`FetchQueue.DroppedIff`).
- A boolean is decoded from any word, so a message may not re-encode to itself
  (`XdrCanonical.MessageCanonicalIff`).
- Reloading before the first commit throws, because there is no certificate to load
  (`Recovery.RecoversDecidedChain`).
- The comment in hotstuff/xdrpp/xdrpp/msgsock.h:16-19 calls the length word
  little-endian; the code writes it big-endian, as the RFC says.
- A proposal made at a height other than the speculation head is run by the state
  machine and not listed (`Speculation.InStepIff`).

## Model

| member | source | states |
|---|---|---|
| Agreement.LogsAgree | hotstuff/hotstuff/consensus.cc:36-165 | Agreement: in every disciplined run with a tolerable number of faulty voters, the logs applied by any two honest replicas at any two moments are prefixes of one another |
| Agreement.DecisionsAgree | hotstuff/hotstuff/consensus.cc:36-165 | any two blocks decided by honest replicas, at any moments, lie on one ancestor chain |
| Agreement.CommitSoundness | hotstuff/hotstuff/consensus.cc:71-100 | "safety breached" and a missing body are unreachable; blocks are applied at heights 1, 2, 3, …, each the parent of the next; the decided set is exactly the ancestors of the executed block |
| Agreement.HeightsOrdered | hotstuff/hotstuff/consensus.cc:21-106 | height of b_exec ≤ height of b_lock ≤ height of hqc, the first strict after a commit; all three certified; lock and hqc descend from b_exec |
| Agreement.RunAdvances | hotstuff/hotstuff/consensus.cc:21-106 | between any two moments of a run no height falls, executed chains only grow and votes only accumulate |
| Agreement.OneCertificatePerHeight | hotstuff/hotstuff/consensus.cc:132-165 | two certified blocks of one height are equal, and each honest replica's votes rise strictly in height |
| Agreement.Durability | hotstuff/hotstuff/consensus.cc:62-103 | every block named by the decided index is on disk with its body, the saved blocks are closed under ancestors, and the lock descends from the executed block |
| Agreement.MintedAlwaysWellFormed | hotstuff/hotstuff/hotstuff.cc:58-102 | at every moment b_leaf extends the block of hqc, whose certificate verifies, so a minted block has its justify block as an ancestor and is accepted everywhere |
| Agreement.StableLeader | hotstuff/hotstuff/block.cc:77-85 | once a leaf that supports a non-empty child was processed, its great-grandparent is decided and every undecided ancestor is the replica's own proposal |
| Agreement.SupportsIff | hotstuff/hotstuff/block.cc:77-85 | the test holds at a depth if and only if that many blocks from the leaf up are the replica's own and each justified by its parent, whatever lies above |
| Agreement.StepOk | hotstuff/hotstuff/consensus.cc:21-165 | every event keeps the whole-system invariant and advances every replica |
| Agreement.RunOk | hotstuff/hotstuff/consensus.cc:21-165 | the invariant holds at every moment of every disciplined run |
| Progress.ProposalEffect | hotstuff/hotstuff/consensus.cc:36-165 | in every disciplined run, what a delivered block makes of a replica exactly: whether it votes and at what height, the highest certificate and leaf, the lock, the executed block |
| Progress.ProposalRaises | hotstuff/hotstuff/consensus.cc:55-58 | from the moment a block was processed on, the replica's highest certificate is at least as high as the block's |
| Progress.VotesCollected | hotstuff/hotstuff/consensus.cc:108-127 | a replica's own certificate for a block holds exactly the votes for it that were handed to it, of ids that fit the bit map |
| Progress.QuorumRaises | hotstuff/hotstuff/consensus.cc:108-127 | at every moment the highest certificate is at least as high as every block on which the replica collected a quorum |
| Progress.MintCarries | hotstuff/hotstuff/hotstuff.cc:58-79 | in every run the block minted carries the payload it was given, on the leaf, with the highest certificate, and becomes the leaf; nothing else changes |
| Progress.MintsDiffer | hotstuff/hotstuff/hotstuff.cc:58-79 | two proposals are one block if and only if payload, leaf and certificate are the same |
| ReplicaSpec.UpdateEffect | hotstuff/hotstuff/consensus.cc:36-106 | what update leaves: the certificate and leaf taken up before any return that follows, the lock moved, the bottom of a direct undecided three-chain executed unless the commit throws; votes untouched |
| Safety.ThreeChainBinds | hotstuff/hotstuff/consensus.cc:50-72 | a certified block at or above the bottom of a certified direct three-chain descends from it |
| Safety.CommittedBinds | hotstuff/hotstuff/consensus.cc:71-86 | the same for every block ever committed |
| Safety.CertifiedUnique | hotstuff/hotstuff/consensus.cc:135-162 | in any vote log that obeys the vote rule, two certified blocks of one height are equal |
| Safety.LaterVote | hotstuff/hotstuff/consensus.cc:135-162 | of two certified blocks the higher was voted for under a certified lock, another block, that is at least as high as the lower one demands and that the vote rule accepted |
| Safety.FirstCertified | hotstuff/hotstuff/consensus.cc:108-127 | a certified block has a first moment at which it reached its quorum |
| Invariant.CastVoteOk | hotstuff/hotstuff/consensus.cc:132-162 | a vote that passes the test obeys the vote rule with respect to all earlier votes of the replica |
| Invariant.SaveLockOk | hotstuff/hotstuff/consensus.cc:62-65 | moving the lock and saving it keeps the disk invariant |
| Invariant.CommitOk | hotstuff/hotstuff/consensus.cc:71-103 | committing a certified three-chain keeps the replica invariant and does not throw |
| Invariant.UpdateOk | hotstuff/hotstuff/consensus.cc:36-106 | the whole of update keeps the replica invariant, never lowers a height and locks what the block demands |
| Limits.AgreementIsExact | hotstuff/hotstuff/config/replica_config.cc:69-77 | agreement holds in all disciplined runs if and only if the faulty replicas number fewer than n - 2⌊n/3⌋ or at most one replica is honest |
| Limits.TooManyFaulty | hotstuff/hotstuff/config/replica_config.cc:69-77 | with more faulty replicas some disciplined run makes two honest replicas apply different blocks |
| Limits.UnrelatedJustifyBreaksAgreement | hotstuff/hotstuff/block_storage/block_store.cc:26-59 | if certificates need not point at ancestors, while heights fit and nobody restarts, all runs of a configuration agree if and only if at most one replica is honest |
| Limits.HeightsBreakAgreement | hotstuff/hotstuff/consensus.h:40 | if heights may outgrow 32 bits, while certificates point at ancestors and nobody restarts, all runs of a configuration agree if and only if at most one replica is honest |
| Limits.RestartsBreakAgreement | hotstuff/hotstuff/consensus.cc:167-178 | if replicas may restart, while certificates point at ancestors and heights fit, all runs of a configuration agree if and only if at most one replica is honest |
| Limits.ExecutedGrows | hotstuff/hotstuff/consensus.cc:71-103 | in every run whatsoever, restarts and faults included, a replica's executed chain only grows |
| Limits.VotesOnceIffHeightFits | hotstuff/hotstuff/consensus.cc:135-162 | having voted for a block a replica refuses every block no higher than it if and only if that height is below 2^32 |
| Quorum.QuorumsOverlap | hotstuff/hotstuff/config/replica_config.cc:69-77 | for every n two quorums share more than ⌊(n-1)/3⌋ replicas |
| Quorum.ToleranceIsExact | hotstuff/hotstuff/config/replica_config.cc:69-77 | every two quorums share an honest replica if and only if the faulty ones number fewer than n - 2⌊n/3⌋ |
| Quorum.ReplicaConfig.AddReplica | hotstuff/hotstuff/config/replica_config.cc:57-66 | a new id is added and counted; a known id throws and changes nothing |
| Quorum.ReplicaConfig.FinishInit | hotstuff/hotstuff/config/replica_config.cc:69-77 | the quorum size becomes n - ⌊n/3⌋ of the configured replicas |
| Blocks.PrefixIffAncestor | hotstuff/hotstuff/consensus.cc:78-86 | one block's chain is a prefix of another's if and only if it is its ancestor |
| Blocks.ChainAt | hotstuff/hotstuff/block.cc:57-61 | the block at place i of a chain has height i + 1 and its predecessor as parent |
| Blocks.PathCovers | hotstuff/hotstuff/consensus.cc:78-83 | the commit path holds exactly the ancestors of the new block that are not ancestors of the old |
| Blocks.WalkDown | hotstuff/hotstuff/consensus.cc:145-151 | walking parents down to the lock's height ends on the lock if and only if the lock is an ancestor |
| ReplicaCore.HotstuffCore.UpdateHighQc | hotstuff/hotstuff/consensus.cc:21-34 | the higher of the two certificates is kept, the leaf stays on or above its block, and every quorum collected stays at or below it |
| ReplicaCore.HotstuffCore.WriteBlock | hotstuff/hotstuff/block.cc:110-124 | among saved blocks closed under parents exactly the ancestors get saved, new ones with the body they still have and old ones untouched, and the set stays closed |
| ReplicaCore.HotstuffCore.CommitQueue | hotstuff/hotstuff/consensus.cc:75-86 | the queue is the reversed path from the executed block, and the walk ends there if and only if that is an ancestor |
| ReplicaCore.HotstuffCore.ApplyQueue | hotstuff/hotstuff/consensus.cc:88-99 | the queue is decided, applied and indexed from the bottom up |
| ReplicaCore.HotstuffCore.CommitUpTo | hotstuff/hotstuff/consensus.cc:74-103 | the whole commit, with the "safety breached" throw when the executed block is no ancestor |
| ReplicaCore.HotstuffCore.UpdateChain | hotstuff/hotstuff/consensus.cc:36-106 | unless its certificate is on a decided block, a block's certificate becomes the highest, and its block the leaf, exactly when it is higher; the lock moves to the second certificate's block exactly when that is undecided and higher; the bottom of a direct undecided three-chain is executed |
| ReplicaCore.HotstuffCore.ReceiveProposal | hotstuff/hotstuff/consensus.cc:130-165 | votes exactly when the block is above vheight and its justify is above the lock or it extends the lock, remembers its height only then, and takes up its certificate in any case |
| ReplicaCore.HotstuffCore.ReceiveVote | hotstuff/hotstuff/consensus.cc:108-127 | adds exactly this vote to the block's certificate; hqc never falls, moves only to a certificate just completed by this voter with a quorum of signers, and stays at or above every quorum collected; a voter beyond the bit map throws and changes nothing |
| ReplicaCore.HotstuffCore.DoPropose | hotstuff/hotstuff/hotstuff.cc:58-79 | the minted block carries the payload given, is one above the leaf and carries hqc; if the leaf was above the block of hqc, its certificate points at an ancestor and the new leaf is above it again |
| BigEndian.KeyOrder | hotstuff/utils/serialize_big_endian.h:15-28 | byte order of keys is numeric order and keys are injective |
| BigEndian.ReadWrite | hotstuff/utils/serialize_big_endian.h:15-28 | reading what was written returns every value that fits |
| BigEndian.WriteRead | hotstuff/utils/serialize_big_endian.h:56-82 | writing what was read returns the bytes |
| BigEndian.WriteUnsigned | hotstuff/utils/serialize_big_endian.h:15-28 | the loop writes the big-endian bytes at the offset and touches nothing else |
| BigEndian.ReadUnsigned | hotstuff/utils/serialize_big_endian.h:56-82 | the loop accumulates the value of the bytes |
| Recovery.PutEncodes | hotstuff/hotstuff/lmdb.cc:45-63 | adding a decided block under its height key keeps database and index equivalent |
| Recovery.AddDecidedBlock | hotstuff/hotstuff/lmdb.cc:45-63 | the block goes under its height in eight big-endian bytes, and a database that held the index goes on holding it |
| Recovery.DatabaseEncodes | hotstuff/hotstuff/consensus.cc:88-103 | in every run the database built by the commits so far holds exactly the decided index |
| Recovery.EntriesAreChain | hotstuff/hotstuff/lmdb.cc:10-26 | a cursor in byte order yields the decided chain in order |
| Recovery.ReloadDecidedBlocks | hotstuff/hotstuff/hotstuff.cc:140-160 | the reload loop computes the reload function, with its four ways to throw |
| Recovery.ReloadChain | hotstuff/hotstuff/hotstuff.cc:140-160 | reloading a chain that is on disk meets no missing dependency and ends in the restarted state |
| Recovery.RecoversDecidedChain | hotstuff/hotstuff/consensus.cc:167-178 | at every moment of every run a reload, in key order, of the database its commits built restores the same decided chain and b_exec, or throws if nothing was ever committed |
| BitVectors.MaskOfPositions | hotstuff/utils/bitvector.h:74-118 | a bit map is determined by its positions |
| BitVectors.PositionsOfMask | hotstuff/utils/bitvector.h:74-118 | every ascending list of positions is that of some bit map |
| BitVectors.BitVector.Add | hotstuff/utils/bitvector.h:82-84 | exactly one position is added |
| BitVectors.BitVector.Pop | hotstuff/utils/bitvector.h:86-92 | the lowest position is returned and removed, the others stay |
| BitVectors.BitVector.Size | hotstuff/utils/bitvector.h:102-104 | the population count is the number of positions |
| BitVectors.BitVector.Contains | hotstuff/utils/bitvector.h:114-116 | the bit test is membership among the positions |
| Certificates.WireRoundTrip | hotstuff/hotstuff/crypto/certs.cc:62-100 | serializing and reading back is the identity on every signature map with ids below the bit width |
| Certificates.WireCanonical | hotstuff/hotstuff/crypto/certs.cc:62-100 | reading and serializing back is the identity if and only if the population count equals the number of signatures |
| Certificates.CommonSigner | hotstuff/hotstuff/crypto/certs.cc:113-129 | two certificates that verify on non-genesis hashes were both validly signed by some honest replica |
| Certificates.VerdictIsVerifies | hotstuff/hotstuff/block.cc:101-108 | the acceptance test of the protocol model is verify: what verifies is accepted, what is accepted names no unknown id, and the two are one when every voter's signature checks |
| Certificates.BuiltVerifies | hotstuff/hotstuff/crypto/certs.cc:131-133 | a certificate that has a quorum of checked votes verifies after a trip over the wire |
| Certificates.QuorumCertificate.OfWire | hotstuff/hotstuff/crypto/certs.cc:62-77 | popping ids in a loop builds the map of the wire form; a mismatched bit map leaves it empty |
| Certificates.QuorumCertificate.Serialize | hotstuff/hotstuff/crypto/certs.cc:79-100 | the loop produces the wire form, lowest id first |
| Certificates.QuorumCertificate.AddPartialCertificate | hotstuff/hotstuff/crypto/certs.cc:102-111 | a different hash and an id of 32 or more throw; a second vote of one replica is ignored |
| Certificates.QuorumCertificate.Verify | hotstuff/hotstuff/crypto/certs.cc:113-129 | true exactly for genesis or a quorum of distinct configured replicas whose signatures check; an unconfigured id throws once there are enough signatures |
| BlockStorage.ReachesGenesis | hotstuff/hotstuff/block_storage/block_store.cc:26-59 | parent pointers of a stored block lead to genesis in exactly as many steps as its height |
| BlockStorage.EntersStored | hotstuff/hotstuff/block_storage/block_store.cc:26-59 | of any sequence of insertions the first block of a hash that came when both it refers to were there is stored from then on, unchanged and one above its own parent |
| BlockStorage.StoredEntered | hotstuff/hotstuff/block_storage/block_store.cc:26-59 | and nothing else is stored |
| BlockStorage.BlockStore.InsertBlock | hotstuff/hotstuff/block_storage/block_store.cc:26-59 | stores this block one above its parent unless its hash is there, or reports what is missing and does nothing; all other entries stay and the links stay complete |
| BlockStorage.BlockStore.GetBlock | hotstuff/hotstuff/block_storage/block_store.cc:61-73 | returns the block of that hash if it is stored |
| FetchQueue.QueueOk | hotstuff/hotstuff/network_event_queue.cc:29-94 | in every run each event that arrived is queued, attached to exactly one request, done with or dropped; no event waits for a stored block or one nobody was asked for; whatever consensus is handed has its parent and justify block stored |
| FetchQueue.NothingDropped | hotstuff/hotstuff/block_storage/block_fetch_manager.cc:73-96 | when all events name configured replicas none is ever dropped |
| FetchQueue.DroppedIff | hotstuff/hotstuff/block_storage/block_fetch_manager.cc:73-96 | an event that needs a block and names an unconfigured replica drops exactly itself and everything that waited for its own block; no other event drops anything |
| FetchQueue.BlockedAsks | hotstuff/hotstuff/network_event_queue.cc:56-68 | every block a blocked event needs is requested from the replica it names |
| FetchQueue.BlockedWaits | hotstuff/hotstuff/network_event_queue.cc:56-68 | a blocked event joins the request for the block it votes for, or for its parent, or else for its justify block, behind everything that waited for its own block |
| FetchQueue.HandledConserves | hotstuff/hotstuff/network_event_queue.cc:29-94 | handling one event conserves the multiset of all events |
| FetchQueue.BlockFetchManager.AddFetchRequest | hotstuff/hotstuff/block_storage/block_fetch_manager.cc:73-96 | no event is lost or doubled: all join one request, which a configured replica was asked for, or all are dropped; what waited before still waits where it did |
| FetchQueue.BlockFetchManager.DeliverBlock | hotstuff/hotstuff/block_storage/block_fetch_manager.cc:98-116 | ends the request and returns all that waited for it |
| FetchQueue.NetworkEventQueue.OnEvent | hotstuff/hotstuff/network_event_queue.cc:29-94 | the three handlers, with the events attached to the parent's request when both blocks are missing; an event that needs no block is handed over or stored and releases what waited for it; one that needs a block leaves queue, store and what was handed over alone |
| FetchProgress.HandsOver | hotstuff/hotstuff/network_event_queue.cc:29-94 | a vote or proposal that needs no block is handed over and a fetched block is stored, exactly that event each time; what waited for the block joins the queue; an event that needs a block is not put back in the queue |
| FetchProgress.RoundHandsReady | hotstuff/hotstuff/network_event_queue.cc:29-94 | with no arrivals, handling the first k queued events finishes at least those of them that needed no block at the start; as many steps as there are events do so for all |
| FetchProgress.NoneForgotten | hotstuff/hotstuff/network_event_queue.cc:29-94 | in every run whose hashes do not collide, every event that waits does need a block that is not stored |
| FetchProgress.AllHandled | hotstuff/hotstuff/network_event_queue.cc:29-94 | after any run, with no further arrivals, finitely many steps empty the queue, and then every event that arrived was handed over or stored, was dropped, or waits and needs a block that is not stored |
| Speculation.LogsCommitted | hotstuff/hotstuff/vm/hotstuff_vm_bridge.h:99-179 | in every run of proposals, applications and notifications neither throw of on_commit_hotstuff is reached and the logged ids are the committed ones in order |
| Speculation.RunsCommitted | hotstuff/hotstuff/vm/hotstuff_vm_bridge.h:137-168 | when proposals are made at the head, the state machine has run exactly the committed blocks in order followed by the listed speculations |
| Speculation.InStepIff | hotstuff/hotstuff/vm/speculative_exec_gadget.h:116-132 | an event puts the state machine out of step with the list if and only if it is a proposal at another height |
| Speculation.RewoundPerMismatch | hotstuff/hotstuff/vm/hotstuff_vm_bridge.h:137-168 | in every run the state machine is rewound exactly once for each block applied while another one was speculated first |
| Speculation.SpeculativeExecGadget.AddHeightPair | hotstuff/hotstuff/vm/speculative_exec_gadget.h:116-132 | the pair is appended at the head or ignored; heights stay consecutive and the tail iterator stays on the last entry |
| Speculation.SpeculativeExecGadget.OnCommit | hotstuff/hotstuff/vm/speculative_exec_gadget.h:134-157 | returns and removes the lowest entry, or throws on an empty list or another height |
| Speculation.SpeculativeExecGadget.Clear | hotstuff/hotstuff/vm/speculative_exec_gadget.h:159-168 | drops all speculations and puts the head above the committed height |
| Speculation.SpeculativeExecGadget.InitFromDisk | hotstuff/hotstuff/vm/speculative_exec_gadget.h:88-91 | starts empty above the given height |
| Speculation.HotstuffVMBridge.MakeEmptyProposal | hotstuff/hotstuff/vm/hotstuff_vm_bridge.h:99-106 | lists the empty id, or throws before initialisation |
| Speculation.HotstuffVMBridge.GetAndApplyNextProposal | hotstuff/hotstuff/vm/hotstuff_vm_bridge.h:112-126 | lists the id of the state machine's proposal or the empty id |
| Speculation.HotstuffVMBridge.ApplyBlock | hotstuff/hotstuff/vm/hotstuff_vm_bridge.h:137-168 | a matching speculation is kept without a call to the state machine; without speculations the block is submitted; otherwise the state machine is rewound first, once |
| Speculation.HotstuffVMBridge.NotifyOfCommitment | hotstuff/hotstuff/vm/hotstuff_vm_bridge.h:172-179 | consumes the lowest speculation and logs its id |
| VmControl.ControlOk | hotstuff/hotstuff/vm/vm_control_interface.h:99-238 | in every interleaving: proposals are buffered or wanted only in proposer mode, "woke up early" is unreachable, buffered plus wanted never exceed three, blocks and proposals keep their order, and the latest commitment is logged or pending |
| VmControl.StrandedIff | hotstuff/hotstuff/vm/vm_control_interface.h:108-170 | in every interleaving a sleeping caller is stranded, with no proposal and none asked for, if and only if a submission or the last take after a stop stranded one and neither a new request nor the end has come since |
| VmControl.ServedIff | hotstuff/hotstuff/vm/vm_control_interface.h:108-149 | a sleeper is not stranded if and only if a proposal is there or the worker's next turn makes one |
| VmControl.VMControlInterface.AskForProposal | hotstuff/hotstuff/vm/vm_control_interface.h:108-149 | keeps the proposal invariant; hands out the oldest proposal, or waits and leaves work for the worker, or has nothing exactly outside proposer mode, when done, or once stopped and empty |
| VmControl.VMControlInterface.WakeWithProposal | hotstuff/hotstuff/vm/vm_control_interface.h:131-149 | keeps the proposal invariant; the oldest proposal leaves, the others keep their order, and buffered plus wanted is three again unless stopped |
| VmControl.VMControlInterface.SubmitBlockForExec | hotstuff/hotstuff/vm/vm_control_interface.h:151-170 | keeps the proposal invariant; the block is accepted behind all others and no earlier proposal survives |
| VmControl.LatestStep | hotstuff/hotstuff/vm/vm_control_interface.h:172-188 | every event keeps it true that the last commitment noted is the last one logged or is about to be |
| VmControl.LogsInOrder | hotstuff/hotstuff/vm/vm_control_interface.h:172-223 | in every interleaving the commitments logged are a subsequence of those noted: in order, each at most once |
| VmControl.TurnsFill | hotstuff/hotstuff/vm/vm_control_interface.h:225-234 | in proposer mode as many turns as proposals are wanted append exactly the state machine's proposals, in order, and none is wanted any more |
| VmControl.VMControlInterface.Work | hotstuff/hotstuff/vm/vm_control_interface.h:191-238 | keeps the proposal invariant and under it never wakes up early; executes all accepted blocks in order, logs exactly the pending commitment if there is one, makes one proposal if wanted and keeps buffered plus wanted what it was |
| Xdr.RoundTrip | hotstuff/xdrpp/xdrpp/marshal.h:84-206 | decoding a value's encoding, whatever follows it, returns the value and the rest if no declared maximum and no nesting limit is exceeded, and throws otherwise |
| Xdr.MessageRoundTrip | hotstuff/xdrpp/xdrpp/marshal.h:257-303 | a whole message decodes to its value if and only if the value is within those limits |
| Xdr.PutSize | hotstuff/xdrpp/xdrpp/types.h:313-362 | the encoder writes exactly xdr_size bytes, a multiple of four |
| XdrLayout.NumberLayout | hotstuff/xdrpp/xdrpp/marshal.h:66-72 | a number is its two's complement value on 32 or 64 bits, big end first |
| XdrLayout.OpaqueLayout | hotstuff/xdrpp/xdrpp/marshal.h:117-127 | length word, bytes, zeros to a multiple of four; a fixed-length opaque is the same without the word |
| XdrLayout.CountLayout | hotstuff/xdrpp/xdrpp/types.h:313-362 | a vector is its number of elements and then the fixed-length array of them; a pointer is a vector of at most one |
| XdrLayout.ElementAt | hotstuff/xdrpp/xdrpp/types.h:313-362 | the i-th element's encoding stands behind the xdr_size of the i before it |
| XdrLayout.FieldAt | hotstuff/xdrpp/xdrpp/marshal.h:129-136 | the same for the fields of a struct in the order declared |
| XdrCanonical.CanonicalIff | hotstuff/xdrpp/xdrpp/marshal.h:142-206 | an accepted byte string is the encoding of the value it decodes to if and only if every boolean word in it is zero or one |
| XdrCanonical.Canonical | hotstuff/xdrpp/xdrpp/marshal.h:142-206 | so for a type that reaches no boolean every accepted byte string is that encoding, whatever other structs exist |
| XdrCanonical.Consumes | hotstuff/xdrpp/xdrpp/marshal.h:142-206 | whatever is decoded takes up exactly the bytes its encoding would |
| XdrCanonical.MessageCanonicalIff | hotstuff/xdrpp/xdrpp/marshal.h:293-303 | an accepted message re-encodes to itself if and only if its booleans are zero or one |
| XdrCanonical.MessageCanonical | hotstuff/xdrpp/xdrpp/marshal.h:293-303 | a message of a type that reaches no boolean and its value determine each other |
| XdrCanonical.BoolNotCanonical | hotstuff/xdrpp/xdrpp/types.h:283-297 | a word of 2 shows that the condition can fail |
| Xdr.DecodedFits | hotstuff/xdrpp/xdrpp/marshal.h:142-206 | whatever is accepted has the type and respects every maximum and the nesting limit |
| Xdr.PaddedFits | hotstuff/xdrpp/xdrpp/marshal.h:166-191 | in a 4-aligned buffer an unpadded length that fits also fits padded |
| XdrArchive.XdrGet.GetBytes | hotstuff/xdrpp/xdrpp/marshal.cc:43-57 | copies the bytes, and reads padding only inside the buffer although the unpadded length was checked; non-zero padding throws |
| XdrArchive.XdrGet.LoadElements | hotstuff/xdrpp/xdrpp/types.h:328-340 | the container loop decodes the announced elements, whatever the container held |
| XdrArchive.XdrGet.Load | hotstuff/xdrpp/xdrpp/marshal.h:172-200 | decodes any type as specified, independently of the object decoded into, and restores the nesting limit |
| XdrArchive.XdrPut.PutBytes | hotstuff/xdrpp/xdrpp/marshal.cc:59-72 | writes the bytes and zero padding and nothing else, or throws |
| XdrArchive.XdrPut.Save | hotstuff/xdrpp/xdrpp/marshal.h:104-136 | writes exactly the encoding, and succeeds if and only if it fits and the nesting limit allows |
| XdrArchive.ToOpaque | hotstuff/xdrpp/xdrpp/marshal.h:257-267 | a buffer of the computed size is filled to its end with the encoding |
| XdrArchive.ReadOpaque | hotstuff/xdrpp/xdrpp/marshal.h:293-303 | decodes a message, which must be 4-aligned and used up |
| BufferedWriter.SaveFast | hotstuff/utils/save_load_xdr.h:177-240 | succeeds if and only if every element fits when its turn comes and none is nested too deeply; then the file is the plain encoding of the list, whatever it held and however writes were split |
| BufferedWriter.SmallElementsFit | hotstuff/utils/save_load_xdr.h:192-220 | elements no larger than the usable buffer less 512 bytes always fit |
| BufferedWriter.FlushBuffer | hotstuff/utils/save_load_xdr.h:96-107 | however few bytes each write takes, the file receives the given bytes of the buffer |
| BufferedWriter.MakeRoom | hotstuff/utils/save_load_xdr.h:210-220 | whole blocks go to the file and the remainder to the front; nothing is lost or repeated |
| BufferedWriter.Finish | hotstuff/utils/save_load_xdr.h:229-237 | the last flush reads only inside the buffer and the truncation leaves exactly what was saved |
| Channels.EndToEnd | hotstuff/xdrpp/xdrpp/msgsock.cc:38-188 | for every schedule of puts, writes and reads, split, blocked or failed in any way, the receiver was given a prefix of the messages sent, holds back no whole message and sees no refused length word; it was given all of them if and only if no write failed and no byte is queued or under way |
| Channels.BytesLeaveIff | hotstuff/xdrpp/xdrpp/msgsock.cc:121-188 | queued bytes go out when the kernel can take them if and only if no message found the queue empty and its first write blocked |
| Channels.BlockedNeverCompletes | hotstuff/xdrpp/xdrpp/msgsock.cc:121-188 | after such a message the receiver never has everything, in any continuation |
| Framing.ParseAppend | hotstuff/xdrpp/xdrpp/msgsock.cc:38-119 | parsing a stream in two pieces is parsing it whole |
| Framing.ParseStream | hotstuff/xdrpp/xdrpp/marshal.cc:15-32 | the stream of messages within the limit parses to those messages |
| Framing.ParsedStream | hotstuff/xdrpp/xdrpp/msgsock.cc:84-112 | any bytes are the frames of the messages parsed from them followed by the rest |
| MsgSock.MsgSocket.Input | hotstuff/xdrpp/xdrpp/msgsock.cc:38-119 | rdmsg_, rdpos_ and nextlen_ represent exactly the unparsed suffix; what is delivered is what parsing it with the new bytes yields; the bytes taken and the failures reported are those of the turns; some byte is taken if and only if the socket is not stuck, there is one and the first read grants one; unless the connection fails, failure is reported exactly when the next length word is refused |
| ReadTurns.TurnsParse | hotstuff/xdrpp/xdrpp/msgsock.cc:38-119 | the turns of a call, each reading the least of the grant, what is there and the room in the message and the length word behind it, deliver and keep what parsing all their bytes at once would |
| ReadTurns.FailsIff | hotstuff/xdrpp/xdrpp/msgsock.cc:72-118 | unless the connection fails, a call reports a failure if and only if it ends at a refused length word |
| ReadTurns.TakesIff | hotstuff/xdrpp/xdrpp/msgsock.cc:38-70 | a call takes some byte if and only if it is not stuck, there is one and the first read is granted one |
| ReadTurns.CallsDeliver | hotstuff/xdrpp/xdrpp/msgsock.cc:38-119 | as many calls as there are bytes, each granted a byte at first, deliver every message the bytes hold and leave nothing unread but behind a refused length word |
| MsgSock.MsgSocket.PutMsg | hotstuff/xdrpp/xdrpp/msgsock.cc:121-134 | the message is queued whole behind the unsent bytes, or dropped after a failure; one that finds the queue empty is offered to the kernel at once: the bytes sent are exactly those the given answer accepts, and the socket fails exactly on an error or on zero bytes; this is the sender's step in the stall and end-to-end results |
| MsgSock.MsgSocket.PopWBytes | hotstuff/xdrpp/xdrpp/msgsock.cc:136-155 | exactly the first n unsent bytes are forgotten |
| MsgSock.MsgSocket.Output | hotstuff/xdrpp/xdrpp/msgsock.cc:157-188 | the kernel is given the front of the unsent bytes, of at most eight messages; what it accepts is what is sent; wsize_ is the number of unsent bytes; when the callback is registered and removed |
| MsgSock.StallsIff | hotstuff/xdrpp/xdrpp/msgsock.cc:121-188 | bytes wait without a registered callback if and only if some message found the queue empty and its first write would have blocked |
| MsgSock.StallIsFinal | hotstuff/xdrpp/xdrpp/msgsock.cc:121-188 | a stalled sender never sends those bytes whatever happens later |
| Rotation.PermuteArgs | hotstuff/xdrpp/compat/getopt_long.c:127-157 | two adjacent blocks change places, each keeping its order, and nothing else moves |
| Rotation.GcdLoop | hotstuff/xdrpp/compat/getopt_long.c:107-120 | the loop computes a common divisor that every common divisor divides |
| Rotation.PosDistinct | hotstuff/xdrpp/compat/getopt_long.c:141-156 | a cycle does not meet itself before its full length |
| Rotation.PosCovers | hotstuff/xdrpp/compat/getopt_long.c:141-156 | every position of a residue class is on its cycle |
| Rotation.RotateCycle | hotstuff/xdrpp/compat/getopt_long.c:144-156 | the inner loop moves every entry of one cycle to its place |

## Left out

- Whether a particular run that breaks one of the hypotheses still agrees depends on the rest of the run; what is proved is that each hypothesis is needed in every configuration with two honest replicas.
- Blocks: two objects with one hash are one block here; the source compares block pointers, which differ when the same block is received twice, and keeps per-object flags.
- Restarts inside agreement runs: voting state is not stored by the source, so only recovery of the decided chain is stated.
- Replica ids of 32 and more: agreement covers them; a vote by such a replica throws out of the collecting replica's event loop, which is modelled as nothing happening; and the runs that show a hypothesis necessary are built for ids the bit map can name.
- Liveness of consensus, timeouts, leader rotation and the pace maker; pruning of old blocks from the store.
- Hashing, signing, LMDB and the file system: an injective hash, ideal signatures, a map committed at once, a byte file.
- Sockets, RPC services, polling, the block fetch worker and server, and the scheduling of threads.
- Xdr: enums, unions, strings (encoded like opaques) and floating point (copied as their bits) have no constructor of their own; sizes are unbounded integers; a struct's size is always summed over its fields, without the constant the source precomputes for fixed-size structs.
- MsgSock.MsgSocket.Input: a failing allocation of a received message and the destruction of a socket from inside its own callback are not modelled.
- BufferedWriter.FlushBuffer: a write error and a write that takes no bytes are not modelled; the latter makes the source loop.
- Speculation.RunsCommitted: proposals the state machine has made and not handed out yet are not part of its history.
- FetchQueue.QueueOk: blocks that a replica mints itself enter the store from outside the queue and are not part of its runs.
- NonspeculativeVMBridge, CountingVM, the JavaScript server and client, the xdrc compilers, printers and test adapters, and the rest of getopt_long.c: they would add only easy members.
