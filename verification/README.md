# Custody ledger of axm-sfn: a verified model

axm-sfn records a print session as a hash-linked custody ledger, batches the
ledger into Merkle segments, and serializes a finished session into artifacts
that can be checked without the ledger. This project models these parts and
proves what they promise together:

- `Custody`, `Ledger`, `Node`, `Loop`: the packetizer as a class, and the edge
  node as a state machine in which the packetizer and one uploader interleave at
  the database operations they share, and the daemon may stop anywhere and start
  again on the same buffer. Packet, quote and segment writes may
  succeed, fail, or take effect and still be reported as failed. The fault and
  quote inserts of a tick, which the uploader never reads, belong to its first
  step.
- `HotBuffer`: the tables with their UNIQUE and foreign key constraints.
- `Uploads`, `Uploader`, `Merkle`: segments, flushes and the segment root.
- `Attestation`, `Sessions`: quotes and signatures; session boundaries and the
  silence counter.
- `Policy`, `SharedFields`: the profile evaluator against a definition over the
  whole history, and two rules on one field.
- `Streams`, `Archive`, `Loading`, `Shard`: the AXLF stream, the indexed blobs,
  the loader, and the reader who recomputes the chain from the artifacts alone.
- `ByteStrings`, `Chain`: byte strings, hashes and the custody chain.

Conventions:

- BLAKE3 and SHA-256 are parameters, any functions to 32-byte strings. No
  injectivity is assumed. A binding result says "equal, or these two inputs
  collide", and the two inputs are ones that were hashed on each side.
- JSON decoding and encoding, the TPM, the clocks, the random source and the
  outcome of each database operation are inputs. Canonical packet bytes are
  opaque. A session id drawn at random is assumed not to have been drawn before.
- Rows are never deleted, so a table is a list and an id is a position plus one.
- `Sys` carries history fields that the source does not have: the session ids
  drawn, the signature each link was made with and what became of it, the packet
  digest and row each quote was taken for, the number of fault attempts, and the
  payloads sent.
- A seq that does not fit a signed 64-bit column cannot be stored, so the uint64
  counter never wraps.

Where code and text disagree, the code is followed:

- `internal/policy/engine.go:37` writes the lower bound of a dynamic offset as
  target + max_negative_deviation; line 138 computes target minus it.
- `internal/policy/engine.go:60-63` counts violations per rule field, while the
  allowances at lines 47-48 are those of a rule. With two rules on one field the
  counters mix (`SharedFields.SharedFieldHidesBreach`); whether that changes a
  verdict depends on the pair, and `SharedFields.JudgedAlikeInProfile` says exactly
  when, in a profile of any length. With three or more rules of a known type on one
  field only the sufficient conditions of `Policy.RuleReportedIff` and
  `Policy.TickFailsIff` are proved.
- `docs/DURABILITY.md:146-150` promises that silence is recorded and recording is
  not selective. A packet write that lands but is not reported ends its session:
  the packetizer repeats a seq that is taken, and no packet row ever follows
  (`Node.UnreportedWriteEndsSession`).
- `docs/STREAM_FORMAT.md:134-137` promises that the whole chain is recomputable.
  A signature whose backfill is refused is in the link but not in the buffer. Every
  session compiles (`Shard.EverySessionPacks`), and up to a collision its shard
  verifies exactly if its signatures were kept and the signing key of a signed
  session is loaded (`Shard.EndToEnd`, `Shard.LostSignatureBreaksShard`,
  `Shard.MissingKeyBreaksShard`); `Loading.SignatureCanBeLost` loses one.
- `docs/STREAM_FORMAT.md:139-141` promises that a quote's nonce is made from the
  digest of its packet. When the packet write of the quoting tick fails, the next
  tick records other bytes under the same seq (`Attestation.QuoteOfLostPacket`);
  the promise holds exactly when the digests agree (`Attestation.QuoteFitsRowIff`),
  as they do whenever that write took effect (`Attestation.QuoteFitsItsPacket`).
  The session nonce, moreover, is never stored, so no reader of a shard can
  recompute a quote nonce.
- `internal/hotbuffer/buffer.go:203-207` stores a signature as raw bytes;
  `python/src/axm_sfn/db.py:77-82` and `:130` decode the column as hex, which raw
  bytes generally are not. How the column is decoded is a parameter of the loader.
- `internal/custody/packetizer.go:215` evaluates the policy in each tick, but
  nothing in the daemon calls `LoadProfile`, so there is never a decision.
- `cmd/axm-edge/main.go:169` gives the uploader a session id that the packetizer
  never draws, so nothing is uploaded (`Uploads.UndrawnSessionUploadsNothing`).

## Model

| member | source | states |
|---|---|---|
| Shard.EndToEnd | docs/STREAM_FORMAT.md:123-138 | for every reachable state of the node, every loader and every keys, a session of at most 2^32 rows packs and hashes without error, locator f of its shard points at frame f, at 4 + 269 f, and if its records have the signatures they were linked with and the signing key is loaded if any record is signed, the shard verifies: a reader with the artifacts and the session id recomputes every packet_sha256 and every BLAKE3 link and finds the signing key. That the loader decodes a stored signature to its bytes is a condition here, which bytes.fromhex on the raw column does not meet in general |
| Shard.EverySessionPacks | python/src/axm_sfn/streams.py:57-89 | every session the packetizer produced compiles, whatever became of its signatures and whichever keys are loaded, exactly if it has at most 2^32 rows; its stored bytes always match their digests |
| Shard.FramesAreDense | python/src/axm_sfn/streams.py:77-116 | in every such shard frame ids are 0..n-1, and locator f has frame id f and offset 4 + 269 f |
| Shard.FramesShowRows | docs/STREAM_FORMAT.md:87-100 | in every such shard frame f shows the link, digest, seq and verdict of row f of the session, and locator f its link and status |
| Shard.LostSignatureBreaksShard | internal/custody/packetizer.go:305-335 | the converse: if a record is loaded without the signature its link was made with, the session still compiles, and the shard does not verify, or the two link inputs with the one and the other collide |
| Shard.MissingKeyBreaksShard | docs/STREAM_FORMAT.md:130-133 | the other converse: if a record is signed and no sign_pub key is loaded, the session still compiles, and the shard does not verify |
| Loading.SignatureKeptIff | internal/custody/packetizer.go:324-335 | over any run, with a loader that returns the stored bytes, a record has its signature exactly when there was none to store, or its packet write was reported, the update came before any restart and landed, and the packetizer held a quote id |
| Loading.SignatureCanBeLost | internal/hotbuffer/buffer.go:203-209 | a run in which every write is reported as done and still a signature is lost, whatever the loader: the first packet of a session whose quote failed has quote_ref 0, which the foreign key refuses |
| Shard.VerifiedShardsBind | docs/STREAM_FORMAT.md:134-138 | two shards that verify and end in the same link hold, for the same number of packets, the same concatenation of session, canonical and signature bytes, or two of their link inputs collide |
| Shard.VerifiedPartsBind | docs/STREAM_FORMAT.md:134-138 | for such shards the session, the canonical bytes and the signature of a packet agree one by one if the session ids and the canonical bytes have the same lengths |
| Shard.Verify | docs/STREAM_FORMAT.md:123-138 | the reader accepts exactly when every frame continues the stream, its digest and link are the hashes of the stored bytes, its tpm flag, attestation class and algorithm say whether a signature is stored, and its key fingerprint is that of a stored sign_pub key if so and zeros if not |
| Shard.VerifiedFrame | docs/STREAM_FORMAT.md:125-133 | frame i of a shard that verifies has frame id and seq i, the digest of the stored bytes that the last index row for i locates, flags that say whether a signature row for i exists, and the fingerprint of a stored sign_pub key if so and zeros if not |
| Shard.VerifiedFramesAgree | docs/STREAM_FORMAT.md:123-138 | the stored bytes and evidence determine the stream: two shards over the same store that verify under one session with equally many frames have equal frame ids, links, digests, seqs and flags throughout |
| Shard.StampIsFirstKey | python/src/axm_sfn/streams.py:57-74 | a signed frame is stamped with the fingerprint of the first sign_pub key |
| Shard.NoTpmNoRows | docs/STREAM_FORMAT.md:144-146 | a session recorded without a TPM has no tpm-attestation@1 row |
| Shard.Compile | python/src/axm_sfn/compile.py:184-206 | builds the artifacts of a session, streams@1 locators included, and raises exactly when a packet cannot be packed or its stored bytes do not match its digest |
| Shard.CanonicalFound | python/tests/test_attestation.py:279-281 | the packets@1 index finds exactly the canonical bytes of each seq |
| Shard.SignatureFound | python/tests/test_attestation.py:290-290 | the tpm-attestation@1 index finds the signature of each seq that has one and nothing for the others, whatever quotes and keys follow |
| Loading.LoadedIsLinked | python/src/axm_sfn/db.py:112-139 | rows loaded in seq order carry the digest and link that their own decoded fields hash to, if the decoded signature is the one the link was made with |
| Loading.LoadSession | python/src/axm_sfn/db.py:85-140 | decodes the rows of a session in query order, and raises exactly when there are none or a stored signature does not decode |
| Loading.LoadedFields | python/src/axm_sfn/db.py:123-139 | each record holds the seq, link, digest, bytes and verdict of its own row, and its decoded signature |
| Loading.QueryIsIds | python/src/axm_sfn/db.py:94-104 | in every reachable state the rows of a session ordered by seq are its rows in the order they were written |
| Node.GapFreeLedger | internal/custody/packetizer.go:308-339 | in every reachable state, whatever writes, quotes, signatures or reports failed and however often the daemon restarted, the rows of each session have seqs exactly 0..n-1, row 0 has no predecessor, row k+1 stores the link of row k, every digest is the hash of the canonical bytes of its row, and every link is the hash of the fields of its row and the signature made for it |
| Node.SeqNeverWraps | internal/custody/packetizer.go:324-340 | in every reachable state stored seqs fit a signed 64-bit column, and the seq counter reads back from its 8 bytes |
| Node.AcceptedMeansNext | internal/hotbuffer/buffer.go:101-101 | the UNIQUE constraint refuses the next packet exactly when an earlier write of the same seq landed but was reported as failed |
| Node.UnreportedWriteEndsSession | internal/custody/packetizer.go:324-328 | after a packet write that landed but was not reported, the session never gets another row in any later state of the run |
| Node.WriteKeepsCustody | internal/custody/packetizer.go:324-340 | a packet write keeps the custody invariant whether it is stored, lost, refused, or stored but reported lost |
| Node.TickKeepsCustody | internal/custody/packetizer.go:178-306 | a tick up to its packet write keeps the custody invariant and drafts a packet for the end of the chain |
| Node.SignKeepsCustody | internal/custody/packetizer.go:330-339 | the signature backfill and the advance of the chain keep the custody invariant whether or not the update lands |
| Node.RestartKeepsCustody | internal/custody/packetizer.go:69-80 | a new packetizer over an existing buffer keeps the custody invariant, wherever the old one stopped |
| Ledger.StoredLinkIsChainLink | internal/custody/packetizer.go:354-369 | the link stored in row k is the chain link of the bodies of rows 0..k, so the binding results hold of stored sessions |
| Ledger.LinkedAppend | internal/custody/packetizer.go:225-252 | a row that extends its session keeps every chain in the table linked |
| Ledger.SeqIsPosition | internal/hotbuffer/buffer.go:101-106 | in a linked session the row with seq q is the q-th row of the session, and there is no other |
| Loop.LoopIsRun | internal/custody/packetizer.go:82-102 | whatever the custody loop does on any list of deltas and ticks is a run of the interleaved node |
| Loop.EventIsSteps | internal/custody/packetizer.go:91-99 | one event of the loop is its database operations in order, uninterrupted |
| Loop.LoopIsGapFree | internal/custody/packetizer.go:82-102 | the rows written by the loop form gap-free linked chains |
| Attestation.ReferencesAreSound | internal/custody/packetizer.go:331-335 | in every reachable state a quote_ref names a stored quote of the same session with seq no later than the row, a signature is stored with and only with a quote_ref and is the one the link was made with, and every quote's nonce is derived from its session nonce, the digest it was taken for, its seq and the link stored just before its seq; if the packet write of its tick created a row, that row has its seq and digest |
| Attestation.QuoteFitsRowIff | docs/STREAM_FORMAT.md:139-141 | in every reachable state, a stored quote has the nonce of the row with its session and seq exactly when it was taken for the digest of that row, up to a collision of the two nonce inputs |
| Attestation.QuoteFitsItsPacket | internal/custody/packetizer.go:265-328 | a quote taken in a tick whose packet write takes effect, reported or not, has the nonce of the row so created, in every later state of the run |
| Attestation.QuoteOfLostPacket | internal/custody/packetizer.go:324-328 | a run that breaks the promise: the packet write after a quote is lost, the next tick records other bytes under the same seq, and the row refers to a quote whose nonce was made from the digest of the lost bytes; it fits the row exactly if the digests agree or the two nonce inputs collide |
| Attestation.SignatureStoredIff | internal/custody/packetizer.go:324-335 | over any run, a row has a signature exactly when one was made, the update was sent with a quote id and landed; it is the one the link was made with, and the quote_ref is that quote id |
| Attestation.SignatureKeptIff | internal/hotbuffer/buffer.go:203-209 | a signature is kept exactly when the update lands and a quote of the session was persisted before |
| Attestation.QuoteCommitsToDraft | internal/custody/packetizer.go:265-292 | a quote taken in a tick commits to the session nonce, digest, seq and predecessor of the packet that same tick goes on to write, and stores the attestation and signature that the TPM returned |
| Attestation.QuoteInterval | internal/custody/packetizer.go:265-292 | after a tick that stored a reported quote, no run without a restart or a change of print state, whose ticks all come within the interval, stores another; the next tick in which TPM and database answer stores one exactly if the interval has passed |
| Attestation.TickRemembersQuote | internal/custody/packetizer.go:284-289 | quote id, time and answered request are taken over exactly when the tick stored a quote whose write was reported |
| Attestation.TickDrafts | internal/custody/packetizer.go:294-322 | a tick drafts a packet exactly if the printer is printing or paused and the telemetry encodes, and does nothing in any other print state; the draft carries those bytes, the signature made in that tick if there is a TPM, and the quote id held after it |
| Attestation.NoTpmNoEvidence | internal/custody/packetizer.go:265-302 | a node without a TPM never stores a quote or a signature, and links no packet with one |
| Attestation.RequestAnswered | internal/custody/packetizer.go:171-173 | over any run, a request that is no longer pending was answered by a newly stored quote or dropped by a restart |
| Attestation.StateChangeIsQuoted | internal/custody/packetizer.go:148-154 | every change of print state, if so configured, is quoted: after the next active tick in which TPM and database answer, whatever came in between short of a restart, a quote has been stored since |
| Chain.NonceBinding | internal/tpm/attestation.go:212-221 | equal quote nonces come from equal session nonce, packet digest, predecessor and seq, or the two nonce inputs collide |
| Sessions.DeltaOpensSessionIff | internal/custody/packetizer.go:138-169 | a delta opens a session exactly when it enters printing from neither printing nor paused; the session is new, starts at seq 0 with no predecessor and no rows, and a quote is due at once |
| Sessions.OneSessionPerStretch | internal/custody/packetizer.go:183-190 | all rows recorded in one unbroken printing/paused stretch carry one session id |
| Sessions.FaultsCostTicks | internal/custody/packetizer.go:192-203 | the silence counter stays within 0..M, and every fault attempt costs M + 1 active ticks, exactly if no delta and no restart comes in between |
| Sessions.SilentRunFaults | internal/custody/packetizer.go:192-203 | n active ticks with no delta and no restart after a reset attempt exactly floor(n / (M + 1)) faults |
| Sessions.SilenceIsRecorded | internal/custody/packetizer.go:192-203 | the same count for the stored fault rows, if their inserts land |
| Sessions.FaultRowsMatchAttempts | internal/hotbuffer/buffer.go:212-219 | over any run there are at most as many new fault rows as attempts, and as many if every insert lands |
| Sessions.FaultsFarApart | internal/custody/packetizer.go:95-96 | two fault attempts are at least M + 1 active ticks apart |
| Custody.DeltaOrderIrrelevant | internal/custody/packetizer.go:112-135 | the state after a delta is the same for every iteration order of its objects |
| Custody.FoldIsMerged | internal/custody/packetizer.go:104-136 | applying the objects one by one, in any order, is one merge in which each object updates its own part |
| Sessions.DeltaParts | internal/custody/packetizer.go:112-135 | each object of a delta is merged into its own part of the printer state, and no other part changes |
| Custody.Packetizer.ApplyDelta | internal/custody/packetizer.go:108-136 | the loop over the objects of a delta has the effect of that merge |
| Custody.Packetizer.DetectLifecycleEdge | internal/custody/packetizer.go:138-154 | the session and quote-request effects of a state change |
| Custody.Packetizer.StartNewSession | internal/custody/packetizer.go:156-169 | every per-session field is reset, and the quote request is not |
| Custody.Packetizer.StartTick | internal/custody/packetizer.go:188-203 | opens a session if none is open, counts silence, reports and resets a fault |
| Custody.Packetizer.QuoteIfDue | internal/custody/packetizer.go:265-292 | takes and stores a quote when one is due, and remembers it only if its write was reported as done |
| Custody.Packetizer.BeginTick | internal/custody/packetizer.go:205-322 | an active tick up to its packet write leaves the drafted packet of the specification and no other change |
| Custody.Packetizer.FinishTick | internal/custody/packetizer.go:324-340 | from the packet write on: nothing more if the write is not reported as done, else the backfill and the advance of the chain |
| Custody.Packetizer.OnTick | internal/custody/packetizer.go:178-340 | the whole tick on packetizer and buffer together is the specified transition, early returns included |
| Custody.Packetizer.Run | internal/custody/packetizer.go:82-102 | the loop handles its events one after another |
| HotBuffer.Buffer.WritePacket | internal/hotbuffer/buffer.go:173-199 | inserts unless the seq is taken or does not fit the column, keeps the UNIQUE constraint, and returns the row id only if the write was reported as done |
| HotBuffer.Buffer.SetTPMSig | internal/hotbuffer/buffer.go:203-209 | sets signature and quote reference together, and only to a stored quote |
| HotBuffer.Buffer.WriteQuote | internal/hotbuffer/buffer.go:241-255 | appends the quote and returns its id only if the write was reported as done |
| HotBuffer.Buffer.RecordProvenanceFault | internal/hotbuffer/buffer.go:212-219 | appends the fault if the insert lands |
| HotBuffer.Buffer.PendingRange | internal/hotbuffer/buffer.go:272-307 | returns the longest gap-free run of pending rows that starts at the least pending seq, within the batch limit and the rows the query handed out before it ended, never more than either, for any table contents |
| HotBuffer.Tables.PendingRangeIsUnique | internal/hotbuffer/buffer.go:270-271 | there is only one such run, so the contract determines the result |
| HotBuffer.CountContiguous | internal/hotbuffer/buffer.go:284-306 | the run is cut at the first gap |
| HotBuffer.PendingRows | internal/hotbuffer/buffer.go:273-278 | the query lists exactly the pending rows of the session, in strictly increasing seq order |
| HotBuffer.Buffer.WriteSegment | internal/hotbuffer/buffer.go:310-335 | the segment row and every row mark, or nothing |
| HotBuffer.PacketHashes | internal/hotbuffer/hashes.go:12-58 | the hashes come back in input order whatever order the query yields them; missing rows and NULLs give no bytes |
| Uploads.SegmentsTileTheSession | internal/uploader/uploader.go:71-106 | under every interleaving with the packetizer, restarts and queries cut short included, committed segments tile 0..m-1 in order, have packet_count = seq_end - seq_start + 1, record the root of exactly their own links, rows point at the segment that covers them, and payloads sent are committed segments with no seq sent twice |
| Uploads.UndrawnSessionUploadsNothing | cmd/axm-edge/main.go:169-169 | a session id that was never drawn has no segment and no payload in any reachable state |
| Uploads.RangeFollowsPrefix | internal/hotbuffer/buffer.go:284-306 | the oldest pending range, under any limit or early end of the query, starts right after the committed prefix and holds the session rows in order |
| Uploads.CommitKeepsUploads | internal/hotbuffer/buffer.go:309-335 | a commit of a range read earlier is still right, whatever was inserted or signed in between |
| Uploads.PacketizerKeepsUploads | internal/hotbuffer/buffer.go:3-9 | no packetizer step disturbs the segments, the marks or a flush in progress |
| Uploader.Flush | internal/uploader/uploader.go:71-106 | one flush reads the oldest range, even from a query cut short, hashes it and commits its segment; what is shipped is exactly that segment, the last one stored, and only if the commit was reported as done |
| Uploader.FlushIsSteps | internal/uploader/uploader.go:71-106 | a flush is the range, hashes and commit steps of the node, uninterrupted, and leaves the same state |
| Uploader.FlushShips | internal/uploader/uploader.go:93-105 | a reported flush followed by its ship step appends exactly the segment just committed to the payloads sent |
| Uploader.UncutFlushCommits | internal/hotbuffer/buffer.go:272-278 | a reported flush whose query was not cut short takes at most a batch and is one of the committing flushes that drain the backlog |
| Uploader.BacklogDrains | internal/uploader/uploader.go:62-66 | from any reachable state with k pending rows, committing flushes of batch B with no insert leave nothing pending exactly when there are at least ceil(k / B) of them |
| Uploader.FlushAdvances | internal/uploader/uploader.go:71-106 | a committing flush uploads B more rows, or all that are left |
| Merkle.MerkleReduce | internal/uploader/uploader.go:187-203 | the level-by-level reduction with odd promotion computes the recursive tree of section 2.1 of RFC 6962 |
| Merkle.ReduceLevel | internal/uploader/uploader.go:191-201 | the pairing loop of one level |
| Merkle.NextLevelKeepsRoot | internal/uploader/uploader.go:192-202 | reducing one level keeps the RFC 6962 root |
| Merkle.SplitIsLargestPow2 | internal/uploader/uploader.go:200-200 | the reference tree splits at the largest power of two below n |
| Merkle.LocalSegmentRoot | internal/uploader/uploader.go:160-185 | the segment root is the tree over the prefixed and indexed leaves; the empty list has the frozen root |
| Merkle.LeafLayout | internal/uploader/uploader.go:170-181 | a leaf hashes a zero byte, its index in 8 little-endian bytes, a zero byte and the packet hash |
| Merkle.NodeLayout | internal/uploader/uploader.go:193-197 | an inner node hashes a one byte, the left root and the right root |
| Merkle.ShapeIndexes | internal/uploader/uploader.go:170-177 | the leaves of a segment are numbered 0, 1, 2, ... within it |
| Merkle.SegmentBinding | internal/uploader/uploader.go:160-203 | two hash lists of any lengths, empty included, with the same root are equal, or one hashed input of each collide |
| Merkle.TreeBinding | internal/uploader/uploader.go:170-198 | two trees of any shapes with the same root hold the same hashes, and are the same tree, shape and leaf indexes included, if the indexes fit 64 bits; or one hashed input of each collide |
| Chain.ChainBinding | internal/custody/packetizer.go:354-369 | two gap-free chains that end in the same link have the same length and the same concatenation of session, canonical and signature bytes at every position, or the inputs at two returned positions collide |
| Chain.PartsOfBody | internal/custody/packetizer.go:354-369 | the parts of equal concatenations are equal if the session ids and the canonical bytes have the same lengths |
| Chain.LinkLayout | internal/custody/packetizer.go:354-369 | a link hashes a zero byte, the seq in 8 little-endian bytes, session id, canonical bytes, signature and previous link, each at its place, an absent one taking none |
| Chain.NonceLayout | internal/tpm/attestation.go:212-221 | a quote nonce hashes session nonce, packet digest, seq and previous link, each at its place |
| Chain.LinkBinding | internal/custody/packetizer.go:354-369 | the same for two links anywhere in two chains: equal links sit at equal positions over equal prefixes |
| Chain.LinkOfPrefix | internal/custody/packetizer.go:354-369 | equal prefixes of bodies have equal links throughout |
| Chain.TamperChangesEveryLaterLink | internal/custody/packetizer.go:354-369 | changing the bytes of one packet changes its own link and every later one, up to a collision |
| Policy.CountersMatchHistory | internal/policy/engine.go:109-163 | for any profile, rules sharing fields included, and any history since load, consecutive[f] is the length of the trailing run of violated evaluations on f and total[f] their number; skipped evaluations leave no trace |
| Policy.EscalatesIff | internal/policy/engine.go:149-159 | for any profile, a rule is reported exactly when it is violated now and each non-zero allowance is exceeded by the history of its field |
| Policy.TickFailsIff | internal/policy/engine.go:149-169 | if no rule with an allowance shares its field with another rule, a tick fails exactly when some rule is violated and every allowance it sets is exceeded by its own history |
| Policy.ReportsFromHistory | internal/policy/engine.go:107-169 | for any profile, the violations of a tick are, in rule order and each with the reading of its own field, exactly the rules whose reading is outside its envelope now and whose allowances are used up by the evaluations on the field |
| Policy.ReportsBreaches | internal/policy/engine.go:149-159 | if no rule with an allowance shares its field, they are exactly the rules that breach by their own history |
| Policy.RuleReportedIff | internal/policy/engine.go:149-159 | a rule that is alone on its field, or has no allowance, is reported exactly when its own history breaches it, whatever the other rules are |
| SharedFields.JudgedAlikeIff | internal/policy/engine.go:60-63 | in a profile of two rules on one field, one is judged by its own history after every run if and only if the other is harmless to it: a condition on the allowances, the order of the rules and which of the two a single reading can violate |
| SharedFields.JudgedAlikeInProfile | internal/policy/engine.go:60-63 | the same in any profile, for two rules that are the only ones of a known type on their field |
| SharedFields.ThresholdsHarmlessIff | internal/policy/engine.go:119-130 | the condition for two minima or maxima, from their numbers alone: the judged rule has no allowance, or it runs first, forgives one violation, and is of the same kind and as strict, with a consecutive allowance equal |
| SharedFields.SharedFieldHidesBreach | internal/policy/engine.go:60-63 | a maximum with an allowance beside a minimum that passes: the passing rule resets the counter and the breach goes unreported |
| Policy.BreachNeedsARow | internal/policy/engine.go:154-159 | a rule with a consecutive allowance c fails only after c + 1 violated applicable ticks in a row |
| Policy.SpentAllowanceStaysSpent | internal/policy/engine.go:155-159 | once a total-only allowance is spent, every later violation fails |
| Policy.TruesMonotone | internal/policy/engine.go:151-151 | the violations of a rule never become fewer |
| Policy.Evaluator.Evaluate | internal/policy/engine.go:102-170 | the loop over the rules updates the counters and lists the reports as specified; no profile passes and changes nothing |
| Policy.Evaluator.LoadProfile | internal/policy/engine.go:77-90 | a valid profile replaces the old one and clears the counters; an invalid one changes nothing |
| Policy.Evaluator.ClearProfile | internal/policy/engine.go:93-97 | drops the profile and the counters |
| Streams.StreamRoundTrip | python/tests/test_streams.py:58-72 | parsing a built stream returns, for any packets that pack, every frame id and every payload field, absent hashes as zeros |
| Streams.PayloadRoundTrip | python/src/axm_sfn/streams.py:57-74 | each payload field is where the layout says and means what the layout says; the rest is zeros |
| Streams.PayloadOffsets | docs/STREAM_FORMAT.md:87-100 | the payload holds each field at its documented byte offset, from the packet itself |
| Streams.ParseIff | docs/STREAM_FORMAT.md:15-43 | a reader accepts exactly the file magic followed by records of magic, version 1, frame id, length and payload, of which only the last payload may be cut short |
| Streams.BuildAxlfStream | python/src/axm_sfn/streams.py:77-89 | builds the stream, and raises exactly when some fingerprint is not 32 bytes or some seq does not fit 32 bits |
| Streams.ParseRecords | python/tests/test_streams.py:58-72 | the record-by-record parser, failed checks and short input included |
| Streams.LocatorsTile | python/src/axm_sfn/streams.py:92-116 | each locator slices out exactly its packet record; the locators follow the 4-byte header and end with the file |
| Streams.LocatorAgrees | python/src/axm_sfn/streams.py:101-115 | a locator has the frame id, verdict and link of the record it points at |
| Streams.BuildStreamsRows | python/src/axm_sfn/streams.py:92-116 | one locator for each packet, in order |
| ByteStrings.DecodeEncode | python/src/axm_sfn_core/protocol.py:16-16 | little-endian decoding undoes encoding |
| ByteStrings.EncodeDecode | internal/uploader/uploader.go:174-177 | little-endian encoding undoes decoding |
| ByteStrings.EncodedByte | internal/uploader/uploader.go:174-177 | byte i of an encoded number is the one of weight 256^i |
| Archive.BuildPackets | python/src/axm_sfn/streams.py:127-156 | indexes the stored bytes, and refuses exactly when some stored bytes do not hash to their recorded digest; in what it returns every row carries the recorded digest of its packet, if there is one |
| Archive.IntactIff | python/src/axm_sfn/streams.py:142-146 | what is refused: stored bytes with a recorded digest that is not their hash |
| Archive.KeptIndexes | python/src/axm_sfn/streams.py:139-141 | the packets indexed are those with stored bytes, in order |
| Archive.PacketRowsTile | python/src/axm_sfn/streams.py:147-155 | each packets@1 row slices out exactly its stored bytes and carries their digest; the slices cover the blob without gap or overlap |
| Archive.BuildTpmAttestation | python/src/axm_sfn/attestation.py:75-124 | indexes the signatures, quotes and keys in order over one blob |
| Archive.EvidenceRowsTile | python/src/axm_sfn/attestation.py:87-102 | each tpm-attestation@1 row slices out exactly its evidence and carries its digest; the slices cover the blob without gap or overlap |
| Archive.EvidenceCount | python/src/axm_sfn/attestation.py:104-120 | there are signed packets + 3 * quotes + keys rows |
| Archive.SigPlaces | python/src/axm_sfn/attestation.py:104-108 | the signature of packet k is found after those of the packets before it, under the fingerprint of the last sign_pub key, or none if there is no such key |
| Archive.QuotePlaces | python/src/axm_sfn/attestation.py:110-115 | signature, attest blob with the PCRs and nonce of quote j are found in this order at fixed positions after the signatures, under the fingerprint of the last ak_pub key |
| Archive.KeyPlaces | python/src/axm_sfn/attestation.py:117-120 | key j is found after all quotes, under its own fingerprint, as certificate or public area, with its algorithm or that of its role |
| Archive.StampMatchesRowsIff | python/src/axm_sfn/attestation.py:67-83 | keys being UNIQUE by role and data, the fingerprint stamped into payloads is that of the packet_sig rows exactly when there is one sign_pub key, or the first and the last collide |
| Archive.SignKeyFingerprint | python/src/axm_sfn/attestation.py:67-72 | the stamp is the fingerprint of the first sign_pub key |

## Left out

- Loading.LoadedIsLinked: how a stored signature is decoded, or fails to be, is a parameter.
- Shard.EndToEnd: does not fix which quotes and keys are loaded (any lists will do), and takes the verdict as a function of the canonical bytes.
- Shard.Verify: does not verify a signature under its key, and does not check quotes (rule 4 of `docs/STREAM_FORMAT.md`), whose session nonce is not stored.
- Policy.Evaluator.Evaluate: readings are reals, so rounding and NaN are not modelled, and a violation is a rule with a value, not formatted text.
- Custody.Packetizer.BeginTick: the policy evaluation is modelled apart, in `Policy`; its decision goes into the canonical bytes, which are an input, and the anomaly flag that repeats it is not modelled.
- Custody.Packetizer.OnTick: the packet's telemetry fields and its policy decision are inside the opaque canonical bytes; the anomaly flags and tick times stored beside them are not modelled.
- HotBuffer.Buffer.WriteSegment: a transaction takes effect as a whole or not at all; SQLite itself, WAL and timestamps are not modelled.
- Uploader.Flush: shipping is handing over a payload; HTTP, retries and the hex text of the root are not modelled.
- Hex text of hashes in rows: a digest column or field holds the digest itself.
- The printer client, its reconnects and the decoding of status messages.
- TPM device calls, key provisioning and signature verification.
- `pcrBitmap` in `internal/tpm/attestation.go`: a bit set with no property beyond its body.
- Startup wiring, configuration, command line and logging.
- Journal text, candidates and the shard compiler and verifier of axm-genesis, which are not part of this model.
