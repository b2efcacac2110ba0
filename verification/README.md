# Atlas registry: a verified model

Atlas is a registry for a compute market. It proves what a provider's processor can do, keeps the
providers' offers and prices while their heartbeats last, and answers requestors' searches. Every
object is identified by a hash of its canonical JSON text. This project models the four parts of it
where an error would be hardest to see, and proves what each of them is for.

**Sequential work** (`src/bench.ts`, `agent/src/bench.rs`). A lane runs iterated-hash chains cut into
C checkpoints, commits to them with a duplicate-last Merkle tree, draws the segments to open from
the roots, and is checked by recomputing those segments. The hash is a parameter: every theorem holds
for every function from byte strings to 32 bytes. Soundness never says "some collision exists". It
names a function that walks two climbs, or a climb and a tree, down together and returns the colliding
pair, and says what is true when that function returns none. It is stated twice: relative to lists of C
checkpoints whose trees have the submitted roots (`MerkleBinding`, `LaneSoundness`, `Detection`), and
for any roots, since the verifier cannot see whether a root belongs to such a tree (`PathBinding`,
`ProofBinding`, `Strategies`). The second needs a condition on the lengths of paths, which the verifier
does not check. `Plans` gives, for every binary tree, a root that opens each of its tips and hands over no
collision; with such trees `PathLengths` and `TwoSegments` show what the verifier accepts without the
condition, and `LengthPolicy` and `FinalPolicy` which lengths may be admitted, exactly. Further modules:
`Hashing`, `Merkle`, `Chain`, `Sampling`, `Lane`, `LaneReasons`, `Threads`.

**The benchmark challenge** (`src/handlers/attest.ts`). Four lanes, in order, timed by the service.
The handlers are modelled twice over one set of decisions (`AttestState`): with each request as one
step (`AttestService`, whose class follows the handlers), and with loads, computations, stores, drops
and the issue of the attestation as separate steps of any number of requests in flight
(`AttestInterleaved`). `AttestRefinement` shows that the first is the second without anything in
between. `AttestAnswers` says what each request is answered and leaves behind without naming those
decisions, and `AttestSigner` that only its provider can move a challenge. `AttestHonest` shows that an
honest provider is attested, `AttestWork` what an attestation says about work, `AttestRace` and
`AttestSerial` when a challenge can be attested twice, and `AttestFailure` when a failed one can come back.

**Canonical JSON** (`src/jcs.ts`, `agent/src/jcs.rs`). One text (`JcsText`) with a parser that inverts
it; the TypeScript serializer on UTF-16 strings (`JcsTs`) and the Rust serializer on strings of
Unicode scalar values (`JcsRust`) both proved to write it. `JsonValue` says what it means for two
values to be equal up to member order.

**The ephemeral market** (`src/redis.ts`, `src/handlers/offers.ts`, `src/handlers/query.ts`). Terms
with lifetimes, the live index and price hash beside them, number counters, busy flags, revocation,
the rate limiter and the search with its cursor. Modules: `KeyLifetime`, `RateLimit`, `OfferStore`,
`Market`, `MarketAnswers`, `MarketRuns`, `MarketRaces`, `Query`, `SearchOrder`, `MarketSearch`. `Arith`
and `Order` hold arithmetic, counting and sorting used throughout.

`dafny verify dfyconfig.toml` checks the whole project.

## What was decided

- Hex strings are modelled as the bytes they stand for; the source's pattern of 64 hex digits becomes
  a length of 32. Siblings in a path keep any length, as the source leaves them unchecked.
- A Redis key set with a lifetime of px milliseconds is readable up to and including the millisecond
  at which its lifetime ends, and may be removed at any time after that (`MarketRuns.EvictKey`).
- Where C does not divide L, the verifier's loop bound `k < L / C` over a fraction runs ceil(L / C)
  times; `Chain.SegLen` is that number. The prover throws in this case.
- Drawing segments is an unbounded loop in the source. `Sampling.Samplable` says that it ends, and
  `SamplableIff` says exactly when: the 2^32 different encoded counters hit min(K, C) residues.
- Verification of a proof under a nonce is assumed to happen only for proofs received after that nonce
  was drawn (`AttestInterleaved.Causal`); nonces, challenge ids and request numbers are new when made
  up; the clock does not run backwards.
- JSON objects name no key twice, as the objects of both languages guarantee; they list their members in
  some order. Numbers are integers.
- The atomic market handlers take one clock reading each. The limiter's answer reaches them as a flag.
- Prices are compared in millionths, exact for the at most 8 characters a price may have.

## Where the code and its documentation differ

The model follows the code. Section numbers are those of the registry's own specification under `docs/`.

- Section 8.5 says an offer that expired has no entry in the live index. The index
  does not look at the offer's own expiry: `MarketSearch.ExpiredCanBeListed` is a run that lists an
  expired offer, `ListedPastExpiryIff` says exactly which heartbeats lead there, and `StatusIff` is the
  relation between status and index.
- Section 12 calls the counters sliding windows. They are fixed ones: in the window's length from t on,
  twice the maximum is admitted by the trace of `RateLimit.BurstAdmitted` unless t starts a fixed window,
  and never more (`AtMostTwiceMax`). `SlidingBoundIff` says for which t the sliding bound holds.
- Section 5.4 says that the path of the last checkpoint binds the submitted final state to the root, and
  that segments not computed are caught. `verifyPath` does not look at the length of a path, so an index
  other than 0 has a place at every depth (`Plans.LengthsBindIff`). For every C >= 2 the verifier accepts
  lanes with any final state (`PathLengths.FinalStateUnbound`) and lanes of which two segments were computed,
  whatever is drawn (`TwoSegments.TwoSegmentsPass`, `EveryDrawAnswered`).
- What has to be checked of each proof for the section's second claim is that all its paths, that of leaf 0
  included, have one length, such as ceil(log2 C): then proofs for different draws share one list or collide,
  and few draws can be answered if many segments were not computed, for every K (`Strategies.AnswersAreFew`).
  That the paths to each single leaf have one length binds the segments opened together
  (`ProofBinding.LaneBinds`) and with K >= C the whole chain (`FullOpeningBindsWork`), but with K below C
  it does not catch segments that were not computed: with K = 1 there is for every C >= 2 an accepted lane of
  two segments that meets it (`TwoSegments.OneLengthFallsShort`).
- Which lengths a verifier may admit: for every K >= 1, proofs on admitted lengths that reach all leaves fit one
  list or collide if and only if there is one such length (or C is 1); with all segments drawn the same is
  decided for any set of lengths (`LengthPolicy.HighOneListIff`, `OneListIff`), and the final states are bound
  exactly then (`FinalPolicy.EveryHashBoundIff`). Admitting all lengths up to ceil(log2 C) is enough there
  exactly if C is a power of two or one less (`LengthPolicy.AtMostHeightIff`). Fewer draws together with lengths
  too short for some leaf are not decided.
- Section 5.4 gives C = 1024, K = 24 as catching a skip of 1 % with probability
  1 - 2^-40. The number of escaping draws is bounded in general by `Detection.CountedMiss`; for these
  numbers the bound is (1 - 0.01)^24, far above 2^-40.
- Section 5.3 subtracts a latency estimate from the elapsed time; the code does not.
- Section 5.3 also aborts a challenge whose lane misses the deadline with BENCH_FAILED; the
  code answers EXPIRED (or, once the key is gone, UNKNOWN_CHALLENGE) and drops nothing. A challenge that
  was dropped can be stored again by a request that had loaded it before
  (`AttestFailure.FailedChallengeReturns`, and `FailedChallengeStoredAgain` from the empty service); it comes
  back in some continuation exactly if, when it is dropped, another request holds a copy that may still be
  stored (`DroppedComesBackIff`), which loads one at a time exclude (`SerialDropIsFinal`).
- At most one attestation per challenge holds when requests are handled one at a time
  (`AttestService.AtMostOneAttestation`). It does not hold of the handlers with their awaits:
  `AttestInterleaved.TwoCloses` gives, for every state in which the last lane's submission would be
  accepted at two instants, the interleaving in which two copies of it received then both close the
  challenge. The attestations table keeps one row of an attestation, so this leaves two rows exactly if
  the instants differ; `AttestRace.OneChallengeAttestedTwice` is such a run from the empty service with
  two different attestations. At most one holds again as
  soon as a request loads a challenge only while no other is between its own load and its last store
  (`AttestSerial.SerialAttestsOnce`), which is the guard a lock per challenge would add.
- A busy post whose validUntil has passed is refused only after its number was stored, so the same
  number is refused again afterwards (`MarketRuns.RefusedAvailabilityIff`, with a post in
  `PastFlagUsesNumber`).
- A revoked offer has no key again when heartbeats are handled in one step (`MarketRuns.RevokedForever`).
  With the awaits of a heartbeat, one that was checked before the revocation writes its terms after it
  (`WriteAfterRevocation`); the offer must still be unrevoked at the write (`WriteKeepsCurrentIff`). The same
  goes for a busy flag (`MarketRaces.FlagAfterRevocation`, `FlagKeepsCurrentIff`).
- Numbers of accepted heartbeats increase when heartbeats are handled in one step
  (`MarketRuns.NumbersIncrease`). Of two that read the counter before either writes it, the lower number
  can be written last: the counter ends below the stored terms, and the other heartbeat is accepted again
  (`MarketRaces.CounterLowered`). Each of the two writes needs its comparison made again
  (`WriteSeqKeepsIff`, `ListTermsKeepsIff`).

## Model

| member | source | states |
|---|---|---|
| `Hashing.U32RoundTrip` | src/bench.ts:67-71 | reading back a written 32-bit integer gives the value modulo 2^32 |
| `Hashing.U32Wraps` | src/bench.ts:171-173 | draw counters 2^32 apart are encoded alike |
| `Hashing.U32Injective` | src/bench.ts:67-71 | different 32-bit values have different encodings |
| `Hashing.U32BigEndian` | src/bench.ts:67-71 | the first byte of an encoding counts 2^24, the last 1 |
| `Hashing.FirstU32BigEndian` | src/bench.ts:174-174 | the number read from a digest takes its first four bytes in that order |
| `Chain.S0PreInjective` | src/bench.ts:73-83 | the text a chain starts from determines seed, nonce, provider, lane and worker, although the lane id has no length of its own |
| `Chain.S0Holds` | src/bench.ts:73-83 | the start state hashes seed, nonce, provider, lane id and worker number, at these places and with nothing else |
| `Chain.StepsTrace` | src/bench.ts:303-304 | k steps lead from a state to its k-fold hash, one hash between neighbours |
| `Chain.SegLenIs` | src/bench.ts:302-303 | the loop over a segment goes on exactly while k < L / C, for every L and C |
| `Chain.StepsCompose` | src/bench.ts:303-304 | hashing a times and then b times is hashing a + b times |
| `Chain.SegmentSteps` | src/bench.ts:92-95 | segment j leads from checkpoint j to checkpoint j + 1 |
| `Chain.FullChain` | src/bench.ts:88-96 | where C divides L the last checkpoint is exactly L hash steps from s_0 |
| `Chain.ChainFromLinks` | src/bench.ts:86-97 | a list whose first state is one segment from s_0 and whose others each follow the one before is the computed chain |
| `Chain.ComputeChain` | src/bench.ts:86-97 | the two nested loops return the C checkpoints of the chain, the last one L steps from s_0, at a cost of L, and fail exactly when C does not divide L |
| `Merkle.WidthAtHeight` | src/bench.ts:107-115 | the tree of n leaves has one node at its height and more than one on every level below |
| `Merkle.TagsAndOrder` | src/bench.ts:64-103 | a leaf is hashed after the byte 0, a node after the byte 1 with its left child first |
| `Merkle.SmallTrees` | src/bench.ts:105-136 | the roots of one, two and three leaves and the paths in the last tree, written out |
| `Merkle.LevelShape` | src/bench.ts:119-136 | level k has ceil(n / 2^k) nodes, and leaf i's ancestor there is node i >> k, inside that width |
| `Merkle.HeightIsCeilLog2` | src/bench.ts:123-134 | a path has ceil(log2 n) siblings |
| `Merkle.NextLevel` | src/bench.ts:108-113 | one pass halves a level, rounding up, and pairs an odd last node with itself |
| `Merkle.MerkleRoot` | src/bench.ts:105-117 | the level-by-level loop computes the root of the recursive duplicate-last tree |
| `Merkle.MerklePath` | src/bench.ts:119-136 | the loop collects exactly the siblings of the recursive tree from the leaf to the root |
| `Merkle.VerifyPath` | src/bench.ts:138-154 | accepts exactly when the climb ends in the root and the index is used up, for paths of any length and siblings of any size |
| `Merkle.PathAt` | src/bench.ts:123-134 | entry d of a path is the sibling of the ancestor i >> d |
| `Merkle.ParentOf` | src/bench.ts:146-152 | hashing a node with its sibling on the side its index says gives the node above, for even, odd and unpaired nodes |
| `Merkle.ClimbFollowsTree` | src/bench.ts:144-152 | along an honest path the climb passes through the committed tree's nodes |
| `Merkle.PathVerifies` | src/bench.ts:119-154 | for every n >= 1 and i < n the generated path verifies against the root |
| `MerkleBinding.DescendKeepsDigest` | src/bench.ts:146-152 | where climb and tree hash the same input, the digests one level below agree and the sibling is the true one |
| `MerkleBinding.ExtractWorks` | src/bench.ts:138-154 | walking climb and tree down from a common digest returns a colliding pair, or has checked every level, the leaf and the siblings |
| `MerkleBinding.PositionBinding` | src/bench.ts:138-154 | a verifying path of any length either yields the extracted collision or is the one honest path, of length ceil(log2 n), to the i-th committed checkpoint |
| `MerkleBinding.RootBinds` | src/bench.ts:105-117 | two lists of one length with one root are equal, unless the extractor finds a collision between their trees |
| `PathBinding.CompareWorks` | src/bench.ts:144-153 | walking two climbs at one index down from their common end finds a collision or, at one length or index 0, shows one leaf and one path |
| `PathBinding.SameLengthBinding` | src/bench.ts:138-154 | under any root, two verifying paths of one length at one index open one leaf or hand over a collision |
| `PathBinding.ShiftReaches` | src/bench.ts:151-153 | a path uses its index up exactly if it has at least as many siblings as the index has bits |
| `PathBinding.NestedClash` | src/bench.ts:144-152 | a leaf opened on the way to another one always shows: their climbs hash different inputs at one place |
| `Plans.ShownVerifies` | src/bench.ts:138-154 | each tip of a binary tree of any shape verifies under its root with the index and length that spell the way to it |
| `Plans.ShownQuiet` | src/bench.ts:144-152 | and no two such paths hand over a collision |
| `Plans.OpensTwoWays` | src/bench.ts:138-154 | for every index but 0 and every two lengths that reach it, some root opens it to any two leaves |
| `Plans.LengthsBindIff` | src/bench.ts:138-154 | two lengths bind an index if and only if they are equal, the index is 0, or one is too short to reach it |
| `Sampling.SampleIs` | src/bench.ts:169-179 | however far the counter runs, the sample is the same |
| `Sampling.TranscriptHolds` | src/bench.ts:166-168 | the draw is seeded with the hash of challenge id, lane id and every root, each at its place and nothing else |
| `Sampling.TranscriptInjective` | src/bench.ts:166-168 | with equally many 32-byte roots, one seed text means one challenge, one lane and the same roots |
| `Sampling.DrawHolds` | src/bench.ts:171-175 | draw number ctr is the first four bytes of the hash of seed and counter, modulo C |
| `Sampling.SampleShape` | src/bench.ts:158-165 | the sample has exactly min(K, C) different indices, all below C |
| `Sampling.SampleInOrder` | src/bench.ts:171-177 | each sampled index is the residue of a counter before which only earlier samples were drawn |
| `Sampling.DrawsAreHits` | src/bench.ts:169-178 | n counters give as many indices as they hit different residues |
| `Sampling.SamplableIff` | src/bench.ts:171-178 | drawing ends if and only if the 2^32 different counters hit min(K, C) residues |
| `Sampling.RequiredMeans` | src/bench.ts:182-185 | the required segments start with 0, hold no segment twice, and are 0 and the sampled ones |
| `Sampling.RequiredInOrder` | src/bench.ts:183-185 | segment 0 comes first, the sampled ones follow in their order, without 0 |
| `Sampling.RequiredInRange` | src/bench.ts:264-264 | at most min(K, C) + 1 segments are required, all below C |
| `Sampling.AllRequired` | src/bench.ts:171-185 | with K >= C every segment is required |
| `Sampling.SampleIndices` | src/bench.ts:159-180 | the loop with its seen set returns the sample, and ends whenever the sample exists |
| `Lane.OpeningFault` | src/bench.ts:279-307 | the checks on an opening find no fault exactly when it is the required segment, anchored at s_0 or in the tree, and recomputes |
| `Lane.WorkerFault` | src/bench.ts:266-309 | a worker passes exactly when its final state is leaf C - 1 and its openings are the required ones, each correct |
| `Lane.ShapeFault` | src/bench.ts:247-262 | the structural pass accepts exactly the proofs with their own index and 32-byte root and final state |
| `Lane.LaneVerdict` | src/bench.ts:238-311 | the verdict is the first failing check, and acceptance exactly when every worker proof satisfies every check |
| `Lane.LaneTranscriptHolds` | src/bench.ts:247-264 | the segments of a well-shaped lane are drawn from the roots the workers submitted, in worker order |
| `Lane.AcceptedShape` | src/bench.ts:238-287 | what an accepted lane holds: worker numbers, sizes, the required segments in order, s_0 at segment 0 |
| `LaneReasons.RejectionMeans` | src/bench.ts:238-311 | a rejection names a check that fails, for the first worker with a failing one, after all shapes have passed |
| `LaneReasons.AcceptedIffNothingFails` | src/bench.ts:238-311 | a lane is accepted exactly if every worker sent a proof and none of the checks a rejection can name fails |
| `Lane.Recompute` | src/bench.ts:302-304 | recomputing a segment is that many hash steps, and costs as many |
| `Lane.CheckOpening` | src/bench.ts:279-308 | reports the first fault of one opening at the cost of at most one segment |
| `Lane.CheckShapes` | src/bench.ts:246-262 | reports the first malformed worker, or the roots in worker order |
| `Lane.CheckWorker` | src/bench.ts:266-309 | reports a worker's first fault at the cost of at most one segment per required one |
| `Lane.CheckWorkers` | src/bench.ts:266-310 | reports the first worker's fault, with the cost over all workers |
| `Lane.VerifyLane` | src/bench.ts:234-311 | gives the verdict, and on every input recomputes at most workers * (min(K, C) + 1) segments, exactly workers * required when it accepts |
| `Lane.OpenSegment` | src/bench.ts:208-214 | an opening holds the segment's two ends with their tree paths, s_0 and no path for segment 0 |
| `Lane.OpenSegments` | src/bench.ts:208-214 | one opening per required segment, in order |
| `Lane.BuildProofs` | src/bench.ts:206-222 | one worker proof per chain, with root, final state, final path and openings |
| `Lane.ProveLane` | src/bench.ts:190-223 | the prover builds the honest proof at a cost of workers * L hash steps, and fails exactly where a chain does |
| `Lane.CostRatio` | src/bench.ts:234-237 | the verifier's bound is (min(K, C) + 1) / C of the prover's cost |
| `Lane.HonestOpeningOk` | src/bench.ts:279-308 | every opening of an honest chain passes the verifier's checks |
| `Lane.HonestWorkerOk` | src/bench.ts:266-309 | every honest worker proof passes |
| `Lane.Completeness` | src/bench.ts:190-311 | for every hash, worker count, K and C >= 1 the verifier accepts what the prover builds |
| `ProofBinding.FoundCollides` | src/bench.ts:266-309 | comparing every two leaves a proof opens returns a real collision |
| `ProofBinding.NamedIs` | src/bench.ts:266-309 | without one, and with paths of one length to each leaf, the opened leaves all lie on one list of checkpoints |
| `ProofBinding.WorkerBinds` | src/bench.ts:266-309 | whatever its root, an accepted worker proof with such paths yields a collision, or names a list that ends in its final state and on which every required segment was computed |
| `ProofBinding.SegmentsJoin` | src/bench.ts:285-300 | then a required segment starts where the one before it ends, and the last one ends in the final state |
| `ProofBinding.HighPathsAgree` | src/bench.ts:234-237 | paths of ceil(log2 C) siblings meet both length conditions |
| `ProofBinding.LaneBinds` | src/bench.ts:238-311 | the same for every worker of an accepted lane |
| `ProofBinding.FullOpeningBindsChain` | src/bench.ts:183-185 | with K >= C the named list is the computed chain, whatever the root |
| `ProofBinding.FullOpeningBindsWork` | src/bench.ts:86-97 | ... and where C divides L the final state is L hash steps from s_0 |
| `PathLengths.KitLaneAccepted` | src/bench.ts:238-311 | openings that pass one by one make an accepted lane, whichever segments are drawn |
| `PathLengths.ScriptKitOk` | src/bench.ts:266-309 | a lane read off any tree that shows its segments' ends passes every check of a worker |
| `PathLengths.ScriptQuiet` | src/bench.ts:266-309 | and no two of its paths hand over a collision |
| `PathLengths.GraftScriptOk` | src/bench.ts:279-308 | wherever a shorter path reaches a place with no leaf below it, one checkpoint can be another state for the segment after it |
| `PathLengths.LongPathsAccepted` | src/bench.ts:144-153 | for every length of at least ceil(log2 C) the verifier accepts a lane with closing paths that long |
| `PathLengths.FinalStateUnbound` | src/bench.ts:270-274 | for every hash, K, C >= 2 and 32 bytes per worker the verifier accepts a lane with these as final states |
| `TwoSegments.TwoSegmentsPass` | src/bench.ts:279-308 | for every hash, K and C >= 2 it accepts a lane that holds no states but s_0, c_1 and c_2, without a collision |
| `TwoSegments.EveryDrawAnswered` | src/bench.ts:264-308 | one root per worker has such an answer to every draw, with paths of one length to each leaf wherever no two neighbouring segments are drawn |
| `TwoSegments.OneLengthFallsShort` | src/bench.ts:264-308 | so with K = 1 and any C >= 2 an accepted lane of two segments has paths of one length to each leaf |
| `LengthPolicy.ApartOneLength` | src/bench.ts:138-154 | where all checkpoints are opened on lengths that keep apart, without a collision, each leaf other than 0 is opened at one length |
| `LengthPolicy.OneListIff` | src/bench.ts:138-154 | for every hash and every K >= 1, what passes on admitted lengths without a collision always fits one list per worker if and only if the lengths keep apart: all lengths considered where all segments are drawn, those that reach all leaves otherwise |
| `LengthPolicy.HighApartIff` | src/bench.ts:151-153 | lengths that reach all leaves keep apart exactly if there is one (or C is 1) |
| `LengthPolicy.HighOneListIff` | src/bench.ts:138-154 | so for every hash and every K >= 1, what passes on lengths that reach all leaves always fits one list or collides if and only if one length is admitted (or C is 1) |
| `LengthPolicy.AtMostHeightIff` | src/bench.ts:123-134 | all lengths up to ceil(log2 C) keep apart exactly if C is a power of two or one less |
| `FinalPolicy.SomeHashAlwaysDraws` | src/bench.ts:171-178 | there are hashes for which drawing ends whatever the transcript |
| `FinalPolicy.TwoLengthsUnbind` | src/bench.ts:138-154 | admitting two path lengths that reach all leaves unbinds the final state, under every hash |
| `FinalPolicy.FinalBoundIff` | src/bench.ts:138-154 | under each hash, with K >= C and lengths that reach all leaves, every final state is C computed segments from s_0 if and only if one length is admitted (or C is 1) |
| `FinalPolicy.EveryHashBoundIff` | src/bench.ts:138-154 | under all hashes together, with K >= C and any set of lengths, exactly if the lengths keep apart |
| `LaneSoundness.OpeningSound` | src/bench.ts:279-308 | an accepted opening yields a collision, or shows the committed checkpoints at both ends, really computed, with full-height paths |
| `LaneSoundness.WorkerSound` | src/bench.ts:266-309 | an accepted worker proof yields a collision, or its final state is the last committed checkpoint and every opening is sound |
| `LaneSoundness.ExtractionSound` | src/bench.ts:238-311 | an accepted lane yields the extracted collision, or every worker's final state and every required segment are those of the committed list, computed from s_0 for segment 0 |
| `LaneSoundness.SegmentOpened` | src/bench.ts:302-307 | without a collision each required segment of each worker leads from its committed start to its committed end |
| `LaneSoundness.FullOpeningForcesChain` | src/bench.ts:183-185 | with K >= C and no collision every committed list is the computed chain |
| `LaneSoundness.FullOpeningForcesWork` | src/bench.ts:86-97 | ... and where C divides L the submitted final state is L hash steps from s_0 |
| `LaneSoundness.BrokenNotRequired` | src/bench.ts:302-307 | an accepted proof without a collision required none of the segments that were not computed |
| `LaneSoundness.AcceptedPathLengths` | src/bench.ts:234-237 | in such a proof every path has ceil(log2 C) siblings |
| `Detection.DrawsFromMeans` | src/bench.ts:158-165 | the counted draws are exactly the sequences of k different elements |
| `Detection.CountDraws` | src/bench.ts:158-165 | there are n (n - 1) ... (n - k + 1) of them |
| `Detection.MissBound` | src/bench.ts:159-185 | the draws that avoid b of C segments are at most a ((C - b) / C)^k share, for every C, b and k |
| `Detection.CountedMiss` | src/bench.ts:159-185 | the same for any set of segments, as a count of draws |
| `Detection.Detected` | src/bench.ts:264-308 | if b segments were not computed and the proof is accepted without a collision, segment 0 is not among them and the draw is one of N out of T with N C^k <= T (C - b)^k |
| `Strategies.AcceptedAnswers` | src/bench.ts:264-308 | an accepted lane answers its own draw |
| `Strategies.AnswerFits` | src/bench.ts:266-309 | proofs for different draws under one root whose paths to each leaf have one length across all of them, without a collision, fit one list |
| `Strategies.LevelPool` | src/bench.ts:279-287 | proofs under one root that each have paths of one length have the same one, or two of their paths collide, because each opens leaf 0 |
| `Strategies.AnswersAreFew` | src/bench.ts:264-308 | for any roots and any K, proofs with paths of one length each: two of their paths collide, or N answers to different draws out of T satisfy N C^k <= T (C - b)^k, b being the segments not computed on the lists they name |
| `Threads.StepOnTrack` | agent/src/bench.rs:55-60 | one step of a worker's thread keeps it on its chain |
| `Threads.FinishedIff` | agent/src/bench.rs:143-155 | a worker is done exactly after C (L/C + 1) turns of its own, however the threads interleave |
| `Threads.JoinedChain` | agent/src/bench.rs:143-155 | every interleaving that finishes a worker leaves it with its computed chain |
| `Threads.SameProof` | agent/src/bench.rs:142-188 | for every schedule that finishes all threads the joined chains give the reference prover's roots, segments and proofs |
| `AttestState.NewShape` | src/handlers/attest.ts:95-111 | a new challenge is well formed |
| `AttestState.StartKeepsShape` | src/handlers/attest.ts:138-149 | a start keeps done lanes a prefix, at most one lane started, nonce and issue time exactly when not pending |
| `AttestState.FinishKeepsShape` | src/handlers/attest.ts:195-197 | finishing the started lane keeps the shape, with elapsed times within the lane limit |
| `AttestState.StartableIff` | src/handlers/attest.ts:138-145 | a start succeeds exactly on the first lane that is not done, when it is still pending |
| `AttestState.ScoreIsNearest` | src/bench.ts:313-316 | the score is within one half of workers * L / seconds |
| `AttestState.LanesAre` | src/handlers/attest.ts:41-43 | the lanes are single, quad, eight and full, with 1, 4, 8 and coreCount workers |
| `AttestState.ParamsAre` | src/handlers/attest.ts:180-188 | a lane is verified under the seed, provider, lengths and nonce of its own challenge |
| `AttestService.BenchService.PostChallenge` | src/handlers/attest.ts:49-115 | stores the new challenge for its lifetime, or answers the first failing check and changes nothing |
| `AttestService.BenchService.PostLaneStart` | src/handlers/attest.ts:132-153 | starts the lane and keeps the key until the deadline, or answers the first failing check and changes nothing; states stay well formed |
| `AttestService.BenchService.PostLaneSubmit` | src/handlers/attest.ts:155-254 | refuses, drops the challenge, stores progress or closes, as the decision on the loaded state says; states stay well formed |
| `AttestService.BenchService.Complete` | src/handlers/attest.ts:195-246 | after an accepted proof stores the progress, or records the attestation, once, and drops the challenge |
| `AttestService.StepWellFormed` | src/handlers/attest.ts:132-254 | every request keeps every stored challenge well formed |
| `AttestService.OverStep` | src/handlers/attest.ts:118-123 | no request revives a challenge that is over, or attests it |
| `AttestService.OverForever` | src/handlers/attest.ts:118-254 | over any run, a challenge that failed, closed or expired stays over and gets no attestation |
| `AttestService.FailureAndCloseEnd` | src/handlers/attest.ts:171-193 | a failed lane and a closed challenge are over |
| `AttestAnswers.CreatedIff` | src/handlers/attest.ts:49-71 | a challenge is created exactly for a registered signer with a valid post within the rate limits; else nothing changes |
| `AttestAnswers.CreationErrors` | src/handlers/attest.ts:49-71 | which refusal a post gets, each error exactly under its condition |
| `AttestAnswers.CreatedIs` | src/handlers/attest.ts:73-112 | the created challenge is its signer's, has four pending lanes with 1, 4, 8 and coreCount workers, and is kept until its deadline |
| `AttestAnswers.StartRefused` | src/handlers/attest.ts:134-145 | a start is refused as unknown, expired or invalid exactly under these conditions, and then changes nothing |
| `AttestAnswers.StartIs` | src/handlers/attest.ts:147-152 | an accepted start sets status, nonce and instant of that lane and nothing else |
| `AttestAnswers.StrangerRefused` | src/handlers/attest.ts:160-161 | a submission is answered with a signature mismatch, and changes nothing, exactly if its signer is not the challenge's provider |
| `AttestAnswers.SubmitRefused` | src/handlers/attest.ts:160-168 | a submission is refused without effect exactly if signer, payload, deadline or lane status is wrong |
| `AttestAnswers.FailureDrops` | src/handlers/attest.ts:170-193 | an admissible submission drops the challenge exactly if the lane took too long or its proof is rejected |
| `AttestAnswers.ProgressIs` | src/handlers/attest.ts:195-202 | an accepted lane before the last is stored as done with the time it took, and nothing else changes |
| `AttestAnswers.CloseIs` | src/handlers/attest.ts:204-246 | the accepted last lane drops the challenge and leaves an attestation with the four rounded rates of 1, 4, 8 and coreCount workers |
| `AttestService.RunAccounted` | src/handlers/attest.ts:246-246 | in every run attested challenges are no longer stored and differ pairwise |
| `AttestService.AtMostOneAttestation` | src/handlers/attest.ts:204-246 | with requests handled one at a time a challenge gets at most one attestation |
| `AttestInterleaved.StartGood` | src/handlers/attest.ts:147-150 | a start computed on a legal loaded state gives a legal state to store, however stale the load |
| `AttestInterleaved.FinishGood` | src/handlers/attest.ts:195-200 | so does an accepted submission, and the verification it logs backs the lane |
| `AttestInterleaved.StepKeeps` | src/handlers/attest.ts:132-254 | every step of every request keeps stored, loaded and waiting states legal and backed by the history |
| `AttestInterleaved.RunKeeps` | src/handlers/attest.ts:132-254 | so does every run |
| `AttestInterleaved.StoredStatesWellFormed` | src/handlers/attest.ts:108-202 | under any interleaving every stored state is well formed |
| `AttestInterleaved.FlyingStatesWellFormed` | src/handlers/attest.ts:134-202 | so is every state a request has loaded or is about to store |
| `AttestInterleaved.AttestationBacked` | src/handlers/attest.ts:155-230 | every attestation rests on four accepted verifications, each under its own lane's nonce, in disjoint ordered intervals between opening and deadline |
| `AttestInterleaved.ElapsedWithinLifetime` | src/handlers/attest.ts:170-178 | its four elapsed times are each within the lane limit and sum to at most the challenge's lifetime |
| `AttestInterleaved.ReadyToClose` | src/handlers/attest.ts:155-197 | an acceptable last submission can run up to its close without touching the store |
| `AttestInterleaved.SameAttestationIff` | src/handlers/attest.ts:208-245 | closing one state at two instants gives one attestation exactly if the instants are the same |
| `AttestInterleaved.TwoCloses` | src/handlers/attest.ts:204-246 | whenever the last lane's submission would be accepted at two instants, two interleaved copies of it received then both close the challenge, and leave two attestations exactly if the instants differ |
| `AttestSigner.VerifiedWasSigned` | src/handlers/attest.ts:155-189 | under any interleaving every logged verification is of proofs in a submission signed by the provider the challenge was opened for |
| `AttestSigner.DropWasSigned` | src/handlers/attest.ts:155-193 | every drop is made by a request that such a submission opened |
| `AttestSigner.AttestationWasSigned` | src/handlers/attest.ts:155-211 | every attestation names that provider, who signed a submission on its challenge |
| `AttestSigner.OpenedOnce` | src/handlers/attest.ts:74-96 | a challenge is opened for one provider only |
| `AttestSerial.LiveIsOpen` | src/handlers/attest.ts:118-123 | a challenge a request loads alone is not attested |
| `AttestSerial.StepSerial` | src/handlers/attest.ts:132-254 | with loads of a challenge one at a time, every step keeps attested challenges out of the store, or with only their drop to come |
| `AttestSerial.SerialAttestsOnce` | src/handlers/attest.ts:204-246 | then a challenge gets at most one attestation, however the other steps interleave |
| `AttestRefinement.HandledAs` | src/handlers/attest.ts:155-202 | on a live challenge the one-step handler does with a submission what the separate steps decide |
| `AttestRefinement.OneStepIsSteps` | src/handlers/attest.ts:132-254 | every one-step request is a run of separate steps with the same effect on store and attestations |
| `AttestRefinement.UndisturbedIsOneStep` | src/handlers/attest.ts:132-254 | after any interleaved run, whatever is in flight, a request with nothing in between does exactly what the one-step model says |
| `AttestHonest.OpenWorks` | src/handlers/attest.ts:73-115 | a challenge request with an accepted core count stores the new challenge until its deadline |
| `AttestHonest.StartWorks` | src/handlers/attest.ts:132-153 | the next lane's start in time succeeds and keeps the challenge until its deadline |
| `AttestHonest.HonestAccepted` | src/handlers/attest.ts:180-193 | the reference prover's proof for the started lane is accepted |
| `AttestHonest.SubmitWorks` | src/handlers/attest.ts:155-246 | submitted in time it finishes the lane, and the last one closes the challenge |
| `AttestHonest.HonestProviderAttested` | src/handlers/attest.ts:132-254 | for every hash, a provider that computes its lanes and answers in time ends with exactly one new attestation, with the scores of its workers and elapsed times |
| `AttestRace.LanesReached` | src/handlers/attest.ts:132-202 | the interleaved model reaches every stage of such a challenge from the empty service |
| `AttestRace.OneChallengeAttestedTwice` | src/handlers/attest.ts:204-246 | for every hash there is a run from the empty service that leaves two attestations of one challenge, measured at different instants |
| `AttestFailure.GoneStays` | src/handlers/attest.ts:118-123 | a challenge neither stored nor held by a request stays out of the store |
| `AttestFailure.SerialDropIsFinal` | src/handlers/attest.ts:171-193 | with loads of a challenge one at a time, a dropped challenge is never stored again |
| `AttestFailure.FailedChallengeReturns` | src/handlers/attest.ts:189-202 | otherwise a failing and an accepted submission on one lane have an interleaving that drops the challenge and stores it again |
| `AttestFailure.FailedChallengeStoredAgain` | src/handlers/attest.ts:171-202 | such a run from the empty service, for every hash: a submission without proofs drops the challenge, the honest one stores it again with the lane done |
| `AttestFailure.ComesBackIff` | src/handlers/attest.ts:118-202 | an opened challenge that is not in the store is stored again in some continuation if and only if a request holds a copy of it that may still be stored |
| `AttestFailure.DroppedComesBackIff` | src/handlers/attest.ts:189-202 | after any run that ends in a drop, that is exactly when the dropped challenge can come back |
| `AttestWork.AcceptedBindsWork` | src/handlers/attest.ts:180-193 | whatever the roots, for every worker whose paths to each leaf have one length: a collision, or the opened segments join on one list, which with K >= C is the computed chain |
| `AttestWork.AcceptedFewPass` | src/handlers/attest.ts:180-193 | for any K: of proofs with paths of one length each that would pass for different draws under the verification's roots, its own ones among them, two paths collide or few draws pass in the number of segments not computed |
| `AttestWork.AcceptedShowsWork` | src/handlers/attest.ts:180-193 | an accepted verification shows its lane's work against every list of checkpoints its roots commit to |
| `AttestWork.AttestedWork` | src/handlers/attest.ts:189-230 | behind each lane of an issued attestation, under any interleaving, there is a verification with these three properties under the nonce drawn at its start |
| `JsonValue.KeysAscend` | src/jcs.ts:46-46 | sorted members have strictly ascending keys |
| `JsonValue.SortedKeys` | src/jcs.ts:46-46 | after sorting, of two keys the earlier one ends first or has the smaller unit where they first differ |
| `JsonValue.CanonInOrder` | src/jcs.ts:46-53 | in the sorted form this holds of every object at every depth |
| `JsonValue.CanonKeeps` | src/jcs.ts:46-53 | the sorted form is the value, up to the order of members |
| `JsonValue.SortUnique` | src/jcs.ts:46-46 | the order in which an object lists its members does not matter to the sorted result |
| `JsonValue.AlikeCanon` | src/jcs.ts:46-53 | values equal up to member order have the same sorted form |
| `JsonValue.CanonAlike` | src/jcs.ts:46-53 | values with the same sorted form are equal up to member order |
| `JsonValue.CanonDecidesAlike` | src/jcs.ts:46-53 | sorting decides equality up to member order |
| `JcsText.StringRoundTrip` | src/jcs.ts:32-33 | the parser reads an escaped string back, surrogate pairs and lone surrogates included, and stops at its closing quote |
| `JcsText.NumberRoundTrip` | src/jcs.ts:29-31 | the parser reads a decimal integer back when no digit follows it |
| `JcsText.ItemsRoundTrip` | src/jcs.ts:39-41 | the parser reads an array's items back |
| `JcsText.MembersRoundTrip` | src/jcs.ts:46-53 | the parser reads an object's members back in the order printed |
| `JcsText.ValueRoundTrip` | src/jcs.ts:24-54 | the parser reads every printed value back and leaves what follows, given that a number is not followed by a digit |
| `JcsText.CanonicalRoundTrip` | src/jcs.ts:24-54 | parsing the canonical text gives the value with its members sorted |
| `JcsText.TextMeans` | src/jcs.ts:16-54 | parsing canonical text gives the value up to member order, with the keys of every object in ascending code-unit order |
| `JcsText.WordsSpeltOut` | src/jcs.ts:25-40 | null, true, false, and empty arrays and objects as characters |
| `JcsText.NumbersSpeltOut` | src/jcs.ts:29-31 | 0, a digit and a negative number as characters |
| `JcsText.ArraysSpeltOut` | src/jcs.ts:39-41 | brackets around the items, commas between them |
| `JcsText.ObjectsSpeltOut` | src/jcs.ts:46-53 | braces around the members, commas between them |
| `JcsText.MembersSpeltOut` | src/jcs.ts:51-51 | a member is its quoted key, a colon, its value |
| `JcsText.ShortEscapesSpeltOut` | src/jcs.ts:9-13 | the two-character escapes |
| `JcsText.LongEscapesSpeltOut` | src/jcs.ts:9-13 | other control units and lone surrogates take a lower-case escape of six characters, every other unit stands for itself |
| `JcsText.PairsSpeltOut` | src/jcs.ts:32-33 | the two halves of a surrogate pair stand as they are, every other unit is written by itself |
| `JcsText.SameTextIff` | src/jcs.ts:16-22 | two values have one canonical text exactly when they are equal up to member order |
| `JcsText.ClosedRoundTrip` | src/jcs.ts:24-54 | a printed value that is no number is read back whatever follows |
| `JcsText.PrefixFree` | src/jcs.ts:39-53 | a canonical text is no proper prefix of another's, a number's followed by a digit excepted |
| `JcsText.NumbersAreNotPrefixFree` | src/jcs.ts:29-31 | that exception occurs |
| `JcsTs.SortCanon` | src/jcs.ts:46-52 | sorting members and canonicalizing their values commute |
| `JcsTs.Serialize` | src/jcs.ts:24-54 | the serializer writes the canonical text of every value with integers up to 2^53 whose objects name no key twice |
| `JcsTs.SerializeArray` | src/jcs.ts:39-41 | mapping and joining the items writes the canonical text of an array |
| `JcsTs.SerializeObject` | src/jcs.ts:46-53 | the loop over the sorted keys writes the canonical text of an object |
| `JcsTs.SerializeMember` | src/jcs.ts:49-51 | looking a key up again finds the member it came from |
| `JcsRust.Utf16Injective` | agent/src/jcs.rs:61-63 | different strings have different UTF-16 encodings |
| `JcsRust.Utf16LessTotal` | agent/src/jcs.rs:61-63 | utf16_cmp is a strict total order on distinct keys |
| `JcsRust.OrdersDisagreeIff` | agent/src/jcs.rs:58-63 | it differs from code-point order exactly when, at the first difference, one character is beyond U+FFFF and the other in U+E000 to U+FFFF |
| `JcsRust.SortEncode` | agent/src/jcs.rs:41-42 | sorting by utf16_cmp and then encoding is sorting the encoded keys by code unit |
| `JcsRust.EncodeUnique` | agent/src/jcs.rs:40-42 | encoding keeps distinct keys distinct |
| `JcsRust.EncodeAlike` | agent/src/jcs.rs:40-53 | encoding neither makes nor breaks equality up to member order |
| `JcsRust.EscapeCommutes` | agent/src/jcs.rs:70-84 | escaping a character and encoding it is escaping its code units, pairs included |
| `JcsRust.EscapeString` | agent/src/jcs.rs:68-86 | appends what JSON.stringify writes for the encoded string |
| `JcsRust.SignedDecimal` | agent/src/jcs.rs:27-27 | an integer's decimal text is the canonical one |
| `JsonValue.InRangeIff` | agent/src/jcs.rs:24-26 | the values both serializers take are those in which every number, at whatever depth, is at most 2^53 in size |
| `JcsRust.Serialize` | agent/src/jcs.rs:18-56 | succeeds exactly when every number is within 2^53, and then appends the canonical text of the encoded value |
| `JcsRust.SerializeItems` | agent/src/jcs.rs:30-39 | the array loop with its commas writes the array's canonical text, or stops at the first bad number |
| `JcsRust.SerializeObject` | agent/src/jcs.rs:40-53 | sorting in place and the loop write the object's canonical text |
| `JcsRust.SerializeEntries` | agent/src/jcs.rs:43-52 | the loop over the sorted entries writes them in their order, or stops at the first bad number |
| `JcsRust.Jcs` | agent/src/jcs.rs:12-16 | its UTF-16 text is what the TypeScript canonicalizer writes for the same value |
| `JcsRust.SameRustTextIff` | agent/src/jcs.rs:12-16 | two Rust values have one canonical text exactly when they are equal up to member order |
| `JcsRust.RustTextMeans` | agent/src/jcs.rs:12-56 | parsing what the Rust serializer writes gives the value up to member order, keys ascending by UTF-16 unit at every depth |
| `JcsRust.EncodeCharDecodes` | agent/src/jcs.rs:61-63 | a character is one unit, or a surrogate pair that stands for it |
| `RateLimit.Limiter.Limit` | src/redis.ts:238-245 | counts the call in its aligned window and returns 0 exactly when fewer than max came before, else the rest of the window |
| `RateLimit.CounterCounts` | src/redis.ts:240-243 | over any trace a counter holds the number of calls of its window |
| `RateLimit.CountsOneMore` | src/redis.ts:240-243 | a call adds one to its own counter while that can be read, else starts it anew for a window, and touches no other |
| `RateLimit.CounterOutlivesWindow` | src/redis.ts:243-243 | a counter never expires inside its own window |
| `RateLimit.CounterEnds` | src/redis.ts:239-243 | and ends before two windows from the start of its own have passed |
| `RateLimit.AdmittedIff` | src/redis.ts:241-244 | a call is admitted exactly when fewer than max calls of its key came before it in its window |
| `RateLimit.WindowCount` | src/redis.ts:238-245 | the calls admitted in a window number the smaller of max and its calls |
| `RateLimit.AtMostMaxPerWindow` | src/redis.ts:238-245 | never more than max admissions in an aligned window |
| `RateLimit.AtMostTwiceMax` | src/redis.ts:232-245 | never more than 2 max admissions in any interval of one window's length |
| `RateLimit.BurstAdmitted` | src/redis.ts:232-245 | for every t that starts no window a trace gets 2 max admissions within one window's length from t |
| `RateLimit.SlidingBoundIff` | src/redis.ts:232-245 | no trace gets more than max there if and only if max is 0 or t starts a window |
| `RateLimit.RetryLandsLater` | src/redis.ts:244-244 | a call made after the returned delay falls in a later window |
| `RateLimit.RetryIsNextWindow` | src/redis.ts:239-244 | the returned delay is positive and ends at the start of the next window |
| `OfferStore.LiveRowsAreReadableTerms` | src/redis.ts:145-160 | in an agreeing store the live rows are exactly the offers with readable terms, at those terms' prices |
| `OfferStore.SetTermsAgrees` | src/redis.ts:70-83 | writing terms keeps the agreement whatever was there, a longer earlier lifetime included |
| `OfferStore.SetTermsAgreesIff` | src/redis.ts:70-83 | the agreement is kept exactly if the index score is the end of the key's life |
| `OfferStore.DropAgrees` | src/redis.ts:101-105 | dropping an offer keeps it |
| `OfferStore.PruneAgrees` | src/redis.ts:147-147 | pruning keeps it and removes no live row |
| `OfferStore.EvictAgrees` | src/redis.ts:85-88 | an expired key's removal keeps it and is never seen by a reader |
| `OfferStore.Redis.PutTerms` | src/redis.ts:70-83 | writes the terms for at least 1 ms, the index score and the price, and nothing else |
| `OfferStore.Redis.Drop` | src/redis.ts:101-105 | removes an offer's four keys, index entry and price, and nothing else |
| `OfferStore.Redis.PutSeq` | src/redis.ts:186-188 | stores the heartbeat counter, and nothing else |
| `OfferStore.Redis.PutAvailSeq` | src/redis.ts:141-143 | stores the availability counter, and nothing else |
| `OfferStore.Redis.FlagBusy` | src/redis.ts:110-113 | sets the busy flag for at least 1 ms, and nothing else |
| `OfferStore.Redis.ClearBusy` | src/redis.ts:115-117 | clears the busy flag, and nothing else |
| `OfferStore.Redis.LiveOffers` | src/redis.ts:146-160 | prunes the index and returns each live offer that has a price once, with that price |
| `Market.MarketService.PostTerms` | src/handlers/offers.ts:170-240 | accepts a heartbeat into counter, terms, index and price, or answers the first failing check and changes nothing |
| `Market.MarketService.PostRevoke` | src/handlers/offers.ts:244-259 | marks the offer revoked and drops its keys, or answers the first failing check and changes nothing |
| `Market.MarketService.PostAvailability` | src/handlers/offers.ts:275-324 | sets or clears the busy flag, or refuses; a flag already past is refused after its number is stored |
| `MarketAnswers.ValidPriceIff` | src/validate.ts:4-28 | a price is a whole part without leading zeros, alone or with a point and decimals, of at most 8 characters |
| `MarketAnswers.HeartbeatAcceptedIff` | src/handlers/offers.ts:175-221 | a heartbeat is accepted exactly if its offer is open and the offer's provider signed a sound, timely and newer one; else nothing changes |
| `MarketAnswers.HeartbeatErrors` | src/handlers/offers.ts:175-221 | which refusal a heartbeat gets, each error exactly under its condition |
| `MarketAnswers.RevokedIff` | src/handlers/offers.ts:244-259 | an offer is revoked exactly by a post of its own provider, and then has nothing stored; else nothing changes |
| `MarketAnswers.RevokeSparesOthers` | src/handlers/offers.ts:254-256 | other offers keep their rows, terms, flags and counters |
| `MarketAnswers.HintAcceptedIff` | src/handlers/offers.ts:280-322 | a busy or free post is accepted exactly from the provider of an open offer, newer, timely and, if busy, ending in the future |
| `MarketAnswers.HintErrors` | src/handlers/offers.ts:280-311 | which refusal such a post gets |
| `MarketAnswers.HeartbeatSpares` | src/handlers/offers.ts:218-235 | a heartbeat leaves flags and other offers alone, an accepted one leaves its number in the offer's counter |
| `MarketAnswers.HintSpares` | src/handlers/offers.ts:307-323 | a busy or free post leaves terms and other offers alone, an accepted one leaves its number in the counter of such posts |
| `MarketRuns.HeartbeatCounted` | src/handlers/offers.ts:218-223 | an accepted heartbeat's number is above every earlier accepted one of its offer |
| `MarketRuns.StepKeeps` | src/handlers/offers.ts:170-324 | every handler, listing and key expiry keeps index agreement, counters, key absence and traceability |
| `MarketRuns.RunKeeps` | src/handlers/offers.ts:170-324 | so does every run |
| `MarketRuns.IndexAgreement` | src/redis.ts:145-160 | after any run, at any later instant, the live rows are exactly the offers with readable terms at their prices |
| `MarketRuns.NumbersIncrease` | src/handlers/offers.ts:218-223 | accepted numbers of an offer strictly increase, and stored terms never carry one above the counter |
| `MarketRuns.RevokedForever` | src/handlers/offers.ts:184-184 | once revoked, an offer never has a key again and no heartbeat for it is accepted, although its counters are gone |
| `MarketRuns.RevocationLasts` | src/handlers/offers.ts:244-259 | after any run, a successful revocation and any further run, no key of the offer is left and no heartbeat for it was accepted since |
| `MarketRuns.RefusedAvailabilityIff` | src/handlers/offers.ts:307-315 | a refused availability post changes nothing exactly when a check before the counter's update failed; otherwise the same post is then refused for its number |
| `MarketRuns.PastFlagUsesNumber` | src/handlers/offers.ts:307-315 | a post that is refused and uses its number up |
| `MarketRuns.WriteAfterRevocation` | src/handlers/offers.ts:184-234 | a heartbeat checked before a revocation and written after it brings terms to a revoked offer |
| `MarketRuns.WriteKeepsCurrentIff` | src/handlers/offers.ts:223-234 | the write keeps revoked offers without keys exactly if the offer is not revoked when it is made |
| `MarketRaces.CounterLowered` | src/handlers/offers.ts:217-234 | two heartbeats that both pass before either writes can leave the counter below the stored terms, and the higher number is accepted a second time |
| `MarketRaces.BothCanPass` | src/handlers/offers.ts:217-223 | two such heartbeats, for an offer just published |
| `MarketRaces.WriteSeqKeepsIff` | src/handlers/offers.ts:222-222 | writing a number keeps stored terms at or below the counter exactly if the offer's own are |
| `MarketRaces.ListTermsKeepsIff` | src/handlers/offers.ts:227-234 | writing terms does exactly if the counter has reached their number |
| `MarketRaces.FlagAfterRevocation` | src/handlers/offers.ts:307-324 | a busy post checked before a revocation and written after it flags a revoked offer |
| `MarketRaces.FlagKeepsCurrentIff` | src/handlers/offers.ts:319-324 | the flag keeps revoked offers without keys exactly if the offer is not revoked when it is written |
| `MarketRuns.LiveWasAccepted` | src/handlers/offers.ts:225-235 | terms readable at an instant were accepted no longer ago than min(validUntil, 2 I + 30 s) allows |
| `MarketAnswers.TermsLast` | src/handlers/offers.ts:225-234 | after an accepted heartbeat and any events but another heartbeat of the offer or its revocation, its terms are readable at t exactly if t is at most validUntil and at most 2 I + 30 seconds after it |
| `MarketAnswers.ListedAsLong` | src/redis.ts:70-160 | exactly that long the index lists the offer, at that price |
| `MarketRuns.BusyWasFlagged` | src/handlers/offers.ts:314-318 | a busy flag traces to a post at most an hour ago whose validUntil has not passed |
| `MarketAnswers.FlagLasts` | src/handlers/offers.ts:314-322 | after an accepted post, until the next one or a revocation, the offer is busy exactly if the post said so, up to its validUntil and one hour at most |
| `Query.FreshnessNests` | src/handlers/query.ts:120-130 | strict results are normal results and normal results are unfiltered results, row for row |
| `Query.EnrichAllKeeps` | src/handlers/query.ts:114-131 | the loop keeps exactly the candidates that pass every filter |
| `Query.EnrichAllDistinct` | src/handlers/query.ts:114-131 | and none of them twice |
| `Query.BeforeTransitive` | src/handlers/query.ts:141-157 | the comparator is transitive in every sort mode |
| `Query.BeforeTotal` | src/handlers/query.ts:141-157 | it never puts two offers before each other and decides between different ids, missing prices and equal hash keys included |
| `SearchOrder.BeforeIff` | src/handlers/query.ts:141-157 | the comparator puts cheaper before dearer and unpriced last, higher scores first, lower random keys first, and smaller ids first among equals |
| `SearchOrder.MillionthsIs` | src/handlers/query.ts:124-124 | a price text of d decimals counts its digits times 10^(6 - d) millionths |
| `Query.ComparatorOrders` | src/handlers/query.ts:141-157 | on different ids it is a strict total order |
| `Query.OneOrder` | src/handlers/query.ts:141-157 | the sorted result is the only arrangement the comparator agrees with, whatever the sorting algorithm |
| `Query.PageLimit` | src/handlers/query.ts:61-61 | a page holds 1 to 100 items, the number asked for when it is in that range |
| `Query.FollowIsRest` | src/handlers/query.ts:159-176 | following cursors from an offset gives the rest of the list |
| `Query.PagingIsComplete` | src/handlers/query.ts:134-176 | following nextCursor from the start ends and gives every filtered offer exactly once, in the order of the first request's seed |
| `Query.GetOffers` | src/handlers/query.ts:114-178 | the handler's loop, sort and slice serve the page of the filtered, sorted candidates the cursor names |
| `SearchOrder.KeptIff` | src/handlers/query.ts:115-131 | an offer is kept exactly if its terms are young enough, cheap enough and, where asked for, not taken |
| `SearchOrder.PageIs` | src/handlers/query.ts:159-176 | the size of a page, its items and its cursor, written out |
| `SearchOrder.ServedInOrder` | src/handlers/query.ts:133-160 | of two items of a served page the earlier has the better key or, at equal keys, the smaller id |
| `SearchOrder.FollowedInOrder` | src/handlers/query.ts:133-176 | the same of all items met by following the cursors |
| `MarketSearch.NormalIsLive` | src/handlers/query.ts:120-126 | while an offer's interval has not been shortened since its heartbeats, freshness=normal keeps it exactly while the live index lists it |
| `MarketSearch.NormalCoversLifeIff` | src/handlers/query.ts:123-123 | after an interval change freshness=normal covers the terms' whole life exactly if that is at most twice the new interval plus 30 s |
| `MarketSearch.StatusIff` | src/handlers/offers.ts:138-160 | an offer is active or busy exactly when the live index lists it and it has not expired itself |
| `MarketSearch.StatusesAre` | src/handlers/offers.ts:138-143 | each status exactly under its condition |
| `MarketSearch.SearchSees` | src/handlers/query.ts:108-130 | what the search knows of an offer it keeps: its scores, and terms, price and flag as they stand |
| `MarketSearch.ListedPastExpiryIff` | src/handlers/offers.ts:225-235 | left alone, the index comes to list an expired offer exactly if the lifetime given to its last heartbeat reaches the offer's own expiry |
| `MarketSearch.ExpiredCanBeListed` | src/redis.ts:145-160 | a run after which an expired offer is still listed |

## Left out

- keccak256, secp256k1 signatures, random bytes: the hash is a parameter, signers, nonces, seeds and ids are given to the handlers.
- HTTP routing, envelopes, request parsing, error bodies, Postgres text and joins: the offers table is a map, durable logging and signing an attestation leave no trace in the model.
- Dynamic type checks on malformed proofs (missing arrays, text that is not hex): proofs are typed; arity, index and length checks are kept.
- C = 0: the prover's chain throws, which `Chain.ComputeChain` states; the verifier and the lane prover are modelled for C >= 1, which the configuration's division check implies.
- Sampling.SampleIndices: requires that drawing ends, because the source's loop does not end otherwise; `SamplableIff` says when it does.
- Non-termination by counter overflow in the Rust sampler: its counter is 32 bits wide, and drawing that ends at all ends before it wraps.
- Threads.SameProof: schedules the chain steps; hashing the leaves and the root inside a thread works on that thread's own data and is done after the join in the model.
- Floating-point numbers, non-finite numbers, undefined values and class instances in `src/jcs.ts`: values are the integers and plain data both canonicalizers accept.
- LaneSoundness.OpeningSound: assumes that the root is that of a list of C checkpoints; `ProofBinding.OpensNamed` does not.
- LaneSoundness.WorkerSound: assumes the same; `ProofBinding.WorkerBinds` does not, and needs paths of one length to each leaf.
- LaneSoundness.ExtractionSound: assumes the same; `ProofBinding.LaneBinds` does not.
- LaneSoundness.SegmentOpened: assumes the same; `ProofBinding.SegmentsJoin` does not.
- LaneSoundness.FullOpeningForcesChain: assumes the same; `ProofBinding.FullOpeningBindsChain` does not.
- LaneSoundness.FullOpeningForcesWork: assumes the same; `ProofBinding.FullOpeningBindsWork` does not.
- LaneSoundness.BrokenNotRequired: assumes the same; `Strategies.AnswersAreFew` does not.
- LaneSoundness.AcceptedPathLengths: assumes the same; under other roots paths can be longer (`PathLengths.LongPathsAccepted`).
- Detection.Detected: assumes the same; `Strategies.AnswersAreFew` does not.
- AttestWork.AcceptedShowsWork: assumes the same; `AttestWork.AcceptedBindsWork` and `AttestWork.AcceptedFewPass` do not.
- LengthPolicy.OneListIff: with fewer draws than segments it is about lengths that reach all leaves; a mixture with shorter ones, which no honest path has, is decided for full draws only.
- FinalPolicy.FinalBoundIff: the same for a single hash; `FinalPolicy.EveryHashBoundIff` decides any set of lengths for all hashes together.
- Strategies.AnswerFits: its condition is on all answers together; `Strategies.LevelPool` leads to it from one on each proof.
- AttestWork.AcceptedBindsWork: with K below C it is about the opened segments only; `AttestWork.AcceptedFewPass` is about the others.
- JcsTs.Serialize: integers beyond 2^53, which `src/jcs.ts` prints in the engine's own form, are not modelled.
- JcsRust.Serialize: leaves open how much was appended before a failing number, which `jcs` discards.
- AttestState.ScoreIsNearest: the quotient is exact, where the source rounds a floating-point quotient; declared RAM, CPU model and the reserved scores are not carried along.
- AttestService.BenchService.PostChallenge: whether the signer has a profile and whether the rate limits are reached are inputs.
- Attestations are told apart by their whole content, as their ids are hashes of it.
- AttestInterleaved.AttestationBacked: a second attestation for one challenge is possible there (`TwoCloses`); the property that survives is stated.
- Rate limits inside the handlers: whether a call is limited is an input; the limiter is modelled by itself in `RateLimit`. Its second clock reading is taken to be the first.
- Redis outages and lost data; the degraded mode.
- MarketRuns.IndexAgreement: handlers are single steps with one clock reading there. What an await adds is stated write by write (`MarketRuns.WriteKeepsCurrentIff`, `OfferStore.SetTermsAgreesIff`, `MarketRaces`), not for whole interleaved runs.
- The order of the rows of `liveOffers`, the cached snapshot, last-seen keys.
- Posting an offer and a profile: they enter as events that add an offer or change an interval.
- Query.PagingIsComplete: for a candidate set that does not change between requests and a whole-number limit; the 1000-row cap and the SQL filters are outside it.
- The text encoding of cursors and the parsing of query parameters.
- Statistics, history, the dashboard, development seeders, the VM driver, provisioning and the file relay: input and output with shallow invariants.
