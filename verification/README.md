# Verified models of origin-tools

Dafny models of the stateful parts of the origin-tools suite, with proofs of what they promise over every
input, every run and every interleaving. `dafny verify dfyconfig.toml` checks the whole project.

| files | what they model |
|---|---|
| `BitWords`, `ReplayWindow` | the anti-replay bitmap of origin-channel, a vector of 64-bit words shifted in place, against the plain set of accepted numbers |
| `ChannelCrypto`, `Handshake`, `Session`, `Epochs`, `Strays` | key schedule, nonces, usage limits, three-message handshake and ratcheted sessions of origin-channel; two sessions talking to each other over many epochs; what frames out of turn do to them |
| `Frontier`, `Crawl`, `CrawlSafety`, `CrawlTermination`, `CrawlTiming`, `CrawlCoverage`, `CrawlLedger` | the crawler's frontier, and any number of crawl workers sharing it, one step per lock region or atomic access |
| `TrustGraph`, `TrustScore`, `TrustMeaning`, `TrustStore` | the endorsement graph of origin-attest: shortest trust paths, trust scores, what a score means |
| `Hex`, `Merkle`, `Evidence` | the Merkle commitment of origin-canary over hex text, from embedded tokens to evidence packages |
| `RelayDemux` | the relay client's frame demultiplexer of origin-network |
| `TokenBucket` | per-source flood control of origin-network |
| `HandshakeTracker` | handshake replay memory of origin-network and its file |
| `Corpus`, `CorpusPass` | analysis and garbage collection of a saved crawl corpus |

What the code mutates is a class here, and each of its methods is proved equal to a function on values;
the theorems are about those functions. Clock readings, randomness, network answers and disk answers are
parameters. Hash, KDF, AEAD and Diffie-Hellman are function parameters, and a lemma that needs a law of
theirs asks for it: `AeadLaw`, `DhLaw`, `Digests` (hashes have 32 bytes), `BlocksApart` (the blocks taken from one
key derivation differ), and, of the frames at hand only,
that none opens under a key that is not its own (`OwnKeyOnly`, `StaleApart`, `Apart`). Merkle binding needs no
law about collisions: it names the step of the climb where two different inputs have one hash. 64-bit words are
naturals below 2^64 with shifts written out; floating-point scores are reals; other counters are unbounded.

## Where the code and its comments part

- `TrustMeaning.CycleInflates`: propagation is described as having cycle detection, but a walk may end at
  a node it has passed, so a cycle through an agent raises its score. The lemma says exactly when;
  `MutualVouchersInflate` is an instance.
- `Session.OnlyInOrder`, `Session.UnderstoodIff`: the replay window accepts reordered messages, but a session
  understands a message only when its number is how many frames were charged before it.
- `Session.MovesIff`, `Session.NumberBurnt`: the comment on rotation says a stale frame fails authentication
  before it reaches the window. The window comes first, so a frame leaves the session alone exactly when the
  window refuses its number. `Strays.StrayEffect` says exactly which of the messages that follow are then still
  understood: after a frame with the number of the j-th message to come, charged to the chain and less than a
  window ahead, those after the j-th.
- `Epochs.LosslessIff`: rotation is called sound without a word about messages under way. Nothing is lost
  exactly when every message is delivered in the epoch it was sent in; `Strays.RotationLoses` says exactly what
  is lost otherwise, old messages and new.
- `Strays.UnswappedUnderstoodIff`: `dh_ratchet` gives both sides the same send chain. Rotated to as it comes, a
  peer understands nothing that is sent, unless the two chains coincide; then all of it.
- `Session.ShortChargedIff`: a ciphertext shorter than the tag is said to be counted in full. It is counted as
  nothing, so the charge is the one described exactly when the ciphertext is empty or no shorter than the tag.
- `RelayDemux.ErrorFate`, `RelayDemux.ErrorsSurface`: an error frame is said to surface on the next read. It is
  reported exactly when a response or relay read takes it off the wire. If the presence stream does, it is set
  aside and no read ever reports it (`SwallowedError`).
- `RelayDemux.RecvNoneIff`: the presence stream is said to end only with the connection. It also gives nothing
  when the first presence frame does not decode, with frames still to come.
- `HandshakeTracker.RefusedUnchanged`: a comment says a replayed nonce is re-recorded as recent. A refused frame
  changes nothing.
- `HandshakeTracker.RefusedAfterRestart`: the newest frames are said to stay refused, also across restarts. The
  file keeps no order, so how long a saved nonce is refused depends on its place in the file alone;
  `NewestForgottenFirst` gives a file and frames after which the newest is forgotten and all others are not.
- `CorpusPass.RewritesFinishIff`: a stripped sidecar is written under the hash it names, so a pass is
  complete exactly when the documents it rewrites name their own files.
- `Corpus.StrippedCountIff`: the count of stripped stale sources is said to be that of sidecars that keep fresh
  ones. It is exactly when no entry removed whole had a source (`EmptiedCounted` is an instance).
- `CorpusPass.UnparsedKeptIff`: unparseable sidecars are said to be left alone always. They are exactly when they
  have a body and no stripped document names them (`NeighbourOverwritten` is an instance). Likewise
  `NoOrphansLeftIff` and `NoStaleLeftIff` say exactly when a pass leaves no orphan and nothing stale.
- `Merkle.Binding`: proof verification checks neither the length of the proof, nor that the index is in range, nor
  that the texts decode to digests. Barring collisions, an accepted proof is about a node of the tree exactly when
  it is no longer than the tree is deep and the text to be proved is 32 bytes wide; length and index then say
  which node. `InteriorNodeAccepted`, `PhantomNeighbour`, `RegroupedAccepted`, `AnyWidthAccepted`,
  `NonsenseAccepted`, `LongerProof` and `Evidence.PreimagePasses` give what else passes.
- `Evidence.EvidenceNames`: a package is said to check every link again. It does not check that a leaf belongs to
  its secret. For a leaf of 32 bytes with a full-length proof and an index in range, and barring collisions, the
  secret is the embedded one exactly when the leaf is recomputed from it.
- `CrawlTiming.PoliteIff`: a host is said to get at most one request every delay. Its slots are spaced; the requests
  are in every crawl exactly when they must go out as their slots begin. One tick lost to fetching the robots
  rules, which the next request finds cached, is enough to break it.
- `TokenBucket.RefillBounds`: tokens are said to refill continuously. The clock restarts at every refill, so part
  periods are lost: while the bucket does not fill, at least half of what the time is worth is paid in, and all of
  it exactly when every refill comes a whole number of periods after the one before.
- `TokenBucket.PruningInvisibleIff`: dropping idle sources is invisible exactly from an idle time of capacity
  times refill period on.

## Model

| member | source | states |
|---|---|---|
| BitWords.ShiftedBit | origin-channel/src/replay.rs:93-111 | a whole-word pass and then a sub-word pass move every bit of the map down by the shift, for every shift and every length |
| BitWords.FunnelBit | origin-channel/src/replay.rs:104-111 | the sub-word pass takes each bit from the same word while it lasts and from the next word after |
| BitWords.SingleBit | origin-channel/src/replay.rs:123-129 | the mask for a bit has that bit and no other |
| ReplayWindow.Window.constructor | origin-channel/src/replay.rs:28-36 | a new window mirrors the empty set |
| ReplayWindow.Window.Accept | origin-channel/src/replay.rs:40-81 | the bitmap answers exactly as the set of accepted numbers does and mirrors it afterwards; a refusal changes nothing |
| ReplayWindow.Window.MakeRoom | origin-channel/src/replay.rs:57-69 | sliding by how far the floor moves, also while it is saturated at 0, keeps the bitmap a mirror of the set |
| ReplayWindow.Window.Advance | origin-channel/src/replay.rs:83-112 | the in-place loops shift the whole bitmap, and clear it when the shift covers the window |
| ReplayWindow.Window.ShiftWords | origin-channel/src/replay.rs:95-102 | the in-place word loop leaves each word's successor, zero past the end |
| ReplayWindow.Window.ShiftBits | origin-channel/src/replay.rs:104-111 | the in-place bit loop funnels each pair of neighbours |
| ReplayWindow.Window.GetBit | origin-channel/src/replay.rs:114-121 | reads one bit, clear past the end |
| ReplayWindow.Window.SetBit | origin-channel/src/replay.rs:123-129 | sets one bit and leaves all others |
| ReplayWindow.AfterIsAnswers | origin-channel/src/replay.rs:38-81 | after any run, the set holds exactly the numbers that were answered with acceptance |
| ReplayWindow.ReplaySafety | origin-channel/src/replay.rs:38-81 | in any run no number is accepted twice, and one is refused only as a repeat or for lying below the window |
| ReplayWindow.RefusedIff | origin-channel/src/replay.rs:38-81 | after any run a number is refused exactly when it was accepted before or lies a whole window below one that was |
| ChannelCrypto.NonceInjective | origin-channel/src/nonce_tracker.rs:42-48 | different counters give different 24-byte nonces |
| ChannelCrypto.LittleEndianRoundTrip | origin-channel/src/nonce_tracker.rs:44-48 | the counter can be read back from its bytes |
| ChannelCrypto.KeysApart | origin-channel/src/ratchet.rs:31-100 | no two keys made of one input coincide: root and chains of a side, message key and next chain; the two sides send on different chains, each on the other's receiving one |
| Handshake.HonestAgreement | origin-channel/src/handshake.rs:171-233 | an undisturbed run completes, both sides derive the same secret and session id or refuse alike, and they succeed exactly when none of the four exchanges is refused |
| Handshake.Exchange | origin-channel/src/handshake.rs:68-233 | two parties driven through the three messages end with one secret, derived from the four exchanges in order and both ephemeral keys, and one session id, the hash of those keys and the secret; they fail alike, exactly when an exchange is refused |
| Handshake.SecretBinds | origin-channel/src/handshake.rs:191-221 | equal secrets mean the same four exchanges and the same transcript, or the two derivation inputs collide, whatever happened on the wire |
| Handshake.CompletesIff | origin-channel/src/handshake.rs:68-185 | for any calls in any order with any messages: a party comes to deriving keys exactly when the last call its role takes ends the handshake and one that makes its own key came before, and its transcript is the keys seen |
| Handshake.SessionIdBinds | origin-channel/src/handshake.rs:223-227 | equal session ids mean equal transcripts and secrets, or the two id inputs collide, whatever happened on the wire |
| Session.RatchetedSession.constructor | origin-channel/src/session.rs:45-53 | a new session starts an epoch |
| Session.RatchetedSession.DecryptMessage | origin-channel/src/session.rs:98-112 | decryption over the real replay bitmap, with what has moved when it fails |
| Session.RatchetedSession.RotateKeys | origin-channel/src/session.rs:135-141 | rotation starts a new epoch with the given keys |
| Session.AlwaysLockstep | origin-channel/src/session.rs:65-112 | after any run against any peer, sequence number, nonce counter, message count and chain position agree, and the i-th message out has number i and nonce i |
| Session.EpochSafety | origin-channel/src/nonce_tracker.rs:3-8 | in an epoch no two messages share a nonce or a number and no budget is overrun |
| Session.SendsExactly | origin-channel/src/session.rs:65-89 | in an epoch exactly the plaintexts that fit the limits after those before them go out, each sealed under its own number, nonce and chain key |
| Session.SendSucceedsIff | origin-channel/src/session.rs:65-89 | after any run a plaintext goes out exactly when fewer messages were sent than the limit and their bytes leave room; otherwise nothing moves |
| Session.MovesIff | origin-channel/src/session.rs:98-112 | a frame leaves the session as it was exactly when the window refuses its number, and uses up a place of the chain exactly when window and budget let it by |
| Session.NumberBurnt | origin-channel/src/session.rs:129-135 | after any arrivals, a message is refused as a replay exactly when a frame with its number, or one with a number a whole window above, passed the window before, whatever was in it |
| Session.UnderstoodIff | origin-channel/src/session.rs:98-112 | after any arrivals, a message of the peer is understood exactly when the window takes it, the budget has room, and its number is how many frames were charged before it |
| Session.ShortChargedIff | origin-channel/src/usage_limit.rs:109-115 | a received frame is charged the length its documentation says exactly when it is empty or no shorter than the tag |
| Session.SendLinks | origin-channel/src/session.rs:65-89 | sending keeps sender and receiver apart by exactly the messages under way |
| Session.DeliverLinks | origin-channel/src/session.rs:98-112 | the oldest message under way is understood: window, chain and budget all let it through |
| Session.OnlyInOrder | origin-channel/src/session.rs:105-111 | of the messages under way, all pass the window and exactly the oldest is understood |
| Strays.InOrderFrom | origin-channel/src/session.rs:98-112 | from any state of the receiver, messages then delivered in order are understood exactly when the window lets them by and the chain has come to their place |
| Strays.StrayEffect | origin-channel/src/session.rs:98-112 | after any frame taken in place of the message due, exactly which of the messages under way are still understood, charged or not, however far ahead its number |
| Strays.RotationLoses | origin-channel/src/session.rs:129-141 | rotating with messages under way loses all of them and, of the new epoch, exactly the messages stated; nothing is lost only if nothing was under way |
| Strays.UnswappedUnderstoodIff | origin-channel/src/ratchet.rs:76-100 | with the ratchet step's result taken as it comes on both sides, every message sent is understood if the two chains coincide, and none otherwise |
| Epochs.EpochsTogether | origin-channel/src/session.rs:65-141 | both sides rotating when they like, while messages are delivered in their own epoch the two roots agree epoch by epoch, what is got is what was sent, and each way stays linked unless its receiver has rotated past messages under way, of which no more is then delivered |
| Epochs.LosslessIff | origin-channel/src/session.rs:129-141 | over all runs with rotations, everything that arrives is understood exactly when every delivery is in its epoch |
| Epochs.SentExactly | origin-channel/src/session.rs:65-141 | over all runs with rotations, each side has sent exactly the plaintexts that fit their epoch, in order |
| Epochs.DrainedRotationLinks | origin-channel/src/session.rs:129-141 | after any such run, rotating both sides with nothing under way links them again under one root, with everything sent got |
| Epochs.HonestSessionsDeliver | origin-channel/src/session.rs:60-141 | after an undisturbed handshake, in every interleaving of sends, in-order deliveries and rotations with deliveries in their epoch, the plaintexts that fit are sent, and what is got is what was sent, in order |
| Epochs.FirstEpochOnly | origin-channel/src/session.rs:60-112 | without rotations every interleaving qualifies |
| Frontier.FirstUnique | origin-crawler/src/frontier.rs:34-57 | the order decides who leaves next |
| Frontier.SharedFrontier.Push | origin-crawler/src/frontier.rs:94-111 | queued exactly when the URL without fragment fits and was never queued; arrival numbers stay unique |
| Frontier.SharedFrontier.Pop | origin-crawler/src/frontier.rs:115-117 | the first entry by depth, host class and arrival leaves |
| Frontier.SlotsSpaced | origin-crawler/src/frontier.rs:119-131 | for any history of reservations, two slots of one host are at least the delay apart |
| Frontier.SlotsIndependent | origin-crawler/src/frontier.rs:119-131 | a host's slots are what they would be had nobody else reserved |
| CrawlSafety.StepKeepsInv | origin-crawler/src/crawler.rs:354-575 | every step of every worker keeps all crawl invariants |
| CrawlSafety.AlwaysInv | origin-crawler/src/crawler.rs:354-575 | the invariants hold in every state of every interleaving, for any number of workers |
| CrawlSafety.StepWork | origin-crawler/src/crawler.rs:361-386 | while anything is queued, some worker may still pop it |
| CrawlSafety.StepAccounted | origin-crawler/src/crawler.rs:162-167 | every URL queued is queued still, in a worker's hands, or shown by one counter |
| CrawlSafety.StepBudget | origin-crawler/src/crawler.rs:498-505 | pages, budget left, units not yet recorded and save failures add up to the page limit |
| CrawlSafety.StepContent | origin-crawler/src/crawler.rs:470-473 | stored and claimed contents stay pairwise distinct and apart from the resumed ones |
| CrawlSafety.StepSameSite | origin-crawler/src/crawler.rs:564-574 | everything queued, in hand or stored below the seeds is on an allowed host |
| CrawlSafety.StepDepth | origin-crawler/src/crawler.rs:560-563 | nothing queued, in hand or stored lies deeper than the limit |
| CrawlSafety.StepPopped | origin-crawler/src/frontier.rs:100-102 | no URL is handed out twice |
| CrawlSafety.DrainedAtExit | origin-crawler/src/crawler.rs:361-386 | when all workers have left nothing is queued or in flight, and discovered URLs equal the sum of the outcomes |
| CrawlSafety.CrawlBounds | origin-crawler/src/crawler.rs:413-423 | at all times: page limit, distinct contents, depth limit, allowed hosts, host quota, no URL handed out twice |
| CrawlSafety.OneWorkerBreadthFirst | origin-crawler/src/frontier.rs:9-14 | a crawl with one worker takes URLs in order of depth |
| CrawlSafety.ShallowestFirst | origin-crawler/src/frontier.rs:9-14 | with any number of workers the shallowest entry leaves next, and whatever is taken later is no shallower unless a worker then held something shallower still |
| CrawlTermination.StepProgress | origin-crawler/src/crawler.rs:498-505 | every step but looking and waiting lowers budget or remaining effort |
| CrawlTermination.FiniteWork | origin-crawler/src/crawler.rs:361-386 | in every endless schedule, on any site, from some point on workers only look and wait |
| CrawlTermination.FairCrawlEnds | origin-crawler/src/crawler.rs:361-386 | under a fair schedule every worker leaves |
| CrawlCoverage.LinkFollowed | origin-crawler/src/crawler.rs:560-574 | from the moment a page above the depth limit is recorded, each of its links that resolves, is on an allowed host and fits the length cap is still ahead of the worker with the page, or its URL was seen |
| CrawlCoverage.LinksCovered | origin-crawler/src/crawler.rs:560-574 | when all workers have left, every such link was handed out exactly once |
| CrawlCoverage.SeedsCovered | origin-crawler/src/frontier.rs:94-111 | and so was every seed that fits the length cap |
| CrawlCoverage.StepSeen | origin-crawler/src/frontier.rs:94-111 | whatever was seen fits the length cap and is queued or handed out, and entries are classed by seed host, at every step |
| CrawlCoverage.SeedHostsFirst | origin-crawler/src/frontier.rs:9-14 | in every state, at equal depth what is on a seed host leaves before what is not, and otherwise what was queued first |
| CrawlCoverage.RobotsHeeded | origin-crawler/src/crawler.rs:425-438 | every request follows a look at the robots rules for its item that did not forbid it, unless they are not to be respected |
| CrawlCoverage.PageWasFetched | origin-crawler/src/crawler.rs:440-470 | every page handled or recorded is what the worker's request for that item brought |
| CrawlLedger.CountersTell | origin-crawler/src/crawler.rs:413-540 | in every state each counter shows how often its outcome was met: quota, robots, not modified, failure, duplicate, failed save |
| CrawlLedger.FinalCounters | origin-crawler/src/crawler.rs:413-540 | when all workers have left the counters are exactly that |
| CrawlLedger.BooksKept | origin-crawler/src/crawler.rs:394-555 | in every state the pages, hosts, content hashes, given-up items and handed-out URLs are those of the steps made |
| CrawlTiming.FetchesFollowSlots | origin-crawler/src/crawler.rs:402-455 | in every timed crawl, however workers interleave, the second of two requests to a host goes out no sooner than the delay after the first one's slot began |
| CrawlTiming.EveryFetchReserved | origin-crawler/src/crawler.rs:402-455 | every request is made on a slot its worker reserved before |
| CrawlTiming.PoliteIff | origin-crawler/src/frontier.rs:17-20 | two requests to a host are the delay apart in every crawl exactly when the delay is zero or requests may lose no time after their slots begin |
| TrustGraph.AdjacencyVouches | origin-attest/src/trust.rs:236-251 | the adjacency has an edge exactly where a valid Tier-2 endorsement of the domain is |
| TrustGraph.WalkBack | origin-attest/src/trust.rs:388-396 | the walk back along parents ends at the start and gives a path of the layer's length |
| TrustGraph.Search | origin-attest/src/trust.rs:375-404 | a shortest path, or none exactly when there is none |
| TrustScore.Spread | origin-attest/src/trust.rs:269-285 | expanding an entry pays out what it was owed, directly or into new entries, and uses up a bounded tree |
| TrustScore.Propagate | origin-attest/src/trust.rs:253-288 | the queue loop ends, and the raw score is the sum over all counting walks of the product of damping and confidence |
| TrustScore.AllWalksCount | origin-attest/src/trust.rs:269-285 | the walks summed are exactly those from a seed with 1 to max-hops edges that repeat no node before the last step |
| TrustMeaning.RawPositiveIffPath | origin-attest/src/trust.rs:269-288 | with positive weights a raw score is positive exactly when a seed has a path within the hop limit |
| TrustMeaning.CycleInflates | origin-attest/src/trust.rs:253-285 | the raw score counts simple paths only exactly when no cycle through the agent is in reach; otherwise it is larger |
| TrustMeaning.MutualVouchersInflate | origin-attest/src/trust.rs:274-283 | two agents vouching for each other raise the score of one |
| TrustStore.AddVouches | origin-attest/src/trust.rs:171-181 | an endorsement adds its own vouch exactly if it is of Tier 2, in the domain, not revoked and not past its time, and no other |
| TrustStore.Store.AddEndorsement | origin-attest/src/trust.rs:171-181 | every endorsement is filed under giver and receiver alike |
| TrustStore.Store.Adjacency | origin-attest/src/trust.rs:236-251 | the loops collect exactly the endorsements that carry |
| TrustStore.Store.ShortestTrustPath | origin-attest/src/trust.rs:353-405 | a shortest chain of valid vouches, or none exactly when there is none |
| TrustStore.Store.TrustScore | origin-attest/src/trust.rs:229-294 | 1 for seeds, otherwise the balanced sum over walks; with nonnegative coefficients, the one score in [0,1] that weighs what the sum earns against what a full score takes |
| TrustStore.BalancedSign | origin-attest/src/trust.rs:313-337 | balancing stays in [0,1] and keeps zero and positive apart |
| TrustStore.BalancedWeighs | origin-attest/src/trust.rs:313-337 | a positive score below 1 times (1 + alpha max(1, d)) (d + 1) is the raw score times (d + 1 + beta), and it is 1 exactly when the raw score earns that much |
| TrustStore.DegreeLowers | origin-attest/src/trust.rs:313-337 | a larger degree never raises a score and lowers one below 1 exactly when beta is positive, or alpha is and the larger degree is at least 2 |
| TrustStore.DegreeCounts | origin-attest/src/trust.rs:171-181 | an endorsement raises the degree of giver and receiver by one each |
| TrustStore.PositiveScoreIffPath | origin-attest/src/trust.rs:229-294 | a final score lies in [0,1] and is positive exactly when some seed has a trust path within the hop limit |
| Hex.DecodeEncode | origin-canary/src/merkle.rs:71-79 | hex text reads back as the bytes it was written from |
| Hex.DecodesIff | origin-canary/src/merkle.rs:71-79 | text decodes exactly when it is pairs of hex digits of either case |
| Hex.CaseBlind | origin-canary/src/merkle.rs:71-79 | digits mean the same in either case |
| Merkle.Build | origin-canary/src/merkle.rs:31-79 | the loops build all levels up to the root, odd nodes paired with themselves, from any leaves that are hex |
| Merkle.GetProof | origin-canary/src/merkle.rs:85-106 | the siblings from leaf to root, nothing where the index lies outside |
| Merkle.SiblingsAreProof | origin-canary/src/merkle.rs:85-106 | for an index in range these are the partners of its ancestors |
| Merkle.Verify | origin-canary/src/merkle.rs:113-131 | accepts exactly when the climb over the decoded bytes, undecodable texts skipped, ends at the root text |
| Merkle.ResolveInRange | origin-canary/src/merkle.rs:113-131 | the node an index leads to is the one at that index exactly when it is in range |
| Merkle.Completeness | origin-canary/src/merkle.rs:81-131 | for every tree and every index, in range or not, the generated proof of the node it leads to ends at the root |
| Merkle.AcceptedRetraces | origin-canary/src/merkle.rs:113-131 | a full-length proof that ends at the root hashes the very bytes the tree hashed, or at a named step others with the same digest |
| Merkle.Binding | origin-canary/src/merkle.rs:108-131 | for every text, proof and index: an accepted proof collides with the tree at a named step, or it is about a node of the tree exactly when it is no longer than the depth and the text proved is 32 bytes wide, and then about the node length and index point at |
| Merkle.InteriorNodeAccepted | origin-canary/src/merkle.rs:113-131 | with k siblings less, a node k levels up passes as a leaf |
| Merkle.PhantomNeighbour | origin-canary/src/merkle.rs:113-131 | every index past the end passes for a node that is not there |
| Merkle.RegroupedAccepted | origin-canary/src/merkle.rs:122-127 | however the bytes of the first pair are divided between leaf and sibling the proof is accepted, and it is genuine only for the division into two digests |
| Merkle.AnyWidthAccepted | origin-canary/src/merkle.rs:122-127 | so for every width from 0 to 64 bytes some text is accepted, genuine exactly at 32 |
| Merkle.NonsenseAccepted | origin-canary/src/merkle.rs:122-127 | a text that is no hex is accepted beside a sibling that holds both digests |
| Merkle.LongerProof | origin-canary/src/merkle.rs:113-131 | barring a collision, a proof longer than the depth is accepted exactly when what the climb hashed last below the leaves has a leaf's hash and the rest is that leaf's proof |
| Merkle.PreimageAccepted | origin-canary/src/merkle.rs:113-131 | a leaf's preimage divided anywhere between a text and one sibling more is accepted and is no node of the tree |
| Evidence.Embed | origin-canary/src/embed.rs:269-300 | the manifest commits to its tokens: leaves, proofs and root |
| Evidence.LeavesApart | origin-canary/src/embed.rs:270-281 | tokens that share a secret have different leaves, or a collision, where what follows the secret differs with the index |
| Evidence.Assemble | origin-canary/src/evidence.rs:222-262 | fails exactly without a root or on an unknown secret; otherwise one entry per match, at the first token with the secret, with recomputed leaf and honest verdict |
| Evidence.ProofsOk | origin-canary/src/evidence.rs:96-113 | check 3 holds exactly when there are matches and every proof leads to the root |
| Evidence.MatchesHold | origin-canary/src/evidence.rs:236-262 | every match against an embedded manifest gets a proof that holds, also when tokens share a secret |
| Evidence.EvidenceBinds | origin-canary/src/evidence.rs:96-106 | evidence that passes check 3, with a proof of any length, collides with the tree at a named step, or is about a node of it exactly when its proof is no longer than the depth and its leaf 32 bytes wide |
| Evidence.PreimagePasses | origin-canary/src/evidence.rs:96-106 | the text a token's leaf hashes, cut anywhere in two, passes check 3 with one sibling too many and is no node |
| Evidence.EvidenceNames | origin-canary/src/evidence.rs:78-113 | check 3 passes whatever secret is written in; barring collisions the secret is the embedded one exactly when the leaf is recomputed from it |
| RelayDemux.ConnState.ReadPresence | origin-network/src/client.rs:57-71 | reads to the next presence frame, setting other frames aside |
| RelayDemux.ConnState.Response | origin-network/src/client.rs:75-107 | a frame set aside comes first; then reads, buffering events, until the response or an error |
| RelayDemux.ConnState.RelayReceive | origin-network/src/client.rs:409-449 | as for responses, but frames for others are set aside and undecodable events skipped |
| RelayDemux.OpKeeps | origin-network/src/client.rs:57-107 | every read keeps events in order, frames conserved and tags in order |
| RelayDemux.Demultiplexed | origin-network/src/client.rs:10-20 | in every interleaving of reads: events handed out and buffered are the decodable events read, in order; every other frame is matched, set aside or discarded exactly once; a tag none of whose frames was discarded is served in arrival order |
| RelayDemux.ReadersGetInOrder | origin-network/src/client.rs:57-136 | in every interleaving: the events given to callers, followed by those buffered, are the decodable events read, in order; for a tag no read met unexpectedly, the frames given to callers, followed by those set aside, are those read |
| RelayDemux.ResponseMeans | origin-network/src/client.rs:75-107 | a request gets the first frame set aside for it; otherwise the first frame after decodable events decides the answer |
| RelayDemux.RelayMeans | origin-network/src/client.rs:409-449 | a relay read gets the first frame set aside for it; otherwise the first data or error frame on the wire |
| RelayDemux.ErrorFate | origin-network/src/client.rs:57-107 | in any state, an error frame taken off the wire is set aside exactly when the presence stream takes it with no event buffered, and otherwise it is the one error the caller is told of |
| RelayDemux.ErrorsSurface | origin-network/src/client.rs:298-301 | over any run, the error frames read are those reported, one per error reply, and those the presence stream took, all still set aside at the end |
| RelayDemux.SwallowedError | origin-network/src/client.rs:57-71 | an error frame first on the wire when the presence stream reads is never reported, whatever is read after |
| RelayDemux.StashedErrorsStay | origin-network/src/client.rs:298-301 | from any state, an error frame set aside stays there through any later reads |
| RelayDemux.RecvNoneIff | origin-network/src/client.rs:121-130 | the presence stream gives nothing exactly when no event is buffered and no presence frame is left or the first does not decode, and what the wire then still holds |
| TokenBucket.AdmissionBound | origin-network/src/gate.rs:120-159 | from a source's first attempt at most the capacity plus one per elapsed refill period gets in |
| TokenBucket.WindowBound | origin-network/src/gate.rs:120-159 | in any later stretch, from any state, at most one more |
| TokenBucket.RefillBounds | origin-network/src/gate.rs:120-156 | over any run that does not fill the bucket, at least half of what the time is worth is paid in, and all of it exactly when every refill comes on the dot |
| TokenBucket.SourceAlone | origin-network/src/gate.rs:140-159 | a source's bucket depends on its own attempts only |
| TokenBucket.PruningSafe | origin-network/src/gate.rs:161-166 | with an idle time of at least capacity times refill, pruning at any points changes no decision |
| TokenBucket.PruningInvisibleIff | origin-network/src/gate.rs:161-166 | and with any shorter idle time it changes some decision |
| HandshakeTracker.Tracker.Check | origin-network/src/replay.rs:64-88 | the eviction loop and the answers |
| HandshakeTracker.EvictKeepsLast | origin-network/src/replay.rs:75-86 | eviction keeps the newest entries up to the cap and remembers exactly those, also with repeats queued |
| HandshakeTracker.RemembersLast | origin-network/src/replay.rs:64-88 | from any loaded state, after any run set and queue agree and hold the last entries taken in |
| HandshakeTracker.RejectsRecent | origin-network/src/replay.rs:20-26 | from empty, a frame is refused exactly when its nonce is among the last accepted up to the cap, and never more are kept |
| HandshakeTracker.RefusedIff | origin-network/src/replay.rs:64-88 | from any memory and after any run, of all that was queued and taken in exactly the last up to the cap are refused, and everything until something is taken in |
| HandshakeTracker.Tracker.Write | origin-network/src/replay.rs:111-117 | the file, in whatever order the set is walked, loads back as the same set |
| HandshakeTracker.Read | origin-network/src/replay.rs:135-166 | the file is read back chunk by chunk, each defect giving its own error |
| HandshakeTracker.LoadAcceptsSaved | origin-network/src/replay.rs:135-166 | exactly the files that saving could write are accepted, and set and queue then agree |
| HandshakeTracker.RestartKeepsRefusals | origin-network/src/replay.rs:110-166 | the first frame after a restart gets the answer it would have got without one |
| HandshakeTracker.RefusedAfterRestart | origin-network/src/replay.rs:20-26 | after a restart and any run, the saved nonce at place i, unless taken in anew, is refused exactly while nothing was taken in or saved and taken in exceed the cap by at most i |
| HandshakeTracker.NewestForgottenFirst | origin-network/src/replay.rs:116-118 | for any memory there is an order of the file and there are frames after which the newest nonce is taken for new and every other saved one is still refused |
| HandshakeTracker.RefusedUnchanged | origin-network/src/replay.rs:69-73 | a frame leaves the memory as it was exactly when it is not taken in |
| Corpus.FreshPositions | origin-crawler/src/corpus.rs:171-173 | filtering keeps exactly the fresh sources, in their order |
| Corpus.PruneAchieves | origin-crawler/src/corpus.rs:124-132 | of the corpus a pass is meant to leave, which a real one does when the documents it rewrites name their own files: nothing is orphaned or stale, unparseable pairs are untouched, and a parseable pair survives exactly when it has a fresh source |
| Corpus.StrippedCountIff | origin-crawler/src/corpus.rs:114-115 | the reported count of stripped sources is that of the surviving sidecars exactly when no entry removed whole had a source |
| Corpus.EmptiedCounted | origin-crawler/src/corpus.rs:171-177 | one stale document is reported as stripped though no sidecar survives |
| Corpus.PruneIdempotent | origin-crawler/src/corpus.rs:133-216 | pruning the corpus so left changes nothing |
| CorpusPass.MakePlan | origin-crawler/src/corpus.rs:145-184 | the two loops plan exactly the dead files and the stripped documents, with their counts |
| CorpusPass.PlanReports | origin-crawler/src/corpus.rs:186-198 | the counts of the plan are those of the corpus before and after |
| CorpusPass.Directory.Prune | origin-crawler/src/corpus.rs:133-216 | the report is right for dry and real passes alike; a dry run changes nothing; a real pass leaves the right bodies and each stripped document where it says it belongs, which is right exactly when those rewritten name their own files |
| CorpusPass.RewritesFinishIff | origin-crawler/src/corpus.rs:208-212 | rewriting completes the pass exactly under that condition |
| CorpusPass.UnparsedKeptIff | origin-crawler/src/corpus.rs:131-132 | after a real pass an unparseable sidecar is as it was exactly when it has a body and no document that loses sources names it |
| CorpusPass.NeighbourOverwritten | origin-crawler/src/corpus.rs:208-212 | a stripped document that names its neighbour is written over it, though that has a body |
| CorpusPass.NoOrphansLeftIff | origin-crawler/src/corpus.rs:124-132 | a real pass leaves no orphan, and reports the right number of sidecars, exactly when documents are written only to entries that survive |
| CorpusPass.NoStaleLeftIff | origin-crawler/src/corpus.rs:124-132 | a real pass leaves nothing stale exactly when every file that loses sources is written to |
| CorpusPass.Analyze | origin-crawler/src/corpus.rs:220-306 | inventory, orphans, parse errors, source counts, age range and sources per host are those of the directory |
| CorpusPass.ReportMatchesAnalysis | origin-crawler/src/corpus.rs:133-306 | what a pass reported as remaining is what the analysis of the corpus it is meant to leave finds, with no orphans and nothing stale |
| CorpusPass.SecondPassIdle | origin-crawler/src/corpus.rs:133-216 | a second pass over that corpus reports that it did nothing |

## Left out

- TrustStore.Store.TrustScore: rounding is not modelled, because scores are reals.
- Session.AlwaysLockstep: usage counters are unbounded, so the overflow of byte counters near 2^64 is not modelled; message limits are at most 2^64 - 1.
- TokenBucket.Gate.Admit: time is in whole ticks, and the saturation of a refill beyond 32 bits is not modelled.
- Crawl workers are functions on the shared state, one per step, not methods; file contents, sidecar writes and the robots cache are answers from outside.
- Sitemap harvesting and the loading of resumed hashes enter as seeds and as a set.
- Send operations of the relay client, connection setup and payload decoding of responses.
- `can_issue_tier2`, claims, degree metrics and the list of trusted agents: counts over one node.
- Formatting of the corpus analysis and the order of its host table; file system errors during a pass; files whose names give one stem twice.
- Signatures, fingerprints and the ledger in evidence packages; choosing files and embedding tokens into them.
- Cookie and proof-of-work gates, wire codecs, envelopes, addresses, negotiation: short wrappers or fixed layouts.
- Command lines, vaults, wallets, identity, delegation and the other tools of the suite.
