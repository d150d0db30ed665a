# On-chain poker, modelled and proved

The repository deals poker on a chain: a committee of validators generates a key, shuffles an encrypted deck with
verifiable proofs, opens cards by threshold decryption, and a deterministic no-limit engine bets the hand and pays it
out from a ledger.  This project models that path from end to end and proves what it promises.  Nothing is executed.

| part | modules | main results |
|---|---|---|
| Group and field | `Zq`, `ElGamal`, `Primitives` | a group of arbitrary prime order `Q`, elements represented by their logarithm to the base point |
| Verifiable shuffle | `Network`, `FisherYates`, `Transcript`, `Sigma`, `ShuffleFormat`, `ShuffleVerifier`, `ShuffleProver`, `ShuffleSoundness` | the network sorts; challenges are bound to everything they must be; verifier and prover agree byte for byte; accepted and extractable proofs permute plaintexts |
| Shamir and key generation | `Lagrange`, `Coefficients`, `Feldman`, `Dkg`, `DkgSafety`, `DkgConverse`, `DkgMachine` | reconstruction from any set of shares; who qualifies, who is jailed and whether the run finalizes, read off its messages; honest dealers qualify in every interleaving |
| Threshold reveal | `Threshold`, `EpochReveal` | from key generation to the table: any threshold of proven shares opens the right card, different positions different cards |
| Dealer protocol | `DealerHand`, `DealerProgress`, `DealerTimeout`, `DealerKeeps`, `DealerWindows`, `DealerMachine` | a finalized deck was shuffled by every qualified member once; every run of timeouts is bounded, and refunds exactly below the threshold |
| Betting | `Betting`, `BettingSafety`, `BettingStart`, `BettingChips`, `BettingTermination`, `BettingStreets`, `BettingMoves`, `BettingLegal`, `BettingExamples`, `BettingEngine` | invariant, termination with the exact exception, every street played, conservation, offered against accepted actions |
| Showdown | `Pots`, `HandRank`, `Evaluate`, `Categories`, `Winners`, `Settlement` | closed form of side pots; best five of seven; exact payouts |
| Tables on the chain | `ChainTable`, `ChainStart`, `ChainTurn`, `ChainTwin`, `ChainDesk`, `ChainPlay` | every action, timeout, dealer step and start of a hand keeps the chips of its table, up to pots nobody may win; the engines of chain and TypeScript, and the dealer, agree |
| Ledger | `LedgerSums`, `LedgerState`, `LedgerOwners`, `LedgerChain` | what every transaction does, every chip on the chain accounted for over every run, and nobody's chips taken but by the owner or by rule |

## How it is built

State machines appear twice.  The steps are ghost functions on datatypes (`Betting`, `Dkg`, `DealerHand`, `ChainTurn`,
`LedgerState`), and the theorems are about those.  Beside them stand the loops and in-place updates of the source as methods and classes
(`BettingEngine`, `DkgMachine`, `DealerMachine`, `ShuffleVerifier`, `ShuffleProver`, `ChainPlay`, `LedgerChain`), each proved to
compute its step.  A step that fails returns `Err` and changes nothing, as the engine clones its state and the chain
restores a snapshot.

The group order is a prime about which nothing else is known, so each result holds for every prime-order group, the
ristretto255 group of RFC 9496 among them.  Where a result needs a larger group (52 cards, the size of the committee)
it says so.  Point, scalar and text encodings, the hash to a scalar and the random stream are parameters.

## Where the code does less than one would expect

Each of these is proved, with the exact condition under which the expectation does hold.

- A hand in which the big blind pays less than the small blind may never end: the small blind's check is accepted and
  changes nothing (`BettingTermination.ActionDecreases`, `BettingTermination.EndsIffBlindsFit`).
- The action list offers the seat on its option a bet that the engine rejects (`BettingLegal.OfferedAccepted`,
  `BettingExamples.StaleOption`).
- Dealing the next hand drops whatever the previous hand still holds in escrow (`BettingChips.NextHandTotal`).
- A dealer that commits at the deadline height itself can be slashed although it signed only correct shares; one block
  earlier it cannot (`DkgSafety.SafeIffBeforeDeadline`).
- A side pot without an eligible seat is paid to nobody (`Settlement.LossIffOutcommitted`, `ChainTable.UnopenedIs`,
  `BettingExamples.LostPot`).
- The committee is shared by all tables.  A member slashed at one table after it has shuffled at another leaves that
  other hand without a timeout or a finalization that succeeds (`DealerTimeout.ShuffleStuckIff`,
  `DealerWindows.SlashedElsewhere`).
- The two betting engines charge the blinds to different seats when an occupied seat without chips comes first
  (`ChainTwin.SameBlindsIff`); everything after the deal is the same (`ChainTwin.EnginesAgree`).

## Model

| member | source | states |
|---|---|---|
| `Network.NetworkSorts` | packages/ocp-shuffle/src/shuffle_v1.ts:100-112 | odd-even transposition with at least as many rounds as keys sorts every sequence of keys |
| `Network.RunPermutes` | packages/ocp-shuffle/src/shuffle_v1.ts:169-249 | any number of rounds takes a permutation of keys to a permutation of keys |
| `Network.FullySorted` | packages/ocp-shuffle/src/shuffle_v1.ts:119-123 | on a permutation, after the default number of rounds or more, the key at position i is i |
| `Network.Progress` | packages/ocp-shuffle/src/shuffle_v1.ts:169-249 | the advance of every large key through the rounds: the bound that makes n rounds enough |
| `ElGamal.DecryptEncrypt` | apps/chain/internal/ocpcrypto/elgamal.go:13-26 | decryption inverts encryption under the matching key, which is also how a player recovers an encrypted share |
| `ElGamal.DecryptReencrypt` | packages/ocp-shuffle/src/elgamal.ts:8-13 | re-encryption keeps the plaintext |
| `ElGamal.ReencryptTwice` | packages/ocp-shuffle/src/elgamal.ts:8-13 | two re-encryptions are one, with the sum of their scalars |
| `Transcript.FramedInjective` | packages/ocp-crypto/src/utils/transcript.ts:10-13 | a length-prefixed string can be told from whatever follows it |
| `Transcript.HashedInjective` | packages/ocp-crypto/src/utils/transcript.ts:15-45 | the bytes hashed for a challenge determine the domain and every message appended, label and contents |
| `Transcript.PointsBound` | apps/chain/internal/ocpcrypto/transcript.go:23-49 | the bytes hashed over labelled points determine the domain, the context and every point |
| `Sigma.EqDlogBound` | packages/ocp-shuffle/src/eqdlog.ts:50-58 | the challenge of an equality proof is bound to domain, context, statement and both commitments |
| `Sigma.SwitchBound` | packages/ocp-shuffle/src/switch_or.ts:48-72 | the challenge of a switch is bound to the key, both inputs, both outputs, all eight commitments and the context |
| `Sigma.FalseSwitchNeedsOneHash` | packages/ocp-shuffle/src/switch_or.ts:154-217 | for outputs that do not re-encrypt the inputs the commitments can be answered for one challenge only, so an accepted proof needs the hash of statement and commitments to be that scalar |
| `Threshold.ShareBound` | apps/chain/internal/ocpcrypto/chaum_pedersen.go:24-31 | the challenge of a share proof is bound to public share, card, share and both commitments |
| `Threshold.DomainsApart` | apps/chain/internal/ocpcrypto/chaum_pedersen.go:14 | no share proof hashes the bytes of a proof in another domain |
| `Sigma.EqDlogComplete` | packages/ocp-shuffle/src/eqdlog.ts:33-61 | an honest equality-of-logarithms proof verifies for every nonce, challenge function and context |
| `Sigma.EqDlogSpecialSound` | packages/ocp-shuffle/src/eqdlog.ts:63-96 | two accepting answers with equal commitments and different challenges share one witness |
| `Sigma.SimulatedChecks` | packages/ocp-shuffle/src/eqdlog.ts:99-111 | simulated commitments satisfy the verification equation for the chosen challenge and response |
| `Sigma.CommonLogIsReencryption` | packages/ocp-shuffle/src/switch_or.ts:38-45 | a common logarithm of the two differences is exactly a re-encryption of the input |
| `Sigma.SwitchComplete` | packages/ocp-shuffle/src/switch_or.ts:74-152 | an honest switch proof verifies, swapped or not |
| `Sigma.SwitchSpecialSound` | packages/ocp-shuffle/src/switch_or.ts:154-217 | two accepting transcripts with equal commitments and different challenges give both witnesses of one whole branch |
| `ShuffleFormat.EveryPositionOnce` | packages/ocp-shuffle/src/shuffle_v1.ts:303-364 | the parity cases of the verifier cover every position of the deck exactly once, as a pair or as a single |
| `ShuffleFormat.AcceptedIsPrefixFree` | packages/ocp-shuffle/src/shuffle_v1.ts:266-364 | no proper prefix and no proper extension of an accepted proof is accepted |
| `ShuffleFormat.ReadCiphertext` | packages/ocp-shuffle/src/encoding.ts:30-41 | a ciphertext written into a byte string is read back at its place |
| `ShuffleFormat.ReadEqDlog` | packages/ocp-shuffle/src/eqdlog.ts:114-132 | an equality proof written into a byte string is read back at its place |
| `ShuffleFormat.ReadSwitch` | packages/ocp-shuffle/src/switch_or.ts:220-246 | a switch proof written into a byte string is read back at its place |
| `ShuffleVerifier.Reader.Take` | packages/ocp-shuffle/src/encoding.ts:43-65 | the reader returns the next bytes and advances, or refuses and stays, and never passes the end |
| `ShuffleVerifier.Reader.TakeU16` | packages/ocp-shuffle/src/encoding.ts:9-12 | little-endian u16 at the current offset |
| `ShuffleVerifier.Reader.TakePoint` | packages/ocp-shuffle/src/encoding.ts:18-20 | a canonical point at the current offset, or a refusal |
| `ShuffleVerifier.Reader.TakeScalar` | packages/ocp-shuffle/src/encoding.ts:26-28 | a canonical scalar at the current offset, or a refusal |
| `ShuffleVerifier.Reader.TakeEqDlog` | packages/ocp-shuffle/src/eqdlog.ts:126-132 | an equality proof read at the current offset |
| `ShuffleVerifier.Reader.TakeSwitch` | packages/ocp-shuffle/src/switch_or.ts:230-246 | a switch proof read at the current offset |
| `ShuffleVerifier.ReadHeader` | packages/ocp-shuffle/src/shuffle_v1.ts:266-302 | the header with its optional context is accepted exactly when it parses and the context matches |
| `ShuffleVerifier.CheckRound` | packages/ocp-shuffle/src/shuffle_v1.ts:303-364 | one round of the verifier succeeds exactly when some deck makes the bytes an acceptable round, and returns that deck |
| `ShuffleVerifier.ShuffleVerify` | apps/cosmos/internal/ocpshuffle/shuffle_v1.go:295-456 | the verifier accepts exactly the byte strings of the format whose every proof verifies, and returns the last deck |
| `ShuffleSoundness.RoundExtract` | packages/ocp-shuffle/src/shuffle_v1.ts:303-364 | in a round whose proofs all have second transcripts every pair is switched and every single re-encrypted |
| `ShuffleSoundness.RoundsKeepPlaintexts` | packages/ocp-shuffle/src/shuffle_v1.ts:303-364 | plaintexts are permuted across all rounds |
| `ShuffleSoundness.AcceptedShufflePermutes` | packages/ocp-shuffle/src/shuffle_v1.ts:260-368 | the output deck of an accepted, extractable proof decrypts to a permutation of what the input deck decrypts to |
| `ShuffleSoundness.AcceptedRefreshes` | packages/ocp-shuffle/src/shuffle_v1.ts:303-364 | in every round of an accepted proof no first component stays in its place or crosses its switch |
| `ShuffleSoundness.ContextFixed` | packages/ocp-shuffle/src/shuffle_v1.ts:266-298 | a proof is accepted under one context only, and a proof without one under none |
| `ShuffleProver.SampleNonzeroScalar` | packages/ocp-shuffle/src/shuffle_v1.ts:65-70 | the first non-zero scalar of the stream from the current counter |
| `ShuffleProver.ReencryptAvoiding` | packages/ocp-shuffle/src/shuffle_v1.ts:72-85 | a re-encryption whose first component differs from both given points |
| `ShuffleProver.RandomPermutation` | packages/ocp-shuffle/src/shuffle_v1.ts:87-98 | the in-place loop makes exactly the permutation that the draws of the stream make of the identity |
| `FisherYates.EveryPermutationDrawn` | packages/ocp-shuffle/src/shuffle_v1.ts:87-98 | every permutation is drawn by some list of draws |
| `FisherYates.DrawnOnce` | packages/ocp-shuffle/src/shuffle_v1.ts:87-98 | and by no other, so uniform draws give a uniform shuffle |
| `ShuffleProver.RoundPairs` | packages/ocp-shuffle/src/shuffle_v1.ts:100-112 | the pairs and singles of a round are those the verifier enumerates |
| `ShuffleProver.MakeSwitch` | packages/ocp-shuffle/src/shuffle_v1.ts:180-218 | the switch verifies and its outputs re-encrypt the inputs, crossed exactly when it swaps |
| `ShuffleProver.ProveRound` | packages/ocp-shuffle/src/shuffle_v1.ts:169-249 | the bytes of a round are an acceptable round from the old deck to the new one, and the keys move as the network moves them |
| `ShuffleProver.HeaderReads` | packages/ocp-shuffle/src/shuffle_v1.ts:153-167 | the verifier reads the prover's header back, with or without context, whatever follows |
| `ShuffleProver.Delivered` | packages/ocp-shuffle/src/shuffle_v1.ts:119-123 | with at least as many rounds as cards the network realises the drawn permutation exactly |
| `ShuffleProver.ShuffleProve` | packages/ocp-shuffle/src/shuffle_v1.ts:119-254 | the prover fails exactly on refused parameters; otherwise the verifier accepts its bytes and returns its deck, a permutation of re-encryptions, the one the stream draws when there are enough rounds |
| `Lagrange.Interpolation` | apps/chain/internal/ocpcrypto/lagrange.go:10-46 | weighted by Lagrange coefficients at zero, the values of any polynomial of lower degree sum to its constant |
| `Lagrange.Unity` | apps/chain/internal/ocpcrypto/lagrange.go:10-46 | the Lagrange coefficients at zero sum to one |
| `Lagrange.QuotientsReconstruct` | apps/chain/internal/ocpcrypto/lagrange.go:10-46 | coefficients that are quotients of the node products reconstruct every polynomial with at most as many coefficients as nodes |
| `Coefficients.ModQ` | apps/web/src/components/holeCardCrypto.ts:14-17 | the canonical residue of any integer, negative ones included |
| `Coefficients.InvMod` | apps/web/src/components/holeCardCrypto.ts:19-30 | the extended Euclid loop returns a true inverse, and fails exactly on multiples of the order |
| `Coefficients.LagrangeAtZero` | apps/chain/internal/ocpcrypto/lagrange.go:10-46 | succeeds exactly on non-empty lists of non-zero, pairwise incongruent indices, and then recovers f(0) from any polynomial of lower degree |
| `Coefficients.LagrangeCoefficients` | apps/web/src/components/holeCardCrypto.ts:38-55 | without a duplicate test of its own it still fails exactly on a zero or two congruent coordinates, and otherwise recovers f(0) |
| `Feldman.EvalCommitment` | apps/chain/internal/app/dealer.go:583-596 | the loop over commitments evaluates the committed polynomial in the exponent |
| `Feldman.VerifyShare` | apps/chain/internal/app/dealer.go:598-612 | a share is accepted exactly when it is the value of the committed polynomial |
| `Feldman.JointKey` | apps/chain/internal/app/dealer.go:786-798 | the epoch key hides the constant of the sum of the qualified polynomials |
| `Feldman.JointShare` | apps/chain/internal/app/dealer.go:800-818 | a public share hides the value of that sum at the member's index |
| `Feldman.SharesAdd` | apps/chain/internal/app/dealer.go:800-818 | shares that match every dealer's commitments add up to a share of the joint polynomial |
| `Dkg.StepKeepsWf` | apps/chain/internal/app/dealer.go:370-955 | every message keeps the session well formed and takes back no commitment, complaint, reveal or slash |
| `DkgSafety.HonestDealerQualifies` | apps/chain/internal/app/dealer.go:370-955 | in every ordered run a dealer that commits strictly before the deadline height, signs only correct shares and answers the complaints filed in the complaint window is never slashed or jailed, and is in QUAL whenever the run finalizes |
| `DkgConverse.QualIsEarned` | apps/chain/internal/app/dealer.go:720-872 | at the message that finalizes any run a member is in QUAL exactly when the run holds a commitment of it in time, no message that slashed it, and a verifying reveal in time for every complaint against it |
| `DkgConverse.FinalizesIffEnoughEarned` | apps/chain/internal/app/dealer.go:720-785 | past the reveal deadline a finalize or timeout message ends any open session: it finalizes exactly when at least a threshold of members have earned their place, and otherwise keeps the old epoch |
| `DkgConverse.EarlyEndIff` | apps/chain/internal/app/dealer.go:874-955 | before that a finalize message does nothing, and a timeout ends the session exactly when the commit deadline has passed and fewer than a threshold can still earn their place |
| `DkgConverse.JailedIffUnearned` | apps/chain/internal/app/dealer.go:853-870 | the finalizing message leaves exactly those members jailed that have not earned a place |
| `DkgConverse.RecordsAreMessages` | apps/chain/internal/app/dealer.go:370-674 | in every run a commitment, complaint, reveal or slash is on record exactly when a message of the run, from the right member and in its window, made it |
| `DkgSafety.AllAnswered` | apps/chain/internal/app/dealer.go:740-765 | past the reveal deadline no complaint against an honest dealer is open |
| `DkgSafety.SafeIffBeforeDeadline` | apps/chain/internal/app/dealer.go:472-534 | a commit height the chain accepts is safe for every otherwise honest dealer exactly when it lies strictly before the deadline |
| `DkgSafety.LateRun` | apps/chain/internal/app/dealer.go:520-534 | for every session, a run in which a dealer that does everything else right, but commits at the deadline height, is jailed |
| `DkgMachine.Machine.constructor` | apps/chain/internal/app/dealer.go:173-239 | members numbered from one, deadlines in order, nothing recorded |
| `DkgMachine.Machine.FindMember` | apps/chain/internal/app/dealer.go:274-284 | index of the first member with the identity |
| `DkgMachine.Machine.Commit` | apps/chain/internal/app/dealer.go:370-413 | accepts and records exactly when the commit step does |
| `DkgMachine.Machine.ComplainMissing` | apps/chain/internal/app/dealer.go:415-462 | accepts and records exactly when the complaint step does |
| `DkgMachine.Machine.ComplainInvalid` | apps/chain/internal/app/dealer.go:464-581 | upheld, with the dealer slashed, exactly when nothing is committed or the signed share does not match |
| `DkgMachine.Machine.Reveal` | apps/chain/internal/app/dealer.go:614-674 | recorded exactly when it answers an open complaint in time with a matching share |
| `DkgMachine.Machine.SlashSilent` | apps/chain/internal/app/dealer.go:733-738 | slashes exactly the members that have not committed |
| `DkgMachine.Machine.SlashAccused` | apps/chain/internal/app/dealer.go:740-765 | slashes exactly the dealers with an unanswered complaint |
| `DkgMachine.Machine.QualDealers` | apps/chain/internal/app/dealer.go:767-773 | the members that are not slashed, in order |
| `DkgMachine.Machine.EpochKeys` | apps/chain/internal/app/dealer.go:786-818 | the keys of the epoch are those of the joint polynomial of the qualified dealers |
| `DkgMachine.Machine.Finalize` | apps/chain/internal/app/dealer.go:720-872 | the loops compute the finalization step, whose verdict `DkgConverse.FinalizesIffEnoughEarned` reads off the messages |
| `DkgMachine.Machine.Timeout` | apps/chain/internal/app/dealer.go:874-955 | the loops compute the timeout step |
| `Threshold.HandPublic` | apps/chain/internal/app/dealer.go:986-995 | scaling a public share of the epoch by the hand scalar gives the public share of the hand |
| `Threshold.ShareComplete` | apps/chain/internal/ocpcrypto/chaum_pedersen.go:16-40 | an honest share proof verifies for every non-zero nonce |
| `Threshold.ShareSpecialSound` | apps/chain/internal/ocpcrypto/chaum_pedersen.go:42-68 | two accepting answers pin the share to the logarithm of the public share times the first component |
| `Threshold.CombineShares` | apps/chain/internal/app/dealer.go:1718-1721 | the loop computes the weighted sum of the shares |
| `Threshold.CombinedRight` | apps/chain/internal/app/dealer.go:1710-1722 | weights that reconstruct take valid shares to the hand secret times the first component |
| `Threshold.WeightsUnique` | apps/chain/internal/ocpcrypto/lagrange.go:10-46 | the quotients of the node products are the only Lagrange coefficients |
| `Threshold.RevealedRight` | apps/chain/internal/app/dealer.go:1684-1738 | whichever valid shares there are and whichever threshold of them comes first, the card is the one the ciphertext decrypts to |
| `Threshold.CardOf` | apps/chain/internal/app/dealer.go:90-100 | the card behind a point, or an error exactly when there is none in the deck |
| `Threshold.CardPointsDiffer` | apps/chain/internal/app/dealer.go:84-88 | different cards have different points |
| `Threshold.SortByIndex` | apps/chain/internal/app/dealer.go:1701-1708 | a stable order by index that keeps the shares and their distinctness |
| `Threshold.RevealCard` | apps/chain/internal/app/dealer.go:1684-1738 | sort, choose, weigh, combine and look up: the card the ciphertext decrypts to, for every polynomial the shares belong to; an error below the threshold |
| `Threshold.RecoverCard` | apps/web/src/components/holeCardCrypto.ts:123-141 | with at least as many valid shares as coefficients a player sees the card the ciphertext decrypts to |
| `Threshold.InitDeck` | apps/chain/internal/app/dealer.go:997-1013 | the fresh deck decrypts to the cards in order |
| `Threshold.ChainKeepsCards` | apps/chain/internal/app/dealer.go:1095-1121 | any chain of accepted, extractable shuffles keeps the multiset of plaintexts |
| `Threshold.PermutedCards` | apps/chain/internal/app/dealer.go:84-100 | a permutation of the fresh cards holds a card at every position and no card twice |
| `Threshold.RevealedCardsDiffer` | apps/chain/internal/app/dealer.go:1734-1738 | after any chain of shuffles two positions opened with any valid shares give two different cards |
| `EpochReveal.HandKeys` | apps/chain/internal/app/dealer.go:986-995 | the hand keys derived from a finalized epoch are keys of the joint polynomial scaled by the hand scalar |
| `EpochReveal.ProvenShareValid` | apps/chain/internal/app/dealer.go:1411-1439 | a share a member can prove for two challenges is a valid share of the joint polynomial |
| `EpochReveal.MembersReveal` | apps/chain/internal/app/dealer.go:1684-1722 | shares of any distinct members meet what the reveal needs, so any threshold of them opens the card |
| `EpochReveal.SessionSeals` | apps/chain/internal/app/dealer.go:957-1121 | a hand of a finalized epoch, after any chain of accepted and extractable shuffles and with proven shares only, is sealed by the secret of the key generation |
| `EpochReveal.SessionToCards` | apps/chain/internal/app/dealer.go:720-1738 | from key generation to the table: every position a threshold has shared opens exactly one of the 52 cards, the one the deck holds there, and no two positions the same card |
| `DealerProgress.SlashOne` | apps/chain/internal/app/dealer.go:1266-1278 | slashing one qualified member removes it and keeps the others in order |
| `DealerProgress.FinalizedByAll` | apps/chain/internal/app/dealer.go:1163-1172 | through any shuffles, finalizations and shuffle timeouts, a deck is finalized only when exactly the qualified members have shuffled it, each once, in their order |
| `DealerProgress.ExpiredShuffle` | apps/chain/internal/app/dealer.go:1877-1955 | a shuffle timeout keeps those who shuffled the first of the qualified members |
| `DealerProgress.OrderSpec` | apps/chain/internal/app/dealer.go:1209-1230 | the deal order visits every seat in the hand once and no other |
| `DealerProgress.OrderClockwise` | apps/chain/internal/app/dealer.go:1209-1230 | and goes clockwise from the first seat |
| `DealerProgress.HoleCardsApart` | apps/chain/internal/app/dealer.go:1174-1192 | with enough cards every hole card has its own position, below the cursor of the board |
| `DealerTimeout.ShuffleExpires` | apps/chain/internal/app/dealer.go:1877-1955 | past its deadline the shuffle timeout slashes exactly the member whose turn it is; it refunds exactly when that leaves too few, finalizes exactly when all that are left have shuffled, and otherwise waits for the next with a new deadline and nothing else changed |
| `DealerTimeout.SharesSuffice` | apps/chain/internal/app/dealer.go:1759-1805 | after the missing are slashed a committee at the threshold has handed in enough shares of every hole card |
| `DealerTimeout.HoleExpires` | apps/chain/internal/app/dealer.go:1957-2032 | past its deadline the hole-share timeout slashes exactly the members with a missing share, refunds exactly when too few are left, and otherwise opens betting or waits for the flop |
| `DealerTimeout.NobodyMissing` | apps/chain/internal/app/dealer.go:1280-1302 | after the missing are slashed every qualified member has shared the position |
| `DealerTimeout.RevealExpires` | apps/chain/internal/app/dealer.go:2034-2085 | past its deadline the reveal timeout slashes exactly the members that have not shared the card due, refunds exactly when too few are left, and otherwise makes public the card the deck holds there |
| `DealerTimeout.CardOpens` | apps/chain/internal/app/dealer.go:1684-1738 | once a threshold of members have shared a position the recorded shares open the card the ciphertext there decrypts to |
| `DealerTimeout.TimeoutProgresses` | apps/chain/internal/app/dealer.go:1841-2086 | a timeout past the deadline of any phase succeeds and refunds everybody, reaches a later stage, leaves fewer members to shuffle, or fewer hole cards to show |
| `DealerTimeout.RefundedIff` | apps/chain/internal/app/dealer.go:1841-2086 | in every phase exactly the members that did what the phase waits for stay qualified, and the hand is refunded exactly when they are fewer than the threshold |
| `DealerTimeout.ShuffleStuckIff` | apps/chain/internal/app/dealer.go:1886-1911 | a shuffle timeout past its deadline fails exactly when fewer members are left than have shuffled, or too few of which all have shuffled |
| `DealerWindows.SlashedElsewhere` | apps/chain/internal/app/dealer.go:1897-1908 | a committee whose members have all shuffled: one slashed at another table, and neither timeout nor finalization of this hand can succeed |
| `DealerWindows.ShuffleAcceptedIff` | apps/chain/internal/app/dealer.go:1041-1139 | a shuffle is accepted exactly in time, with a verified deck, from the one qualified member whose turn it is |
| `DealerWindows.DeckFinalizedIff` | apps/chain/internal/app/dealer.go:1141-1172 | a deck is finalized exactly when as many shuffles are accepted as members qualify, and those are enough |
| `DealerWindows.EncShareAcceptedIff` | apps/chain/internal/app/dealer.go:1464-1589 | an encrypted share is accepted exactly in time, proven, from a qualified member that has not shared the position, under the key of its seat |
| `DealerWindows.PubShareAcceptedIff` | apps/chain/internal/app/dealer.go:1361-1462 | a public share is accepted exactly for the position due, in time, proven, from a qualified member that has not shared it |
| `DealerWindows.RevealAcceptedIff` | apps/chain/internal/app/dealer.go:1635-1757 | the card due is opened exactly when a threshold have shared it and the deadline has not passed or every qualified member has |
| `DealerWindows.ClockRestarts` | apps/chain/internal/app/timeouts.go:32-59 | every step that moves the hand on gives the next one waited for a whole timeout |
| `DealerWindows.ExpiryRestarts` | apps/chain/internal/app/dealer.go:1945-2032 | and so does a timeout |
| `DealerTimeout.BoardCard` | apps/chain/internal/app/poker.go:762-829 | a public board card is always accepted and moves the hand on |
| `DealerKeeps.InitialLive` | apps/chain/internal/app/dealer.go:957-1039 | the desk a hand starts with is live, and its patience is bounded by the size of the committee |
| `DealerKeeps.KeepsShuffle` | apps/chain/internal/app/dealer.go:1041-1139 | an accepted shuffle keeps the hand live: consistent, with the deadline of its phase set |
| `DealerKeeps.KeepsFinalizeDeck` | apps/chain/internal/app/dealer.go:1141-1207 | deck finalization keeps it |
| `DealerKeeps.KeepsEncShare` | apps/chain/internal/app/dealer.go:1464-1633 | an encrypted share keeps it, whether or not it opens betting |
| `DealerKeeps.KeepsPubShare` | apps/chain/internal/app/dealer.go:1361-1462 | a public share keeps it |
| `DealerKeeps.KeepsReveal` | apps/chain/internal/app/dealer.go:1635-1757 | a finalized reveal keeps it |
| `DealerKeeps.KeepsCloseStreet` | apps/chain/internal/app/poker.go:565-584 | the end of a betting round with a contender left keeps it, with the reveal deadline set |
| `DealerKeeps.KeepsExpiry` | apps/chain/internal/app/dealer.go:1841-2086 | an accepted timeout keeps it or leaves a refunded hand |
| `DealerKeeps.SealsPubShare` | apps/chain/internal/app/dealer.go:1361-1462 | a valid public share keeps the deck sealed by the same secret |
| `DealerKeeps.SealsShuffle` | apps/chain/internal/app/dealer.go:1041-1139 | a shuffle that permutes the plaintexts keeps it |
| `DealerKeeps.ExpiryMoves` | apps/chain/internal/app/dealer.go:1841-2086 | a timeout past the deadline succeeds, loses patience, and leaves a hand that rests or moves on |
| `DealerKeeps.TimeoutsEnd` | apps/chain/internal/app/dealer.go:1841-2086 | however late they come, no run of timeouts is longer than the patience of the hand, and a live hand never stops for another reason than rest |
| `DealerKeeps.ExpectedBelow` | apps/chain/internal/app/poker.go:688-744 | the position to open next is the next board card, or a hole card below the cursor |
| `DealerMachine.DealOrder` | apps/chain/internal/app/dealer.go:1209-1230 | the loop round the table computes the deal order |
| `DealerMachine.DealPositions` | apps/chain/internal/app/dealer.go:1174-1192 | the two dealing loops assign exactly the closed-form positions and cursor, also when the deck runs out |
| `DealerMachine.Machine.SubmitShuffle` | apps/chain/internal/app/dealer.go:1041-1139 | accepts exactly the turn of the expected member with a proof the verifier accepts, and stores its deck |
| `DealerMachine.Machine.FinalizeDeck` | apps/chain/internal/app/dealer.go:1141-1207 | computes the finalization step |
| `DealerMachine.Machine.RefundAll` | apps/chain/internal/app/dealer.go:1807-1839 | every occupied seat gets its commitment back |
| `DealerMachine.Machine.ShuffleExpires` | apps/chain/internal/app/dealer.go:1877-1955 | computes the shuffle branch of the timeout |
| `DealerMachine.Machine.FindMissingHole` | apps/chain/internal/app/dealer.go:1304-1359 | exactly the qualified members that lack some hole share |
| `DealerMachine.Machine.OpenCard` | apps/chain/internal/app/dealer.go:1684-1738 | the loops over the recorded shares compute the card of the position, or fail exactly when the step does |
| `Pots.SidePotsClosedForm` | packages/poker-engine/src/pots.ts:3-39 | pot amounts are positive and sum to all commitments, eligible sets are strictly nested, and what an eligible seat can win is the sum of min(c_j, c_i) |
| `Pots.TiersWinnable` | packages/poker-engine/src/pots.ts:3-25 | the same total before merging |
| `Pots.ComputeSidePots` | packages/poker-engine/src/pots.ts:3-39 | the subtract-and-splice loop and the merging loop compute the side pots |
| `Pots.SplitTiers` | packages/poker-engine/src/pots.ts:3-25 | the tier loop computes the tiers |
| `HandRank.CompareMeans` | packages/holdem-eval/src/handRank.ts:25-40 | the comparison is the zero-padded lexicographic order, for lists of any and unequal lengths |
| `HandRank.CompareFlips` | packages/holdem-eval/src/handRank.ts:25-40 | swapping the arguments flips the sign |
| `HandRank.CompareTrans` | packages/holdem-eval/src/handRank.ts:25-40 | the comparison is a total preorder |
| `Evaluate.Evaluate5AnyOrder` | packages/holdem-eval/src/evaluate.ts:35-103 | the value of five cards does not depend on their order |
| `Categories.Evaluate5ByTheRules` | packages/holdem-eval/src/evaluate.ts:35-103 | the value of any five distinct cards is the category and kickers the rules of poker prescribe |
| `Winners.CombosComplete` | packages/holdem-eval/src/evaluate.ts:105-127 | the index tuples are all five-element subsets of seven positions |
| `Winners.Evaluate7` | packages/holdem-eval/src/evaluate.ts:129-143 | the loop computes the rank of seven cards, and fails exactly on a wrong number or invalid cards |
| `Winners.Rank7IsBest` | packages/holdem-eval/src/evaluate.ts:129-143 | the rank of seven cards is the best any five of them make |
| `Winners.FindWinners` | packages/holdem-eval/src/evaluate.ts:145-183 | exactly the seats whose best hand is unbeaten, in ascending order, whatever the order of the holdings |
| `Settlement.SharesExact` | apps/chain/internal/app/poker.go:993-1017 | the shares of a pot add up to the pot, odd chips included |
| `Settlement.SharesFair` | apps/chain/internal/app/poker.go:999-1015 | all winners but the lowest seat receive the same, the lowest at least that and fewer than one chip per winner more, nobody else anything |
| `Settlement.PayoutsExact` | apps/chain/internal/app/poker.go:993-1017 | all payouts add up to the pots that have an eligible seat |
| `Settlement.PayoutBound` | apps/chain/internal/app/poker.go:993-1017 | no seat collects more than the pots it is eligible for |
| `Settlement.SettlementExact` | apps/chain/internal/app/poker.go:912-1017 | payouts total what the best-covered contender matched, all commitments when a contender holds the largest; each seat at most the sum of min(c_j, c_i), exactly that when it beats all others |
| `Settlement.LossIffOutcommitted` | apps/chain/internal/app/poker.go:993-1017 | a decided showdown pays out every committed chip exactly when no seat committed more than the best-covered eligible one |
| `Settlement.PotWinners` | apps/chain/internal/app/poker.go:937-986 | the winners of one pot, or an error exactly when several seats are eligible and their cards cannot be compared |
| `Settlement.AwardPot` | apps/chain/internal/app/poker.go:993-1017 | every winner gets the quotient and the first one the remainder; fails only on overflow |
| `Settlement.RefundAll` | apps/chain/internal/app/poker.go:958-975 | every occupied seat gets its commitment back; fails exactly on overflow |
| `Settlement.Settle` | apps/chain/internal/app/poker.go:887-1051 | awards every pot to its winners, or refunds all when some contested pot cannot be decided; fails only when a pot or a stack overflows |
| `Betting.BlindSeats` | packages/poker-engine/src/engine.ts:425-448 | the blinds are posted by two different occupied seats |
| `BettingSafety.NextSpec` | packages/poker-engine/src/engine.ts:53-62 | a seat to act is found exactly when some seat needs to act |
| `BettingSafety.NextIsFirst` | packages/poker-engine/src/engine.ts:53-62 | and it is the first one clockwise |
| `BettingSafety.CompleteIffNobodyNeeds` | packages/poker-engine/src/engine.ts:332-339 | a street is complete exactly when no seat needs to act |
| `BettingSafety.MoveKeeps` | packages/poker-engine/src/engine.ts:222-330 | bets, calls, checks and folds keep what holds between action and advance |
| `BettingSafety.AdvanceStreetKeeps` | packages/poker-engine/src/engine.ts:137-163 | a new street starts with a seat that needs to act and no commitments |
| `BettingSafety.ActionKeeps` | packages/poker-engine/src/engine.ts:513-556 | an accepted action leads to a state with the invariant or out of betting; accepted exactly when it comes from the seat to act and its move is legal |
| `BettingSafety.TickKeeps` | packages/poker-engine/src/engine.ts:558-577 | a tick always succeeds and does the same |
| `BettingStreets.AdvanceDecides` | packages/poker-engine/src/engine.ts:341-372 | after an action a hand ends by folds exactly when one contender is left, comes to a showdown exactly when nobody needs to act and the river is bet or fewer than two contenders have chips, and otherwise bets the same street while somebody needs to act and the very next one after that, opened left of the button, with the clock restarted |
| `BettingStreets.AllStreetsBet` | packages/poker-engine/src/engine.ts:341-372 | over every run, a hand that comes to a showdown with two stacks behind was bet on all four streets |
| `BettingStreets.FromTheButton` | packages/poker-engine/src/engine.ts:153-160 | starting the scan at the first occupied seat left of the button finds the seat the scan from the button finds |
| `BettingMoves.MoveMeans` | packages/poker-engine/src/engine.ts:222-330 | a fold or check costs nothing, a call what is missing or all there is, a bet exactly up to its amount, and nobody else is touched |
| `BettingMoves.RaiseSetsMinimum` | packages/poker-engine/src/engine.ts:252-300 | after a full raise the next raise is at least as large unless all-in, after a short all-in at least the old minimum |
| `BettingMoves.ReopensIffFull` | packages/poker-engine/src/engine.ts:212-300 | a seat that has acted may raise again exactly when the new bet was a full raise and the seat has more than it |
| `BettingMoves.ButtonMoves` | packages/poker-engine/src/engine.ts:425-434 | the button goes to the first seat with chips after the old one, or to the lowest |
| `BettingMoves.TickMeans` | packages/poker-engine/src/engine.ts:558-577 | a tick does nothing before the deadline; after it the seat folds exactly when it faces a bet, and no chips move |
| `BettingStart.StartEstablishes` | packages/poker-engine/src/engine.ts:409-511 | a started hand has the invariant or is at showdown, every seat's stack and commitment add up to what it sat with, and the bet bounds all commitments exactly when the big blind covers the small one |
| `BettingStart.PostedFacts` | packages/poker-engine/src/engine.ts:451-498 | the two blind seats have posted their blind or all they had and nobody else anything; the bet is what the big blind paid |
| `BettingTermination.ActionDecreases` | packages/poker-engine/src/engine.ts:222-372 | an accepted action leaves betting or strictly decreases the measure, exactly when it is not a check by a seat that has put in more than the bet |
| `BettingTermination.ActionKeepsBounded` | packages/poker-engine/src/engine.ts:222-372 | the bet to match keeps bounding all street commitments |
| `BettingTermination.ActionKeepsCovered` | packages/poker-engine/src/engine.ts:222-372 | the bet to match keeps covering everyone who can still act |
| `BettingTermination.RunsKeep` | packages/poker-engine/src/engine.ts:513-577 | over every run of actions and timeouts the invariant and the chips stay, and nobody's holdings change before completion |
| `BettingTermination.RunsEnd` | packages/poker-engine/src/engine.ts:513-577 | a run from a state whose bet covers everyone who can act is no longer than the measure |
| `BettingTermination.WholeHand` | packages/poker-engine/src/engine.ts:409-614 | from the deal on every run keeps the invariant and the chips, and an abort with blind refund at any point before completion restores every starting stack |
| `BettingTermination.StallsForever` | packages/poker-engine/src/engine.ts:64-69 | a seat that has put in more than the bet, with nobody else to act, can check forever |
| `BettingTermination.EndsIffBlindsFit` | packages/poker-engine/src/engine.ts:409-577 | a dealt hand always ends, whatever is played, exactly when the big blind covers the small one or the small blind went all-in with it |
| `BettingTermination.ShortBigBlindExample` | packages/poker-engine/src/engine.ts:474 | a concrete table whose hand need not end |
| `BettingTermination.TickFollows` | packages/poker-engine/src/engine.ts:558-577 | an effective timeout is one of the steps of a run |
| `BettingChips.NothingLeftUncalled` | packages/poker-engine/src/engine.ts:108-135 | after the return of an uncalled bet the largest commitment is matched, and no other seat has changed |
| `BettingChips.FoldOutPays` | packages/poker-engine/src/engine.ts:176-210 | a fold-out pays every committed chip to the last contender and moves nothing else |
| `BettingChips.ActionConserves` | packages/poker-engine/src/engine.ts:513-556 | an accepted action keeps the total, and each seat's holdings unless it ends the hand by a fold-out |
| `BettingChips.AbortRestores` | packages/poker-engine/src/engine.ts:579-614 | an abort keeps holdings and total; with blind refund every seat of an unfinished hand gets exactly what it owned |
| `BettingChips.NextHandTotal` | packages/poker-engine/src/engine.ts:500 | dealing the next hand loses exactly what the previous one still holds in escrow |
| `BettingLegal.OfferedAccepted` | packages/poker-engine/src/engine.ts:616-656 | every offered action is accepted, exactly when the offer is not the stale one of a seat that faces no bet after one was made |
| `BettingLegal.StaleBet` | packages/poker-engine/src/engine.ts:616-656 | a stale offer holds a bet of one big blind that is refused |
| `BettingExamples.StaleOption` | packages/poker-engine/src/engine.ts:616-656 | a concrete deal and call that lead to a stale offer |
| `BettingExamples.LostPot` | packages/poker-engine/src/pots.ts:3-39 | a concrete run to a showdown with a pot that no seat may win |
| `BettingLegal.AcceptedOffered` | packages/poker-engine/src/engine.ts:616-656 | every accepted action is offered, or is a bet between the least and the largest offered one |
| `BettingLegal.AcceptedBets` | packages/poker-engine/src/engine.ts:212-300 | the accepted bets are the all-in total above the bet and everything from the minimum bet or raise up to it |
| `BettingLegal.AcceptedIs` | packages/poker-engine/src/engine.ts:513-556 | the engine accepts an action of the seat to act exactly when its move is legal |
| `BettingEngine.FindNext` | packages/poker-engine/src/engine.ts:53-62 | the search loop finds the next seat to act |
| `BettingEngine.FindOccupied` | packages/poker-engine/src/engine.ts:45-51 | the search loop finds the next occupied seat |
| `BettingEngine.CountNotFolded` | packages/poker-engine/src/engine.ts:71-75 | the counting loop counts contenders |
| `BettingEngine.CountWithChips` | packages/poker-engine/src/engine.ts:77-85 | the counting loop counts contenders with chips |
| `BettingEngine.IsStreetComplete` | packages/poker-engine/src/engine.ts:332-339 | the loop decides whether the street is complete |
| `BettingEngine.MaxCommit` | packages/poker-engine/src/engine.ts:92-96 | the loop finds the largest commitment |
| `BettingEngine.SecondMax` | packages/poker-engine/src/engine.ts:98-106 | the loop finds the largest commitment other than the maximum |
| `BettingEngine.FindSole` | packages/poker-engine/src/engine.ts:116-124 | the loop finds the seat that alone holds the maximum, if there is one |
| `BettingEngine.Engine.ReturnExcess` | packages/poker-engine/src/engine.ts:108-135 | computes the return of an uncalled bet |
| `BettingEngine.Engine.NextStreetOpens` | packages/poker-engine/src/engine.ts:137-163 | computes the street advance |
| `BettingEngine.Engine.ShowCards` | packages/poker-engine/src/engine.ts:165-174 | computes the showdown state with its side pots |
| `BettingEngine.Engine.LastOneWins` | packages/poker-engine/src/engine.ts:176-210 | computes the fold-out |
| `BettingEngine.Engine.MoveOn` | packages/poker-engine/src/engine.ts:341-372 | computes the advance after an action |
| `BettingEngine.Engine.BetUpTo` | packages/poker-engine/src/engine.ts:222-300 | accepts and applies exactly the legal bets and raises |
| `BettingEngine.Engine.CallBet` | packages/poker-engine/src/engine.ts:302-317 | accepts and applies exactly the legal calls |
| `BettingEngine.Engine.Apply` | packages/poker-engine/src/engine.ts:319-330 | dispatches to the four moves |
| `BettingEngine.Engine.Act` | packages/poker-engine/src/engine.ts:513-556 | accepts exactly when the action step does, computes its state, and leaves everything alone otherwise |
| `BettingEngine.Engine.Tick` | packages/poker-engine/src/engine.ts:558-577 | does nothing before the deadline and applies the default action after it |
| `BettingEngine.Engine.AbortAndRefund` | packages/poker-engine/src/engine.ts:579-614 | computes the abort |
| `BettingEngine.ChooseSeats` | packages/poker-engine/src/engine.ts:413-448 | button and blinds of the next hand |
| `BettingEngine.DealHand` | packages/poker-engine/src/engine.ts:409-511 | deals exactly the hand the start step describes, and none when fewer than two seats are funded |
| `ChainStart.SeatsFunded` | apps/chain/internal/app/poker.go:45-69 | button and blinds fall to funded seats, the blinds to two different ones |
| `ChainStart.PostedSeats` | apps/chain/internal/app/app.go:453-532 | a started hand seat by seat: every funded seat is in, the blind seats have posted their blind or all they had, nobody else paid, and at least two contend |
| `ChainStart.HolesDealt` | apps/chain/internal/app/poker.go:105-134 | the k-th seat of the deal order holds the k-th card of each of the two rounds |
| `ChainStart.DealFromSmallBlind` | apps/chain/internal/app/poker.go:111-124 | the deal begins with the small blind and goes clockwise over exactly the funded seats |
| `ChainStart.NoCardTwice` | apps/chain/internal/app/poker.go:105-134 | from a deck without repeats all hole cards and the board are different cards |
| `ChainTwin.AfterMoveDecides` | apps/chain/internal/app/poker.go:543-612 | on the chain a hand folds out exactly when one contender is left, without a dealer is shown down exactly when nobody needs to act and the river is bet or fewer than two contenders have chips, else goes to the very next street; with a dealer it waits for that street |
| `ChainTwin.BoardNextDecides` | apps/chain/internal/app/poker.go:776-829 | a board card completes the very next street, which is bet exactly when two contenders have chips and followed by the next wait otherwise |
| `ChainTwin.BoardFromDeck` | apps/chain/internal/app/poker.go:1123-1147 | without a dealer the board is always the next cards of the deck, and a showdown is held over five of them |
| `ChainTwin.BothShown` | apps/chain/internal/app/poker.go:832-858 | both hole cards of a seat are shown, in either order |
| `ChainTwin.SameMoves` | apps/chain/internal/app/poker.go:1072-1105 | the chain accepts a move, under exactly one of its words, exactly when the TypeScript engine accepts it |
| `ChainTwin.EnginesAgree` | apps/chain/internal/app/poker.go:543-612 | after every move the two engines end the hand, come to a showdown over the same chips, or go on in the same state up to the clock |
| `ChainTwin.DealerAgrees` | apps/chain/internal/app/poker.go:746-760 | the street the dealer opens is the one the TypeScript engine opens |
| `ChainTwin.SameBlindsIff` | apps/chain/internal/app/poker.go:45-69 | the engines charge the same seats exactly when the seats the TypeScript engine charges have chips |
| `ChainTwin.SameStart` | apps/chain/internal/app/app.go:486-532 | and then start the hand in the same state |
| `ChainDesk.BoardCardAgrees` | apps/chain/internal/app/poker.go:776-829 | dealer and table show the same board, wait or bet alike, and give the turn to the same seat |
| `ChainDesk.CloseAgrees` | apps/chain/internal/app/poker.go:565-584 | at the end of a betting round both wait for the same cards |
| `ChainDesk.OpenAndAbortAgree` | apps/chain/internal/app/dealer.go:1807-1839 | both open the betting alike, and give back the same stacks |
| `ChainDesk.DealsAlike` | apps/chain/internal/app/dealer.go:1174-1192 | the position the dealer reserves for a hole card is the one a plain deck deals |
| `ChainTable.AfterMoveKeeps` | apps/chain/internal/app/poker.go:543-612 | what follows a move keeps every chip and the consistency of table and board, through fold-out, next seat, next street, wait for the dealer, and showdown |
| `ChainTable.SettledTotal` | apps/chain/internal/app/poker.go:887-1051 | a showdown moves every committed chip to the seats except exactly the pots nobody may win |
| `ChainTable.UnopenedIs` | apps/chain/internal/app/poker.go:993-998 | what a decided showdown pays to nobody is exactly what was committed beyond the best-covered contender, and nothing exactly when no seat committed more |
| `ChainTable.UnfoldedPaysAll` | apps/chain/internal/app/poker.go:887-1051 | a showdown nobody folded before pays every chip out |
| `ChainTable.FoldOutTotal` | apps/chain/internal/app/poker.go:480-541 | a fold-out pays every committed chip to the last contender |
| `ChainTurn.ActSound` | apps/chain/internal/app/poker.go:1053-1121 | a legal action, with all that follows it, keeps every chip of the table up to the pots its showdown pays to nobody |
| `ChainTurn.TimeoutLegal` | apps/chain/internal/app/app.go:663-670 | the action a timeout applies is legal whenever its seat may act |
| `ChainTurn.TickSound` | apps/chain/internal/app/app.go:637-696 | a tick burns one big blind, or one chip, or all that is left of the timed-out bond, nothing when it only sets a missing deadline, and touches no other bond and no stack |
| `ChainTurn.TimeoutFoldsIff` | apps/chain/internal/app/app.go:668-674 | a timeout folds a seat exactly when it faces a bet |
| `ChainTurn.DealerSound` | apps/chain/internal/app/poker.go:762-885 | opening the betting, a board card, a hole card and an abort neither create nor take a chip |
| `ChainTurn.StartSound` | apps/chain/internal/app/app.go:411-580 | the start of a hand loses nothing, not even when it is settled at once |
| `ChainTurn.BecomesKeeps` | apps/chain/internal/app/poker.go:222-1121 | after any turn the table is consistent and holds every chip it held, up to the pots nobody may win |
| `ChainPlay.FollowUp` | apps/chain/internal/app/poker.go:543-612 | the loops of the advance compute what follows a move |
| `ChainPlay.Reopen` | apps/chain/internal/app/poker.go:746-760 | betting starts again left of the button |
| `ChainPlay.Carry` | apps/chain/internal/app/poker.go:1110-1120 | writes the outcome of a turn to the table; cannot fail while the chips of the table fit into 64 bits |
| `ChainPlay.PayOut` | apps/chain/internal/app/poker.go:887-1051 | settles a showdown; cannot fail while the chips of the table fit into 64 bits |
| `ChainPlay.GiveBack` | apps/chain/internal/app/dealer.go:1807-1839 | refunds every commitment of an aborted hand |
| `ChainPlay.ActOn` | apps/chain/internal/app/poker.go:1053-1121 | succeeds only on legal actions, and on all of them while the chips fit into 64 bits; the table then follows the turn |
| `ChainPlay.TickOn` | apps/chain/internal/app/app.go:637-696 | succeeds only when a deadline is missing or has passed, and the table then follows the turn |
| `ChainPlay.StepOn` | apps/chain/internal/app/poker.go:762-885 | the step of the dealer at the table, with its guards |
| `ChainPlay.TurnUp` | apps/chain/internal/app/poker.go:768-829 | a board card, and the street it completes |
| `ChainPlay.NoneHidden` | apps/chain/internal/app/poker.go:674-686 | whether every contender has both hole cards public |
| `ChainPlay.DealTwo` | apps/chain/internal/app/poker.go:105-134 | the two dealing rounds |
| `ChainPlay.PickSeats` | apps/chain/internal/app/poker.go:45-69 | button and blind seats |
| `ChainPlay.PostBlinds` | apps/chain/internal/app/poker.go:71-103 | posts both blinds and finds the first seat to act |
| `ChainPlay.StartOn` | apps/chain/internal/app/app.go:411-580 | starts a hand exactly when none runs, two seats are funded and cards can be dealt |
| `LedgerState.SlashAmount` | apps/chain/internal/app/slash.go:17-30 | the basis-point share of the bond rounded up, never more than the bond, and zero only when bond or share is |
| `LedgerState.PunishKeeps` | apps/chain/internal/app/slash.go:32-53 | a slash moves chips from the bond to the treasury and touches no table |
| `LedgerState.PaidOutExactly` | apps/chain/internal/app/bonds.go:15-52 | an ejection pays every player exactly the stacks of their ejected seats, and nobody else anything |
| `LedgerState.EjectingKeeps` | apps/chain/internal/app/bonds.go:15-52 | ejection moves stacks to accounts and keeps the total |
| `LedgerState.TurnIsSound` | apps/chain/internal/app/app.go:411-744 | the turn of every accepted table transaction accounts for every chip of its table but the burned bond |
| `LedgerState.EffectConserves` | apps/chain/internal/app/app.go:203-1069 | every accepted transaction keeps the state consistent and every chip of the chain, up to exactly what it mints, the bond cut of a timeout as the rules and the old bond fix it, and the pots of a showdown that nobody may win |
| `LedgerState.RunConserves` | apps/chain/internal/app/app.go:88-106 | over every run the chain holds what it held plus all that was minted, minus exactly those cuts and pots |
| `LedgerOwners.BalanceFallsOnlyByOwner` | apps/chain/internal/app/app.go:203-1069 | the balance of an account falls only by a transaction of its owner |
| `LedgerOwners.StackFallsOnlyByOwner` | apps/chain/internal/app/app.go:411-744 | a seat keeps its player through every turn, and its stack falls only by an action of that player or by its blind |
| `LedgerOwners.SitThenLeave` | apps/chain/internal/app/app.go:347-409 | a player sits with a stack inside the buy-in bounds and the bond of the table, pays both, and gets exactly that back by leaving |
| `LedgerOwners.EjectedIff` | apps/chain/internal/app/bonds.go:15-52 | between hands exactly the seats whose bond is used up are emptied and their stacks paid out; during a hand nobody is ejected |
| `LedgerOwners.PunishMeans` | apps/chain/internal/app/slash.go:32-53 | a punished validator is jailed and counted, its bond falls and the treasury grows by the slash, nothing else changes |
| `LedgerOwners.PenaltySizes` | apps/chain/internal/app/slash.go:12-30 | half of the bond for the key generation, a tenth for a hand, rounded up |
| `LedgerOwners.JailedUntilUnjailed` | apps/chain/internal/app/app.go:228-259 | over every run a jailed validator stays jailed until its own unjailing and mints nothing till then |
| `LedgerOwners.RulesStay` | apps/chain/internal/app/app.go:284-345 | no transaction changes the rules of a table, and every table opened has ordered blinds and buy-ins |
| `LedgerOwners.ActionClock` | apps/chain/internal/app/timeouts.go:61-84 | whoever is to act after a turn has the whole action timeout; only a hand opened by a dealer timeout starts without a clock |
| `LedgerChain.Chain.Credit` | apps/chain/internal/state/state.go:202-209 | adds exactly the amount, or fails exactly on overflow |
| `LedgerChain.Chain.Debit` | apps/chain/internal/state/state.go:211-218 | takes exactly the amount, or fails exactly when the balance is short |
| `LedgerChain.Chain.Bank` | apps/chain/internal/app/app.go:228-282 | minting and sending have exactly their effect |
| `LedgerChain.Chain.Open` | apps/chain/internal/app/app.go:284-345 | a new table under the next number, for valid rules |
| `LedgerChain.Chain.SitDown` | apps/chain/internal/app/app.go:347-409 | buy-in and bond leave the account and arrive at the empty seat; nothing else changes |
| `LedgerChain.Chain.StandUp` | apps/chain/internal/app/app.go:746-788 | stack and bond of a seat outside the hand return to the account; nothing else changes |
| `LedgerChain.Chain.JailAndSlash` | apps/chain/internal/app/slash.go:32-53 | the treasury receives exactly what the bond loses, the validator is jailed and counted, every other record stays |
| `LedgerChain.Chain.PunishAll` | apps/chain/internal/app/dealer.go:2048-2066 | the loop punishes every listed validator in turn |
| `LedgerChain.Chain.MoveBond` | apps/chain/internal/app/staking.go:62-119 | bonding and unbonding move exactly the amount between account and bond |
| `LedgerChain.Chain.Staff` | apps/chain/internal/app/staking.go:15-140 | registration adds a validator without a bond or changes nothing, unjailing changes only the jailed flag |
| `LedgerChain.Chain.Store` | apps/chain/internal/app/bonds.go:15-52 | stores the table; between hands every seat without a bond is emptied and its player credited its stack |
| `LedgerChain.Chain.TakeTurn` | apps/chain/internal/app/app.go:411-744 | start, action and tick have exactly the effect of their turn, and succeed whenever valid while the chips fit into 64 bits |
| `LedgerChain.Chain.DealerTx` | apps/chain/internal/app/app.go:1009-1069 | punishes the listed validators and takes the table's step |
| `LedgerChain.FindSeat` | apps/chain/internal/app/poker.go:29-42 | the first seat of the player |
| `LedgerChain.Chain.Deliver` | apps/chain/internal/app/app.go:164-202 | an accepted transaction has exactly its effect and any other changes nothing; while all chips fit into 64 bits every valid transaction is accepted |
| `LedgerChain.Chain.DeliverAll` | apps/chain/internal/app/app.go:88-106 | every sequence of transactions is a run, so its chips are accounted for exactly |

## Left out

- Ristretto255 arithmetic, SHA-2, Ed25519, AES-GCM and Argon2: a prime-order group, uninterpreted functions and a set of signed shares stand for them.
- Secrecy, zero knowledge, collision resistance of the hash and the quality of randomness: not statements about what the code computes.
- Termination of rejection sampling: the scalar stream is a parameter assumed to hold a usable element after every position.
- Transaction authentication, nonces, JSON decoding, events, log texts, persistence and the app hash.
- Byte length checks of points, scalars and keys in dealer messages: the messages carry decoded values.
- Committee sampling and window defaults of `dealerBeginEpoch`: the session starts from a list of distinct identities and positive windows.
- Sorted order of the chain's record lists: commits, complaints, reveals, shares, slashed sets and validators are maps, sets or append-only sequences.
- Overflow of heights and dealer deadlines; 64-bit overflow of chips is modelled in `Settlement`, `ChainPlay` and `LedgerChain`, and is not modelled in `Betting`, where the engine uses big integers.
- The proof of an encrypted hole share (`encshare_proof.go`): whether it verifies is an input of the step.
- Settlement inside `DealerHand`: the desk ends with all cards shown, and `ChainTurn` pays from there.
- Which validators a dealer message punishes and which step it takes are inputs of the ledger; `Dkg` and `DealerHand` decide them.
- Player identities, hand numbers and event lists of the engine's records.
- `buildShuffleContext`, nicknames, coordinator, bots, simulators and user interface.
- DealerHand: hole-share and reveal timeouts are modelled on values; the loops behind them that have imperative counterparts are those of `DealerMachine`.
- Threshold.RevealedCardsDiffer: needs every inner shuffle proof to have a second accepting transcript, the standard reading of special soundness.
- ShuffleProver.ShuffleProve: the TypeScript point multiplication throws on a zero scalar; a challenge, nonce or response that happens to be zero is an ordinary scalar here.
- LedgerChain.Chain.Staff: voting power and the pubKey of an account are not modelled; a validator's own key is.
- ChainPlay.StartOn: hand numbers and the failure cases of `dealerInitHand` beyond a missing seat key are not modelled; the plain deck is an input of 52 cards.
