# Verified model of the Flare Systems Protocol client

The client signs protocol data, submits the signatures on chain, collects everybody's signatures
from the indexed transactions, and relays a message once voters above a weight threshold have
signed it. This project models that path and the algorithms it relies on, and proves what they
are for:

- **Finalizer pipeline.** `Listener`, `Finalizer`, `Submissions`, `SubmissionRuns`, `Pipeline`,
  `Redelivery`: polling with overlapping ranges and retries, choice of the signing policy, weight
  accounting with a threshold latch, queueing. Delivery is at least once; what is stored for a key
  is as if each transaction had been passed on once, and each message is queued at most once.
- **Quorum.** `Quorum`, `Greedy`, `Relay`, `FinalizerQueue`: the greedy choice of signatures is
  a smallest one above the threshold, and every signature in the relay call is a different
  voter's on the message relayed.
- **Wire format.** `Payloads` (reader) and `Submitter` (writer, resend rounds) are inverse to each other.
- **Writer to storage.** `Delivery`: what a submitter sent is in the storage of every finalizer that passed it on.
- **Weighted voter selection.** `Bisection`, `VoterSets`: binary search over running sums and hash-chain sampling.
- **Merkle trees.** `Merkle`, `HexOrder`: heap layout, proofs, and soundness that hands out a
  Keccak collision whenever a proof is accepted for something that was not put in.
- **Signing policies and the delayed queue.** `SigningPolicies`, `DelayedQueue`.

State that the program updates in place is modelled by classes (`MessageData`,
`SubmissionStorage`, `SigningPolicyStorage`, `Queue`, `FinalizerClient`, `SubmissionListener`,
`DelayedQueueManager`, `Buffer`) whose methods are proved against functions on values; the
theorems about runs are about those functions. Loops of the program are loops here.

Keccak-256, the EIP-191 text hash, signing and public-key recovery are function values passed in
(`Crypto`, `SignerKey`). The only assumption about them is `Submitter.Recovers`: recovering from
a produced signature yields the signer. No hash is assumed injective; collisions are exhibited
as values computed from the inputs. Clock readings, fetch, sign and submit outcomes, and the order of
equal timestamps in a fetched batch are arbitrary inputs.

What the contract guarantees about a voter set is stated where it is used: as many weights as
voters and a sum that fits 16 bits (`VoterSet.Valid`), and positive weights (`VoterSet.Positive`)
for exact proportionality and for indices that fit 16 bits. `NewVoterSet` itself is modelled with wrap-around.

"Up to a collision" means: or two different messages stored in the run have the same hash (`Pipeline.CollisionIn`).

Five behaviours differ from what comments or names in the code suggest, and are stated as they are:

- `SignatureSubmitterDataVerifier` does not look at byte 5 of the message, but the reader rejects
  a whole transaction for a value other than 0 or 1. `Submitter.RoundTrip` is an equivalence with that condition.
- `BinarySearch` promises the highest index whose threshold is at most the value. With weights of
  zero its early return on an exact hit may miss it. It is kept if and only if the first midpoint that
  falls among the thresholds equal to the value is the last of them (`Bisection.KeepsPromise`); a voter with
  one unit of weight for whom it is not kept is never drawn (`VoterSets.DrawableExactly`).
- The queue names a message by the ids around it, the storage by the ids inside it. A message whose
  threshold is reached by an item with other ids around it is latched and never relayed
  (`Pipeline.MislabelledIsStranded`, `Pipeline.MislabelledRun`).
- `submissionStorage.Add` is documented to tell whether the payload was added; it tells whether this
  addition reached the threshold, and it leaves an empty message behind for a signer who is no voter.
- The cleanup after a new policy removes stored rounds whose numbers are the removed policies' reward
  epochs; `FinalizerClient.RewardEpochCleanup` does the same.

## Model

| member | source | states |
|---|---|---|
| Encoding.Uint16ToBytes | client/shared/encoding.go:5-8 | two bytes, the first worth 256 times the second, that read back as the number |
| Encoding.Uint32ToBytes | client/shared/encoding.go:10-13 | four bytes worth 2^24, 2^16, 2^8 and 1 that read back as the number |
| Encoding.Uint16Canonical | client/finalizer/finalizer_utils.go:60 | re-encoding a 2-byte field gives the same bytes |
| Encoding.Uint32Canonical | client/finalizer/finalizer_utils.go:58 | re-encoding a 4-byte field gives the same bytes |
| Encoding.BigEndianDigit | client/shared/voters/voter_set.go:112-114 | the bytes of a random number are its base-256 digits, the first the most significant |
| Encoding.BigEndianBound | client/shared/voters/voter_set.go:112-114 | n bytes stand for a number below 256^n |
| VoterSets.SumWeights | client/shared/voters/voter_set.go:36-40 | each threshold is the preceding weight modulo 2^16, and the total likewise |
| VoterSets.IndexVoters | client/shared/voters/voter_set.go:42-51 | the map holds exactly the listed addresses, each with its first position and that weight |
| VoterSets.NewVoterSet | client/shared/voters/voter_set.go:30-53 | the set is valid and searchable if and only if the weights sum to at most 65535 |
| Bisection.SearchHitsMidpoint | client/shared/voters/voter_set.go:130-139 | among thresholds equal to the value the search stops at the first bisection midpoint that falls among them |
| Bisection.HighestExactlyWhen | client/shared/voters/voter_set.go:118-141 | on ascending thresholds the search finds the highest index with a threshold at most the value if and only if that midpoint is the last of the equal ones, or they reach the end, or there are none |
| Bisection.LastAlwaysKept | client/shared/voters/voter_set.go:127-129 | for a value not below the last threshold the promise is always kept |
| VoterSets.BinarySearch | client/shared/voters/voter_set.go:118-141 | an index whose threshold is at most the value; the highest such index if and only if the positions of the equal thresholds allow it, and if and only if it is the last or has weight; the owner of that unit of weight if and only if it has weight |
| VoterSets.SearchFindsOwner | client/shared/voters/voter_set.go:118-141 | the owner of a unit of weight is found if and only if the index found has weight |
| VoterSets.DrawableExactly | client/shared/voters/voter_set.go:111-141 | a voter with weight is selected by some value if and only if it has two units or the search keeps its promise for its threshold |
| VoterSets.WeightlessVotersMislead | client/shared/voters/voter_set.go:118-141 | a voter set with weightless voters for which the result is not the promised highest index |
| VoterSets.OwnerUnique | client/shared/voters/voter_set.go:118-141 | the half-open intervals thresholds[i] .. thresholds[i]+weights[i] are disjoint and cover all values below the total |
| VoterSets.ExactlyProportional | client/shared/voters/voter_set.go:111-141 | with positive weights the search yields voter i for exactly weights[i] of the values below the total weight |
| VoterSets.SelectVoterIndex | client/shared/voters/voter_set.go:111-116 | the index the search yields for the big-endian random number modulo the total weight; if that voter has weight, as with positive weights, its interval holds that number |
| VoterSets.RandomNumberSequence | client/shared/voters/voter_set.go:71-79 | starts with the seed, and each further number is the hash of the one before |
| VoterSets.SampleFoldsTheSequence | client/shared/voters/voter_set.go:99-107 | the sample after n draws is a fold over the first n numbers of that sequence |
| VoterSets.SampleIsExact | client/shared/voters/voter_set.go:99-107 | after any number of draws the accumulated weight is that of the picked voters, whose addresses are all different, and never above the total |
| VoterSets.DrawAddsWeight | client/shared/voters/voter_set.go:98-107 | a draw adds its voter and that voter's weight if and only if the address is new, so weight if and only if its number makes progress |
| VoterSets.SampleUntil | client/shared/voters/voter_set.go:93-108 | the loop has ended within a number of draws if and only if so many reach the threshold weight, and then returns the addresses picked by the shortest such prefix; it never draws from a set without weight and its 16-bit sum never wraps |
| VoterSets.ThresholdWeight | client/shared/voters/voter_set.go:94 | the greatest weight not above that many ten-thousandths of the total, at most half of it |
| VoterSets.RandomSelectThresholdWeightVoters | client/shared/voters/voter_set.go:86-109 | an error exactly above 5000 BIPS, otherwise the sample for that share of the total, once the loop has ended |
| VoterSets.SampleWeight | client/shared/voters/voter_set.go:93-108 | on exit the picked weight is at least the threshold weight and at most the total, and below the threshold weight without the last pick |
| VoterSets.LowerThresholdSelectsSubset | client/shared/voters/voter_set.go:86-109 | for one seed, a lower BIPS threshold stops no later and selects a subset |
| VoterSets.SomeDrawMakesProgress | client/shared/voters/voter_set.go:98-107 | some value would add weight to the sample if and only if a voter who can be drawn has a new address; with distinct addresses and all voters drawable that is so as long as the loop runs |
| VoterSets.NeverEnds | client/shared/voters/voter_set.go:98-107 | once no value would add weight the loop never ends, whatever the hash yields |
| Payloads.DecodeSubmitterPayload | client/finalizer/finalizer_utils.go:47-77 | the cursor loop stays in bounds, ends on every byte string, and returns the decoded items or the first error |
| Payloads.MessageCodec | client/finalizer/finalizer_utils.go:124-138 | 38 bytes decode to a message if and only if they are its encoding |
| Payloads.MessageLayout | client/finalizer/finalizer_utils.go:124-138 | protocol at byte 0, big-endian round at 1, quality at 5, root at 6 |
| Payloads.ItemLayout | client/finalizer/finalizer_utils.go:47-122 | protocol at byte 0, round at 1, length at 5, type at 7, message at 8, signature at 46, extra data at 111 |
| Payloads.ItemIsSigned | client/finalizer/finalizer_utils.go:79-113 | R, S and V - 27 of an item recover to its signer on the text hash of the Keccak hash of its message bytes |
| Payloads.PayloadCodec | client/finalizer/finalizer_utils.go:89-122 | bytes decode to a signed payload if and only if they are its encoding and the signature recovers to its signer on the hash of its message |
| Payloads.DecodesExactly | client/finalizer/finalizer_utils.go:47-138 | an input with a selector decodes to a list of items if and only if it is the selector followed by the encoding of those items, all authentic |
| Payloads.ShortInputsAreEmpty | client/finalizer/finalizer_utils.go:47-52 | inputs no longer than a selector decode to no items, without error |
| Payloads.SameHashSameMessage | client/finalizer/finalizer_utils.go:93-113 | two authentic payloads with one hash carry the same message, or their two raw messages collide |
| Submitter.SignatureRoundTrip | client/finalizer/finalizer_utils.go:79-87 | the V/R/S reshuffle of writer and reader undo each other both ways, for every byte V |
| Submitter.WriteSigned | client/protocol/submitter.go:205-210 | appends type 0, the message, V plus 27 modulo 256, R and S |
| Submitter.WritePayload | client/protocol/submitter.go:188-214 | on a signing error the buffer is unchanged, otherwise exactly the entry's bytes are appended |
| Submitter.EntryLayout | client/protocol/submitter.go:188-214 | where protocol, round currentEpoch - 1, length, type 0, message, V + 27, R, S and extra data are, the signature being that of the text hash of the Keccak hash of the message |
| Submitter.VerifiedExactly | client/protocol/protocol_utils.go:134-147 | accepted if and only if the status is OK, the data has 38 bytes and the entry's length fits its field |
| Submitter.FailedExactly | client/protocol/submitter.go:242-262 | a sub-protocol contributes if and only if its data arrived, passed that test and could be signed |
| Submitter.EntryIsItem | client/protocol/submitter.go:188-214 | what is written for a verified response is the encoding of a well-formed item |
| Submitter.BadEntryRejected | client/protocol/protocol_utils.go:134-147 | a verified response with another random-quality byte is rejected by the reader, with that byte as the reason |
| Submitter.RoundTrip | client/protocol/submitter.go:188-214 | selector plus written responses decodes if and only if all random-quality bytes are 0 or 1, and then to the same items in order, with round currentEpoch-1 modulo 2^32 and the same extra data |
| Submitter.OriginalSignature | client/protocol/submitter.go:208-210 | the reader's transformed signature is the one that was produced |
| Submitter.CollectRound | client/protocol/submitter.go:242-262 | a round's transaction holds exactly the pending sub-protocols whose data arrived verified and could be signed, in order, each with what was fetched for it |
| Submitter.SendRound | client/protocol/submitter.go:242-269 | a successful submission clears those sub-protocols and is recorded, a failed one restores all of them |
| Submitter.RunEpoch | client/protocol/submitter.go:219-271 | at most maxRounds rounds, ending early only with nothing left; sub-protocols in successful transactions and those still to send partition all of them, none in two transactions; each transaction holds what its round fetched |
| Submitter.SentTxDecodes | client/protocol/submitter.go:242-269 | a sent transaction decodes to one item per contributing sub-protocol, in order, with its id, round, message and signer |
| SigningPolicies.LookupIsGreatestStart | client/finalizer/signing_policy_storage.go:57-70 | lookup is nil if and only if every policy starts later, otherwise a policy with the greatest start not after the round |
| SigningPolicies.LookupBreaksTies | client/finalizer/signing_policy_storage.go:57-70 | among equal starts the first on an exact hit, the last otherwise |
| SigningPolicies.SigningPolicyStorage.FindByVotingRoundId | client/finalizer/signing_policy_storage.go:57-70 | the binary search returns that lookup |
| SigningPolicies.SigningPolicyStorage.Add | client/finalizer/signing_policy_storage.go:72-90 | appends the policy if and only if the list stays ordered with it, and changes nothing otherwise |
| SigningPolicies.CanAddExactly | client/finalizer/signing_policy_storage.go:72-90 | the check for the next reward epoch and a start not before the last one is exactly that |
| SigningPolicies.SigningPolicyStorage.GetForVotingRound | client/finalizer/signing_policy_storage.go:92-103 | the lookup, and whether it is the last policy of the list |
| SigningPolicies.SigningPolicyStorage.RemoveByVotingRound | client/finalizer/signing_policy_storage.go:115-128 | removes exactly the policies starting at or before the round and returns their reward epochs in order |
| SigningPolicies.AlwaysOrdered | client/finalizer/signing_policy_storage.go:72-128 | after any additions and removals reward epochs are consecutive and starts do not decrease |
| SigningPolicies.RemovalKeepsLookups | client/finalizer/signing_policy_storage.go:115-128 | removal changes no lookup at or above the first remaining start, and empties those below |
| SigningPolicies.AddKeepsEarlierLookups | client/finalizer/signing_policy_storage.go:72-90 | a new policy changes no lookup below its start |
| Submissions.MessageData.AddPayload | client/finalizer/submission_storage.go:51-67 | fills the signer's empty slot once with its weight and index, latches the threshold, and errs exactly for strangers |
| Submissions.MessageData.Copy | client/finalizer/submission_storage.go:141-149 | a fresh snapshot of slots, weight and policy without the latch |
| Submissions.SubmissionStorage.Locate | client/finalizer/submission_storage.go:82-98 | the message under the inner ids and hash, created for the given policy if missing; other messages untouched |
| Submissions.SubmissionStorage.Add | client/finalizer/submission_storage.go:75-110 | changes only the payload's message, errs exactly for strangers, and reports exactly when the latch is set by this call |
| Submissions.SubmissionStorage.Get | client/finalizer/submission_storage.go:112-130 | a snapshot of the stored message, or nil exactly when there is none |
| Submissions.SubmissionStorage.RemoveVotingRoundIds | client/finalizer/submission_storage.go:132-139 | exactly the messages of the listed rounds are gone |
| SubmissionRuns.WithPayloadGood | client/finalizer/submission_storage.go:51-67 | adding a payload keeps the weight equal to that of the filled slots, without wrap, and each slot its own voter's |
| SubmissionRuns.ReachableIsGood | client/finalizer/submission_storage.go:51-139 | the same in every state reachable by additions and removals |
| SubmissionRuns.ReportsExactlyAtThreshold | client/finalizer/submission_storage.go:51-110 | an addition reports if and only if it fills a new slot of an unlatched message and brings the weight of the filled slots above the threshold |
| SubmissionRuns.ReportedAtMostOnce | client/finalizer/submission_storage.go:51-110 | over any additions with any thresholds a key whose round is not removed is reported at most once, and exactly if its latch is set |
| SubmissionRuns.LatchedIsAbove | client/finalizer/submission_storage.go:51-110 | a latched message weighs more than the least threshold it was judged by |
| SubmissionRuns.OnlyGrows | client/finalizer/submission_storage.go:51-110 | a message whose round is not removed keeps its policy, its filled slots and its latch |
| SubmissionRuns.AddedStaysStored | client/finalizer/submission_storage.go:51-110 | from an addition on its signer's slot is filled until the round is removed |
| SubmissionRuns.ViewDependsOnSet | client/finalizer/submission_storage.go:51-110 | what is stored for a key whose round is not removed follows from the set of payloads added for it and the policy of the first, whatever their order, repetition and thresholds |
| SubmissionRuns.StoredWasAdded | client/finalizer/submission_storage.go:75-110 | a stored key was added |
| SubmissionRuns.StoredIsAuthentic | client/finalizer/submission_storage.go:75-110 | stored payloads are authentic if all added ones are |
| Greedy.ListWeightIsSetWeight | client/finalizer/finalizer_queue.go:179-188 | the running weight is that of the set taken so far, so never above the total |
| Greedy.FirstAreHeaviest | client/finalizer/finalizer_queue.go:174-177 | no set of n stored signatures outweighs the first n in decreasing order |
| Greedy.GreedyOptimal | client/finalizer/finalizer_queue.go:167-188 | no smaller set of stored signatures exceeds the threshold; if the cut never happens no set does |
| Greedy.CutReaches | client/finalizer/finalizer_queue.go:179-188 | the cut list exceeds the threshold if and only if all stored signatures together do; otherwise it is all of them |
| Quorum.CollectPayloads | client/finalizer/finalizer_queue.go:167-172 | lists every filled slot once |
| Quorum.SortByWeight | client/finalizer/finalizer_queue.go:174-177 | a permutation in decreasing order of weight |
| Quorum.Cut | client/finalizer/finalizer_queue.go:179-188 | the shortest prefix above the threshold, or everything, with a 16-bit sum that never wraps |
| Quorum.SortByIndex | client/finalizer/finalizer_queue.go:190-193 | a permutation in increasing order of index |
| Quorum.SelectPayloads | client/finalizer/finalizer_queue.go:167-193 | stored payloads strictly increasing by voter, above the policy threshold if all stored ones are, and no smaller set of stored signatures is above it |
| Relay.EncodeForRelay | client/finalizer/finalizer_utils.go:140-163 | succeeds if and only if there are at most 65535 payloads with strictly increasing non-negative indices |
| Relay.RelayLayout | client/finalizer/finalizer_utils.go:140-163 | the bytes have length 2+67k and give back the count, every signature and every index |
| FinalizerQueue.Queue.Add | client/finalizer/finalizer_queue.go:71-76 | appends at the back |
| FinalizerQueue.Queue.Pop | client/finalizer/finalizer_queue.go:78-90 | takes from the front, or nil when empty |
| FinalizerQueue.SubmitPayloads | client/finalizer/relay_utils.go:148-163 | sends a call if and only if the payloads can be encoded and there is one |
| FinalizerQueue.CallSlices | client/finalizer/relay_utils.go:153-163 | the call is the selector, then the policy's bytes, then the first message, then the count and the signature list |
| FinalizerQueue.CallRecord | client/finalizer/relay_utils.go:153-163 | record j of the call holds signature and index of payload j |
| FinalizerQueue.ProcessItem | client/finalizer/finalizer_queue.go:158-196 | nothing for an unknown key; otherwise a best selection of the stored payloads, sent whenever there is any; above the threshold the bytes sent are a safe call |
| FinalizerQueue.QuorumSafety | client/finalizer/finalizer_queue.go:158-196 | stored weight above the threshold gives distinct voters above the threshold, each with a valid signature on the relayed message, and a list of length 2+67k |
| FinalizerQueue.CallIsSafe | client/finalizer/finalizer_queue.go:158-196 | read by offsets, the bytes are selector, stored policy, a message, and records in increasing order of voter, each a signature by that voter on that message, with weight above the threshold |
| FinalizerQueue.OneMessagePerKey | client/finalizer/submission_storage.go:82-98 | all payloads of a key carry one message, or exhibit two messages with one hash |
| Finalizer.RetryExactlyWhenNeeded | client/finalizer/finalizer_client.go:189-222 | an error if and only if the policy list is empty and some item passes the round filters, and then nothing was stored or queued |
| Finalizer.ClassifiedExactly | client/finalizer/finalizer_client.go:189-247 | stored if and only if start <= round <= current round and the oldest policy starts at or before the round, under the looked-up policy and its threshold in force; rejected if and only if the first holds and there is no policy |
| Finalizer.ProcessedAddsExactly | client/finalizer/finalizer_client.go:189-222 | an accepted submission adds exactly its items meeting that condition, in order |
| Finalizer.FinalizerClient.SigningPolicyData | client/finalizer/finalizer_client.go:224-241 | the looked-up policy with its threshold, or 60% of the total for the last policy once its epoch is over |
| Finalizer.FinalizerClient.StorePayload | client/finalizer/finalizer_client.go:210-219 | stores the payload and, exactly if the storage reports, queues the policy's seed with the item's outer ids and hash |
| Finalizer.FinalizerClient.ProcessSubmissionData | client/finalizer/finalizer_client.go:189-222 | fails if and only if there is no policy and some item is in time, changing nothing; otherwise adds exactly the items with start <= round <= current round and not before the oldest policy |
| Finalizer.FinalizerClient.RewardEpochCleanup | client/finalizer/finalizer_client.go:249-260 | drops the expired policies and the stored rounds numbered like their reward epochs |
| Listener.SubmissionListener.Handle | client/finalizer/submission_utils.go:65-90 | one transaction: processed if it has items, cursor one second before it unless rejected |
| Listener.SubmissionListener.Tick | client/finalizer/submission_utils.go:59-90 | a batch in order up to the first rejection |
| Listener.ItemsExactly | client/finalizer/submission_utils.go:66-79 | a transaction hands over the whole list of authentic items whose encoding follows its selector, or none if there is no such list |
| Listener.TickPasses | client/finalizer/submission_utils.go:65-90 | passes exactly the transactions before the first rejected one and leaves the cursor one second before the last of them |
| Pipeline.NextSound | client/finalizer/submission_utils.go:49-91 | every event keeps storage equal to its history and the queue what is left of all queued items |
| Pipeline.LosesNothing | client/finalizer/submission_utils.go:49-91 | in every run each visible transaction after the start and up to the cursor was passed on, if the indexer appends in timestamp order |
| Pipeline.CursorNeverMovesBack | client/finalizer/submission_utils.go:65-90 | no event moves the cursor back |
| Pipeline.RejectedStaysAhead | client/finalizer/submission_utils.go:80-89 | a rejected transaction and all after it in its batch stay ahead of the cursor |
| Pipeline.RejectedIsFetchedAgain | client/finalizer/submission_utils.go:49-91 | at the end of every run each transaction that was ever fetched has been passed on, or is in every fetch that reaches its timestamp |
| Pipeline.QueuedAtMostOnce | client/finalizer/finalizer_client.go:189-222 | over any run a message whose round is not removed is queued at most once, and exactly if its threshold was reached, whatever ids surround it |
| Pipeline.HashQueuedAtMostOnce | client/finalizer/finalizer_client.go:189-222 | the same counted by the hashes in the queue items, up to a collision |
| Pipeline.QueuedKeyIsFound | client/finalizer/finalizer_queue.go:158-165 | the key a queue item names is in storage if and only if the ids around its message agree with those inside, up to a collision |
| Pipeline.MislabelledIsStranded | client/finalizer/finalizer_queue.go:158-165 | otherwise the message is latched, its one queue item names a key not in storage, and no other one is ever made, up to a collision |
| Pipeline.MislabelledRun | client/finalizer/finalizer_client.go:210-219 | such runs exist for every well-formed item with disagreeing ids signed by a voter heavier than the threshold |
| Pipeline.QueuedItemHasQuorum | client/finalizer/finalizer_queue.go:158-165 | the message of a queue item whose ids agree is in storage, with a weight above its policy threshold unless it was judged by a lower one |
| Pipeline.RelayedQuorumIsSafe | client/finalizer/finalizer_queue.go:158-196 | quorum safety in every reachable state of the whole pipeline |
| Pipeline.RelayedCallIsSafe | client/finalizer/relay_utils.go:153-163 | the same of the bytes of the relay call |
| Delivery.PassedItemIsStored | client/finalizer/submission_utils.go:65-90 | every item of a transaction passed on, in time and under a policy, has its message in storage with its signer's slot filled from then on, until the round is removed |
| Delivery.SentIsStored | client/protocol/submitter.go:219-271 | so has every sub-protocol in a transaction a submitter sent, under the ids and hash of the bytes it signed |
| Redelivery.StoresExactlyTheDue | client/finalizer/submission_storage.go:51-110 | after any run a key has the policy of the first item due for it, and exactly the slots and weight of the voters who signed one, in the transactions passed on |
| Redelivery.RedeliveryIsHarmless | client/finalizer/submission_utils.go:49-91 | after any run presence, policy, filled slots and weight of a key are those of handing each passed transaction to the storage once, where it was first passed on |
| Redelivery.ReorderingIsHarmless | client/finalizer/submission_utils.go:49-91 | in any order, if the items due for the key name one policy |
| Redelivery.DueOnce | client/finalizer/submission_utils.go:65-90 | passing a transaction on again changes nothing that is due |
| Redelivery.DueDependsOnSet | client/finalizer/submission_utils.go:65-90 | under one policy what is due for a key depends only on the set of transactions |
| HexOrder.HexAntisymmetric | utils/merkle/merkle.go:46-49 | hex order ties no two different hashes |
| HexOrder.HexIsNumeric | utils/merkle/merkle.go:46-49 | hex order of hashes is the order of the numbers they stand for |
| Merkle.PairBytesSymmetric | utils/merkle/merkle.go:84-91 | the pair hash does not depend on the order of its arguments |
| Merkle.PairInOrder | utils/merkle/merkle.go:84-91 | of a pair the smaller number is hashed first |
| Merkle.PairBytesInjective | utils/merkle/merkle.go:84-91 | the hashed bytes determine the unordered pair |
| Merkle.FillTree | utils/merkle/merkle.go:51-59 | leaves behind n-1 inner nodes, each the pair hash of its children |
| Merkle.Build | utils/merkle/merkle.go:40-60 | a tree whose leaves are the sorted (hashed) inputs and whose node i hashes nodes 2i+1 and 2i+2, the smaller number first; without initial hashing the caller's slice is sorted in place |
| Merkle.GetProof | utils/merkle/merkle.go:137-152 | the siblings on the way up, or an error exactly for an invalid index |
| Merkle.BinarySearch | utils/merkle/merkle.go:168-179 | a position of the hash, or an error exactly if it is no leaf |
| Merkle.GetProofFromHash | utils/merkle/merkle.go:159-166 | a proof of a position holding the hash, if and only if it is a leaf |
| Merkle.VerifyProof | utils/merkle/merkle.go:181-189 | accepts exactly if the running hash ends at the root |
| Merkle.ProofComplete | utils/merkle/merkle.go:137-189 | every node's proof verifies against the root |
| Merkle.ProveAndVerify | utils/merkle/merkle_test.go:76-127 | building a tree, proving a hash by value and checking the proof against the root succeeds for exactly the hashes put in (hashed, with initial hashing) |
| Merkle.ProofLength | utils/merkle/merkle.go:137-157 | the proof of position p has length k with 2^k <= p+1 < 2^(k+1) |
| Merkle.VerifySound | utils/merkle/merkle.go:181-189 | an accepted proof is the proof of a node with that value, or a leaf is a pair hash, or two different pairs with one hash are exhibited |
| Merkle.InitialHashSound | utils/merkle/merkle.go:40-60 | with initial hashing, an accepted proof of a hashed value means the value was put in, or two different inputs with one hash are exhibited |
| Merkle.OriginalIsLeaf | utils/merkle/merkle.go:40-60 | with initial hashing, the hash of everything put in is a leaf |
| DelayedQueue.DelayedQueueManager.Add | utils/queue.go:26-38 | ignores past times; otherwise appends the item and starts a timer exactly for a new key |
| DelayedQueue.DelayedQueueManager.Get | utils/queue.go:40-47 | takes the items of the key out of the map |
| DelayedQueue.DelayedQueueManager.Fire | utils/queue.go:49-58 | an outstanding timer takes its key's items |
| DelayedQueue.Conservation | utils/queue.go:26-58 | in every interleaving each key has exactly one timer, and the items accepted for it are those delivered followed by those waiting |
| DelayedQueue.Drained | utils/queue.go:26-58 | without outstanding timers everything accepted has been delivered |
| DelayedQueue.FiringDelivers | utils/queue.go:49-58 | a timer that can fire has items to deliver |

## Left out

- VoterSets.SampleUntil: bounded by a number of draws, because whether the loop ends depends on the hash chain; it says for every seed and every bound whether the loop has ended and with what.
- VoterSets.RandomSelectThresholdWeightVoters: bounded in the same way.
- Redelivery.RedeliveryIsHarmless: for a key whose own items are classified alike each time they are not rejected, and whose round is not removed; other keys are unrestricted.
- Interleavings inside one `ProcessSubmissionData` call or one cleanup with other goroutines: each is one event of a run.
- Writing `index` into a `signedPayload` is visible only in the stored copy: payloads are values.
- `tx.Input` is taken as the bytes hex decoding returns.
- `InitialHashSeed`, `SelectVoters` and `isVoterForCurrentEpoch`: they only pass arguments to the sampling.
- `signingPolicy.Encode`: the seed is written with minimal length, so there is no fixed layout to read back.
- The filter of already relayed items: it compares entries built without a seed and with another hash, so nothing is claimed of it.
- When the 60% threshold starts: the code passes a reward epoch where a voting round is expected, so it is an arbitrary input.
- `BuildFromHex`, `NewFromHex`: parsing of hex strings into hashes. `New` and `Tree`: trees are node lists, and one not made by `Build` is covered only where no well-formedness is required. `GetHash`: reading leaf i.
- Contract bindings, transaction sending, gas, HTTP, database access, configuration, logging, metrics, the epoch clients and the first two submitters.
