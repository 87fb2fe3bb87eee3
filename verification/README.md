# QuickDesk: a verified model

QuickDesk is a remote desktop with a C++/Qt client and a Rust server for automation. This project
models the parts of it whose correctness is hardest to see from the code, in Dafny, and proves what
they promise. All statements are for all inputs, all runs or all reachable states.

* **AES** (`Aes*.dfy`): the software path of `QAESEncryption`. Bytes are `bv8`. The functions follow
  FIPS 197 and NIST SP 800-38A; the class `QAesEncryption` has the source's loops over the 16-byte
  state array and over growing byte arrays and is proved against the functions. The inverse is built
  up in layers: tables, rows, columns, rounds for any number of rounds, mode loops over any length,
  padding. The column mix is proved from linearity and the cancellation of the two matrices.
* **Pending tables** (`PendingTable.dfy`, `TrustConfirmation.dfy`, `SkillRequests.dfy`): worker
  threads publish pointers to their own variables in a shared map, other threads write through them.
  A transition system with a step per lock, check, wait, write, wake-up, removal and unlock, and with
  timeouts and spurious wake-ups, is shared by the trust and the skill handler.
* **WebSocket client** (`WsClient.dfy`, `WsCalls.dfy`): calls, attempts, connections and reader tasks as a transition
  system, with stale readers that clear the shared slot after a newer connection was put there.
* **Device order** (`DeviceSort.dfy`): the tokenising comparator and the sort.
* **Event bus** (`EventBus.dfy`, `EventWait.dfy`, `Json.dfy`): bounded history, queries, and
  `wait_for` against any number of publishers.
* **OCR cache, rate limiter, polling loops** (`OcrCache.dfy`, `RateLimiter.dfy`, `Polling.dfy`): each
  bounded or pruned structure is compared with the unbounded one it stands for, and each loop has its
  exact number of polls and time.
* **Trust gate and workflow replay** (`Trust.dfy`, `Workflow.dfy`).

`Options.dfy` and `Sequences.dfy` are shared helpers.

## Where the code differs from what one would expect

* An attempt can stay unanswered although the reader of its connection is gone
  (quickdesk-mcp/src/ws_client.rs:62-70): the reader is started before the connection is put in the
  shared slot, and if it ends before that, a dead connection is installed and stays in the slot until
  another connection or another reader's exit displaces it. `WsClient.DeadOnArrivalStrands` gives the
  run. `WsClient.StrandsExactly` is the exact condition, known when the request is registered: the
  reader of the connection found in the slot is gone already. `WsClient.UnansweredExactly`,
  `WsClient.DeadNeverAnswered` and `WsClient.UnansweredUntilReplaced` say what becomes of such attempts.
* `waitForText` does not look at the screen after its last sleep unless the timeout is a multiple of
  200 ms (`ScreenText.LastLook`). An empty text to wait for is judged by the first block alone
  (`ScreenText.FoundExactly`). `verifyActionResult` never reports a timeout as such.
* Request ids come from 32-bit counters; ids of two calls are equal exactly when the counter went round
  in between (`PendingTable.IdsCollideExactly`), and `PendingTable.IdsCanCollide` gives a run after
  which two running calls share an id and the first can no longer be resolved. That entries are live
  and results carry a call's own id holds even then.
* Zero and ISO unpadding read before the start of the array when there is no byte that is not zero;
  the model returns `None` there. ISO padding adds nothing to aligned text. `AES192.expandedKey` is
  209 in the header and unused; the schedule has 208 bytes.
* The header of `OcrCache` calls it LRU; it evicts in order of arrival
  (`OcrCache.RenewalDoesNotProtect`).
* A history of size 0 still holds one event (`EventBus.Bus.Publish`).

## Model

| member | source | states |
|---|---|---|
| `AesField.MultiplySelects` | QuickDesk/base/qaesencryption.cpp:87-90 | `multiply` by 09, 0b, 0d, 0e adds up the doublings that the bits of the constant select |
| `AesField.XTimeLinear` | QuickDesk/base/qaesencryption.cpp:82-85 | `xTime` distributes over xor |
| `AesField.FieldProductBy02` | QuickDesk/base/qaesencryption.cpp:82-85 | `xTime` is multiplication by x in GF(2^8), polynomial product modulo 0x11b |
| `AesField.MultipliersLinear` | QuickDesk/base/qaesencryption.cpp:82-90 | multiplication by every matrix constant distributes over xor |
| `AesColumn.MixIsMatrixProduct` | QuickDesk/base/qaesencryption.cpp:325-346 | a mixed column is the matrix product of section 5.1.3 of FIPS 197 in the field |
| `AesColumn.InvMixIsMatrixProduct` | QuickDesk/base/qaesencryption.cpp:351-366 | an inversely mixed column is the matrix product of section 5.3.3 of FIPS 197 |
| `AesColumn.SharedMix` | QuickDesk/base/qaesencryption.cpp:325-346 | one shared sum and one doubling per byte give the mixed column |
| `AesColumn.InvMixUndoesMix` | QuickDesk/base/qaesencryption.cpp:325-366 | the inverse mix undoes the mix on every column, from linearity |
| `AesTables.SBoxesInverse` | QuickDesk/base/qaesencryption.h:180-217 | the two tables are inverse permutations of the bytes |
| `AesTables.SBoxIsAffineInverse` | QuickDesk/base/qaesencryption.h:180-197 | every entry is the affine image of the field inverse of its index |
| `AesTables.RconIsDoublings` | QuickDesk/base/qaesencryption.h:222-224 | from 1 on each round constant is the double of the one before |
| `AesCipher.ShiftRowsBytes` | QuickDesk/base/qaesencryption.cpp:294-321 | row r of the state moves r columns to the left |
| `AesCipher.InvShiftRowsUndoesShiftRows` | QuickDesk/base/qaesencryption.cpp:294-405 | moving the rows back restores every state |
| `AesCipher.InvSubBytesUndoesSubBytes` | QuickDesk/base/qaesencryption.cpp:284-375 | the inverse substitution restores every state |
| `AesCipher.InvMixColumnsUndoesMixColumns` | QuickDesk/base/qaesencryption.cpp:325-366 | the inverse column mix restores every state |
| `AesCipher.AddRoundKeyUndoesItself` | QuickDesk/base/qaesencryption.cpp:275-282 | adding a round key twice restores every state |
| `AesCipher.InvRoundsUndoRounds` | QuickDesk/base/qaesencryption.cpp:421-476 | by induction on the round number, the inverse rounds lead back to the initial state |
| `AesCipher.InvCipherUndoesCipher` | QuickDesk/base/qaesencryption.cpp:421-476 | decryption undoes encryption for every block, any number of rounds and any long enough string of round keys |
| `AesRounds.RoundColumns` | QuickDesk/base/qaesencryption.cpp:421-448 | every column of every round is the matrix product of a substituted diagonal plus word 4k + j of the schedule, and the last round leaves out the product |
| `AesRounds.KeyByteMatters` | QuickDesk/base/qaesencryption.cpp:275-282 | for every block, changing any one byte of any round key used changes the result; in the last round key just that byte, by the same difference |
| `AesRounds.ScheduleRecurrence` | QuickDesk/base/qaesencryption.cpp:223-270 | the words of the expanded key obey section 5.2 of FIPS 197, with rotation, substitution and round constant, and the extra substitution of the longest key |
| `AesVector.CipherAnswer` | QuickDesk/base/qaesencryption.cpp:421-448 | the key and block of Appendix B of FIPS 197 lead through its round keys and states to its ciphertext |
| `AesVector.KnownAnswer` | QuickDesk/base/qaesencryption.cpp:487-572 | encoding the block of Appendix B gives its ciphertext |
| `AesKeySchedule.ScheduleWordAt` | QuickDesk/base/qaesencryption.cpp:223-270 | every word read from the expanded bytes is the word of the recurrence of section 5.2 of FIPS 197 |
| `AesKeySchedule.ScheduleStartsWithKey` | QuickDesk/base/qaesencryption.cpp:227 | the first bytes of the schedule are the key |
| `AesKeySchedule.RconIsRoundConstant` | QuickDesk/base/qaesencryption.h:219-224 | entry i of the table is x^(i-1) in the field |
| `AesKeySchedule.RconIndex` | QuickDesk/base/qaesencryption.cpp:254 | every index into the table of round constants is in range, for all key sizes |
| `AesModes.EcbRoundTrip` | QuickDesk/base/qaesencryption.cpp:487-663 | ECB with an inverse pair of block functions returns every whole-block text |
| `AesModes.CbcRoundTrip` | QuickDesk/base/qaesencryption.cpp:487-663 | CBC likewise, for every initialisation vector |
| `AesModes.CfbRoundTrip` | QuickDesk/base/qaesencryption.cpp:487-663 | CFB likewise, for any block function |
| `AesModes.OfbRoundTrip` | QuickDesk/base/qaesencryption.cpp:487-663 | OFB applied twice returns the text, for any block function |
| `AesModes.EcbBlocks` | QuickDesk/base/qaesencryption.cpp:500-572 | section 6.1 of NIST SP 800-38A for every block |
| `AesModes.CbcEncryptBlocks` | QuickDesk/base/qaesencryption.cpp:500-572 | section 6.2: each ciphertext block is the cipher of the block plus the ciphertext block before |
| `AesModes.CbcDecryptBlocks` | QuickDesk/base/qaesencryption.cpp:585-663 | section 6.2: each plaintext block is the inverse cipher of the block plus the ciphertext block before |
| `AesModes.CfbEncryptBlocks` | QuickDesk/base/qaesencryption.cpp:500-572 | section 6.3: each ciphertext block is the block plus the cipher of the ciphertext block before |
| `AesModes.CfbDecryptBlocks` | QuickDesk/base/qaesencryption.cpp:585-663 | section 6.3 for decryption |
| `AesModes.OfbBlocks` | QuickDesk/base/qaesencryption.cpp:500-663 | section 6.4: each block plus the vector enciphered once more for each block |
| `AesPadding.RemovePadding` | QuickDesk/base/qaesencryption.cpp:32-71 | the loops compute the unpadding function, with `None` for a read before the array |
| `AesPadding.Pkcs7RoundTrip` | QuickDesk/base/qaesencryption.cpp:143-164 | PKCS7 unpadding gives back every text |
| `AesPadding.ZeroRoundTrip` | QuickDesk/base/qaesencryption.cpp:143-164 | zero unpadding gives back exactly the texts that do not end in a zero byte |
| `AesPadding.IsoRoundTrip` | QuickDesk/base/qaesencryption.cpp:143-164 | ISO unpadding gives back a text exactly when there was room for the marker or nothing in the text passes for one |
| `AesPadding.UnpadPad` | QuickDesk/base/qaesencryption.cpp:32-71 | for all three paddings, the text comes back if and only if it is recoverable |
| `AesPadding.PadBytes` | QuickDesk/base/qaesencryption.cpp:143-164 | every byte that is added and how many, for the three paddings |
| `AesPadding.UnpadBytes` | QuickDesk/base/qaesencryption.cpp:32-71 | what is removed from any array that has a byte other than zero, padded or not |
| `AesPadding.UnpadZeros` | QuickDesk/base/qaesencryption.cpp:32-71 | what happens to an array without such a byte |
| `AesEncryption.DecodeEncode` | QuickDesk/base/qaesencryption.cpp:487-663 | for all key sizes, modes, paddings, keys, vectors and texts, decoding what was encoded gives the padded text |
| `AesEncryption.UnpadDecodeEncode` | QuickDesk/base/qaesencryption.cpp:487-668 | with the padding removed, exactly the recoverable texts come back |
| `AesEncryption.DecryptorUndoesEncryptor` | QuickDesk/base/qaesencryption.cpp:421-476 | with the schedule of any key, the block decryption inverts the block encryption |
| `AesEncryption.EncodedBlocks` | QuickDesk/base/qaesencryption.cpp:487-572 | every block of an encoding, in each mode, in terms of the cipher of the key and the padded text |
| `AesEncryption.EncryptorIsCipher` | QuickDesk/base/qaesencryption.cpp:98-140 | the length of the key gives the number of rounds and the length of the schedule |
| `AesEncryption.GuardExactly` | QuickDesk/base/qaesencryption.cpp:487-580 | which lengths of key and vector are accepted; anything else gives the empty result |
| `AesEncryption.QAesEncryption.ExpandKey` | QuickDesk/base/qaesencryption.cpp:223-270 | the byte-appending loop yields the word schedule; every insertion is at the end and every read inside |
| `AesEncryption.QAesEncryption.TransformTemporary` | QuickDesk/base/qaesencryption.cpp:232-263 | the four temporary bytes become the word that the recurrence adds |
| `AesEncryption.QAesEncryption.AddRoundKey` | QuickDesk/base/qaesencryption.cpp:275-282 | the array is rewritten to the state with the bytes of this round's key added; with `AesRounds.KeyByteMatters` each byte of each round key is used |
| `AesEncryption.QAesEncryption.SubBytes` | QuickDesk/base/qaesencryption.cpp:284-291 | the array is rewritten to the substituted state |
| `AesEncryption.QAesEncryption.InvSubBytes` | QuickDesk/base/qaesencryption.cpp:370-375 | the array is rewritten to the inversely substituted state |
| `AesEncryption.QAesEncryption.ShiftRows` | QuickDesk/base/qaesencryption.cpp:294-321 | the in-place cycles and swaps move row r by r columns |
| `AesEncryption.QAesEncryption.InvShiftRows` | QuickDesk/base/qaesencryption.cpp:377-405 | the in-place cycles and swaps move row r back by r columns |
| `AesEncryption.QAesEncryption.MixColumns` | QuickDesk/base/qaesencryption.cpp:325-346 | the in-place loop with its shared sum rewrites the array to the matrix product |
| `AesEncryption.QAesEncryption.InvMixColumns` | QuickDesk/base/qaesencryption.cpp:351-366 | the in-place loop rewrites the array to the inverse matrix product |
| `AesEncryption.QAesEncryption.Cipher` | QuickDesk/base/qaesencryption.cpp:421-448 | the rounds on the shared array give the cipher of the block |
| `AesEncryption.QAesEncryption.InvCipher` | QuickDesk/base/qaesencryption.cpp:450-476 | the inverse rounds on the shared array give the inverse cipher |
| `AesEncryption.QAesEncryption.EncodeCbc` | QuickDesk/base/qaesencryption.cpp:487-572 | overwriting the text block by block with what enters the cipher computes CBC |
| `AesEncryption.QAesEncryption.DecodeCbc` | QuickDesk/base/qaesencryption.cpp:574-663 | appending each deciphered block and overwriting it in the result computes CBC decryption |
| `AesEncryption.QAesEncryption.EncodeCfb` | QuickDesk/base/qaesencryption.cpp:487-572 | the loop that works one block ahead computes CFB, the empty text included |
| `AesEncryption.QAesEncryption.DecodeCfb` | QuickDesk/base/qaesencryption.cpp:574-663 | the loop that works one block ahead computes CFB decryption |
| `AesEncryption.QAesEncryption.CodeOfb` | QuickDesk/base/qaesencryption.cpp:487-663 | growing the stream and adding it to the text computes OFB |
| `AesEncryption.QAesEncryption.Encode` | QuickDesk/base/qaesencryption.cpp:487-572 | the whole encoding, with the guard on key and vector lengths |
| `AesEncryption.QAesEncryption.Decode` | QuickDesk/base/qaesencryption.cpp:574-663 | the whole decoding, with the guard on key and vector lengths |
| `PendingTable.InvStep` | QuickDesk/src/api/SkillHandler.cpp:73-144 | every step of every worker and writer keeps the invariant of slots, table and locks |
| `PendingTable.EntriesAreLive` | QuickDesk/src/api/TrustHandler.cpp:56-90 | in every reachable state an entry points into a call that has not returned and carries its id |
| `PendingTable.IdsCollideExactly` | QuickDesk/src/api/SkillHandler.cpp:141-144 | two calls share an id exactly when their tickets are a multiple of 2^32 apart |
| `PendingTable.IdsCanCollide` | QuickDesk/src/api/SkillHandler.cpp:111-144 | a reachable state in which two running calls share an id and the entry of the first is overwritten |
| `PendingTable.NoLostWakeup` | QuickDesk/src/api/TrustHandler.cpp:79-85 | a call that waits with its result already written has been signalled |
| `PendingTable.ResolveFinds` | QuickDesk/src/api/TrustHandler.cpp:130-147 | before the counter wraps, resolving the id of a listed call that was not stopped reaches this call |
| `PendingTable.OutcomeIsLastWrite` | QuickDesk/src/api/SkillHandler.cpp:73-139 | a returned result is the last write to the call's slot, by a stop or by a resolver of its own id |
| `PendingTable.WriteDelivers` | QuickDesk/src/api/TrustHandler.cpp:141-146 | a write fills the slot of the call that carries the id with the resolved value, signals it if it waits, and touches no other call |
| `PendingTable.ResolvedIsReturned` | QuickDesk/src/api/SkillHandler.cpp:83-138 | along every run, a resolved value that nothing overwrites is what the call returns |
| `PendingTable.ResolverWrites` | QuickDesk/src/api/TrustHandler.cpp:134-146 | a resolver that takes the table while the call is listed does not finish without writing its value to the call |
| `PendingTable.LeavesAfterWaiting` | QuickDesk/src/api/TrustHandler.cpp:62-97 | a call goes its way in order, gives up without a result only after waiting, and returns what was in its slot when it left the table |
| `PendingTable.RemovedIsFrozen` | QuickDesk/src/api/TrustHandler.cpp:87-97 | once a call has left the table nothing writes to its slot, so its unlocked reads are safe |
| `PendingTable.StopWins` | QuickDesk/src/api/TrustHandler.cpp:104-114 | a call listed at any moment from the stop's locking of the table to its clearing returns the stop value, whatever came before and after |
| `PendingTable.WaitsDescend` | QuickDesk/src/api/TrustHandler.cpp:104-147 | waiting for a mutex goes down a rank, so there is no circle of waiting |
| `PendingTable.UnblockedMoves` | QuickDesk/src/api/SkillHandler.cpp:73-139 | an unfinished thread that waits for no mutex can make a step |
| `PendingTable.NoDeadlock` | QuickDesk/src/api/TrustHandler.cpp:62-147 | while some thread is unfinished, some unfinished thread can make a step |
| `TrustConfirmation.ApprovalIsGenuine` | QuickDesk/src/api/TrustHandler.cpp:22-98 | approved comes only from the auto-approve policy or from an approving resolve of this id that was the last write |
| `TrustConfirmation.EmergencyRefuses` | QuickDesk/src/api/TrustHandler.cpp:100-120 | a confirmation listed while an emergency stop holds the table is refused with that reason, even if already approved |
| `TrustConfirmation.TimeoutMeansUnanswered` | QuickDesk/src/api/TrustHandler.cpp:92-97 | a call has no outcome exactly when nothing was ever written to its slot |
| `TrustConfirmation.DecisionIsDelivered` | QuickDesk/src/api/TrustHandler.cpp:79-147 | a decision of the user that nothing overwrites is the reply, approved or not, with its reason |
| `TrustConfirmation.RepliesWithoutAnswer` | QuickDesk/src/api/TrustHandler.cpp:32-97 | the replies for a missing tool name, under the auto-approve policy, and for a call nothing was written to |
| `SkillRequests.ResponseIsOwn` | QuickDesk/src/api/SkillHandler.cpp:73-139 | a response returned by a call carries the call's own id, in every interleaving |
| `SkillRequests.ResponsesNotSwapped` | QuickDesk/src/api/SkillHandler.cpp:73-144 | until the counter wraps, no two calls return the same response |
| `SkillRequests.ResponseIsDelivered` | QuickDesk/src/api/SkillHandler.cpp:73-139 | a response that arrives for a call, and that nothing overwrites, is what the call returns |
| `WsClient.InvStep` | quickdesk-mcp/src/ws_client.rs:53-204 | every step of calls and readers keeps the invariant of attempts, pending maps, connections and the shared slot |
| `WsClient.ValueIsOwn` | quickdesk-mcp/src/ws_client.rs:108-182 | a value or remote error an attempt ends with came in a frame with its id on its own connection |
| `WsClient.IdsDiffer` | quickdesk-mcp/src/ws_client.rs:113-117 | no two attempts on one connection share an id, so no pending entry is overwritten |
| `WsClient.EndsOnce` | quickdesk-mcp/src/ws_client.rs:134-139 | an attempt's reply and its end never change once given |
| `WsClient.AtMostTwoAttempts` | quickdesk-mcp/src/ws_client.rs:97-106 | a call makes at most one attempt of each kind, so the request is sent at most twice |
| `WsClient.StrandsExactly` | quickdesk-mcp/src/ws_client.rs:61-131 | an attempt can be left unanswered by a reader that is gone, in some run, exactly when the reader of the connection it registers on is gone already |
| `WsClient.UnansweredExactly` | quickdesk-mcp/src/ws_client.rs:142-204 | once its reader is gone, an attempt is unanswered exactly when its connection was dead on arrival and is still in the slot |
| `WsClient.DeadNeverAnswered` | quickdesk-mcp/src/ws_client.rs:122-139 | along every run an attempt on a connection dead on arrival gets no reply and ends only by a failed send, its timeout, or a closed channel after the connection left the slot |
| `WsClient.UnansweredUntilReplaced` | quickdesk-mcp/src/ws_client.rs:69-71 | an unanswered attempt whose reader is gone stays so until a connection is put into the slot or a reader clears it, and is then told that its channel was closed |
| `WsClient.DeadOnArrivalStrands` | quickdesk-mcp/src/ws_client.rs:61-71 | a concrete run: connecting succeeds on a connection that is already dead, and a request is left unanswered |
| `WsCalls.ReceiveDelivers` | quickdesk-mcp/src/ws_client.rs:168-182 | a frame is the reply of the unanswered attempt with its id on its connection, and of no other |
| `WsCalls.CollectTells` | quickdesk-mcp/src/ws_client.rs:134-182 | what an attempt ends with for a frame with an error, with a result and with neither, for a lost connection and for a dropped channel |
| `WsCalls.OtherEndsSay` | quickdesk-mcp/src/ws_client.rs:122-138 | a failed send and an elapsed timeout are reported as such |
| `WsCalls.CallsGoOn` | quickdesk-mcp/src/ws_client.rs:97-140 | a call that has not returned can make a step, or the call that is sending can; what has been told can be collected |
| `WsCalls.ResultsStep` | quickdesk-mcp/src/ws_client.rs:53-140 | every step keeps what calls have behind them in agreement with how their attempts ended |
| `WsCalls.RequestReturnsItsValue` | quickdesk-mcp/src/ws_client.rs:97-106 | a request returns a value exactly when its first or second attempt ended with it |
| `WsCalls.RequestReturnsItsFrame` | quickdesk-mcp/src/ws_client.rs:97-182 | and so the value came in a frame with the id of that attempt on its connection |
| `WsCalls.RequestReportsFailure` | quickdesk-mcp/src/ws_client.rs:97-140 | a failed request reports why the dial, the login or the second attempt failed |
| `WsCalls.FirstFailureDials` | quickdesk-mcp/src/ws_client.rs:98-103 | a first attempt that fails is followed by a dial, one that succeeds ends the call |
| `WsCalls.LoginIsRequired` | quickdesk-mcp/src/ws_client.rs:73-91 | with a token nothing is repeated before an accepted login, and a refused one ends the call as "Authentication failed" |
| `DeviceSort.NaturalLoop` | QuickDesk/qml/util/DeviceSort.js:11-26 | the index loop with early return computes the comparison of token lists |
| `DeviceSort.NaturalIsPreorder` | QuickDesk/qml/util/DeviceSort.js:7-26 | `natural` is antisymmetric in sign and transitive on all strings, and zero exactly on equal folded strings |
| `DeviceSort.TokenTransitive` | QuickDesk/qml/util/DeviceSort.js:14-24 | the comparison of runs is transitive across digit runs and text runs |
| `DeviceSort.TokensAlternate` | QuickDesk/qml/util/DeviceSort.js:12-13 | neighbouring tokens are of different kinds, so runs are maximal |
| `DeviceSort.JoinTokens` | QuickDesk/qml/util/DeviceSort.js:12-13 | the tokens together are the string |
| `DeviceSort.NumbersByValue` | QuickDesk/qml/util/DeviceSort.js:16-19 | digit runs of any length are ordered by the numbers they write, then by fewer leading zeros |
| `DeviceSort.CleanTrims` | QuickDesk/qml/util/DeviceSort.js:4-6 | `clean` takes off blanks at both ends and nothing else |
| `DeviceSort.FoldMeans` | QuickDesk/qml/util/DeviceSort.js:7-9 | `fold` turns the capitals A to Z into small letters and nothing else |
| `DeviceSort.LexicalMeans` | QuickDesk/qml/util/DeviceSort.js:10 | a proper beginning, or the smaller unit at the first difference, comes first |
| `DeviceSort.NaturalDecides` | QuickDesk/qml/util/DeviceSort.js:11-26 | the first tokens that differ decide, and the string whose tokens run out first comes first |
| `DeviceRows.RowOrder` | QuickDesk/qml/util/DeviceSort.js:27-35 | the row comparator is a consistent comparator; its ties are rows of equal presence, folded name and cleaned id |
| `DeviceRows.CompareMeansOrder` | QuickDesk/qml/util/DeviceSort.js:31-34 | online before offline outside the favourites, then the natural order of the shown text, then the id |
| `DeviceRows.ShownText` | QuickDesk/qml/util/DeviceSort.js:27-29 | the remark except among favourites, then the device name, then the id |
| `DeviceRows.SortedIsCanonical` | QuickDesk/qml/util/DeviceSort.js:30-36 | two sorted arrangements of the same rows are tied at every place, whatever order the rows came in |
| `DeviceRows.StableSortUnique` | QuickDesk/qml/util/DeviceSort.js:30-36 | a stable sort has only one possible result |
| `DeviceRows.SortIsPermutation` | QuickDesk/qml/util/DeviceSort.js:30-36 | the result holds each row as often as the input |
| `DeviceRows.SortRowsSorts` | QuickDesk/qml/util/DeviceSort.js:30-36 | a stable sort exists for every input |
| `DeviceRows.SortedDeviceRows` | QuickDesk/qml/util/DeviceSort.js:30-36 | a fresh array with the stably sorted rows, online ones first, then by shown text, then by id; the array given is unchanged and a missing one counts as empty |
| `EventBus.MatchesFilter` | quickdesk-mcp/src/event_bus.rs:165-177 | in any order of keys the loop decides whether data has every key of the filter with an equal value |
| `EventBus.MatchesIsPreorder` | quickdesk-mcp/src/event_bus.rs:165-177 | matching is reflexive and transitive |
| `EventBus.MatchesExactly` | quickdesk-mcp/src/event_bus.rs:165-177 | an object matches a filter exactly when merging the filter into it changes nothing; anything else only itself |
| `EventBus.WantedExactly` | quickdesk-mcp/src/event_bus.rs:107-114 | an event is wanted for its type and, with a filter, for its data |
| `EventBus.FilterKeeps` | quickdesk-mcp/src/event_bus.rs:76-79 | filtering keeps each event of the type as often as it is there and drops all others |
| `EventBus.RecentIsLastMatching` | quickdesk-mcp/src/event_bus.rs:72-87 | reverse, filter, take, reverse yields the last `limit` events of the type in order |
| `EventBus.Bus.Publish` | quickdesk-mcp/src/event_bus.rs:53-63 | after every publish the history is the last max(1, max_history) of all events published |
| `EventBus.Bus.RecentEvents` | quickdesk-mcp/src/event_bus.rs:72-87 | the last `limit` events of the type among those still held, of all ever published |
| `EventBus.Bus.SearchHistory` | quickdesk-mcp/src/event_bus.rs:105-121 | the search from the newest finds the last wanted event of the history |
| `EventWait.InvStep` | quickdesk-mcp/src/event_bus.rs:53-160 | every step of publishers and waiter keeps the invariant of log, channel and cursor |
| `EventWait.MissedOnlyByEvictionOrLag` | quickdesk-mcp/src/event_bus.rs:95-160 | with `check_history` a wanted event is missed only by eviction before the read or by receiver lag |
| `EventWait.NothingMissed` | quickdesk-mcp/src/event_bus.rs:95-160 | within the sizes of history and channel, a waiter that has received everything has returned |
| `EventWait.ReturnedIsWanted` | quickdesk-mcp/src/event_bus.rs:105-145 | the returned event is the newest wanted one of the history read, or the first wanted one received |
| `EventWait.OnlyNewEvents` | quickdesk-mcp/src/event_bus.rs:95-160 | without `check_history` no event sent before the subscription is returned |
| `EventWait.SentBeforeIsNotReturned` | quickdesk-mcp/src/event_bus.rs:102-145 | without `check_history`, no run after the subscription returns an event sent by then |
| `EventWait.MissedAfterRead` | quickdesk-mcp/src/event_bus.rs:105-160 | in any run after the history was read, a wanted event is missed only if it was no longer in the history read or was lost to lag |
| `EventWait.ReceiveExactly` | quickdesk-mcp/src/event_bus.rs:132-150 | a receiver more than 256 events behind loses just those it cannot get; any other gets the next event |
| `EventWait.WaiterGoesOn` | quickdesk-mcp/src/event_bus.rs:95-160 | a waiter that has not returned can go on whatever the publishers do |
| `OcrCache.AfterKeepsConsistent` | QuickDesk/src/api/OcrCache.cpp:23-46 | every operation keeps the queue free of duplicates, equal to the set of keys and at most 30 long |
| `OcrCache.CacheIsWindow` | QuickDesk/src/api/OcrCache.cpp:14-46 | after any operations the cache is the last 30 arrivals of the unbounded map of puts, each with its latest result |
| `OcrCache.RenewalDoesNotProtect` | QuickDesk/src/api/OcrCache.cpp:27-36 | putting the oldest key again does not save it from the next eviction |
| `OcrCache.HitIsRecognition` | QuickDesk/src/api/ApiHandler.cpp:833-872 | in any interleaving of the call sites a hit is what direct recognition of the frame gives |
| `OcrCache.Table.Get` | QuickDesk/src/api/OcrCache.cpp:14-21 | the cached result of a key that is not empty |
| `OcrCache.Table.Put` | QuickDesk/src/api/OcrCache.cpp:23-40 | the eviction loop removes the oldest arrival at most once, and the new state is valid |
| `OcrCache.Table.Clear` | QuickDesk/src/api/OcrCache.cpp:42-46 | the cache is empty and valid |
| `OcrCache.Table.Size` | QuickDesk/src/api/OcrCache.cpp:48-51 | the length of the queue, at most 30 |
| `OcrCache.RunOcr` | QuickDesk/src/api/UiStateService.cpp:57-69 | the result is the direct recognition of the frame; the flag tells whether it was cached |
| `RateLimiter.Limiter.CheckRateLimit` | QuickDesk/src/api/SecurityManager.cpp:89-110 | the pruning loop decides and leaves the lists as the specification says |
| `RateLimiter.Limiter.RemoveClient` | QuickDesk/src/api/SecurityManager.cpp:126-129 | only that client's list is dropped |
| `RateLimiter.DecidesAsHistory` | QuickDesk/src/api/SecurityManager.cpp:89-129 | with a clock that does not go back every decision counts the accepted requests of the last 60000 ms since the last removal, under changing limits too |
| `RateLimiter.WindowBound` | QuickDesk/src/api/SecurityManager.cpp:89-129 | no closed window of 60000 ms between removals holds more requests accepted under a limit than the greatest limit |
| `RateLimiter.LimitIsLastSet` | QuickDesk/src/api/SecurityManager.cpp:85-87 | the limit in force is the one set last |
| `RateLimiter.ClientsIndependent` | QuickDesk/src/api/SecurityManager.cpp:94-108 | a client's list is what it would be if no other client had called |
| `ScreenText.FirstHit` | QuickDesk/src/api/UiStateService.cpp:73-86 | the first block that matches, none before it matching |
| `ScreenText.ContainsExactly` | QuickDesk/src/api/UiStateService.cpp:78-82 | a text contains another that stands in it somewhere, character by character, in any case if the case is ignored |
| `ScreenText.HitsExactly` | QuickDesk/src/api/UiStateService.cpp:78-84 | when a block is hit, for exact and partial search, with and without case |
| `ScreenText.FoundBlockIsFirst` | QuickDesk/src/api/UiStateService.cpp:73-86 | the block given is the first that is hit, or an empty one |
| `ScreenText.FoundExactly` | QuickDesk/src/api/UiStateService.cpp:153-157 | a text that is not empty is found exactly when some block matches; the exact condition for the empty text |
| `ScreenText.LastLook` | QuickDesk/src/api/UiStateService.cpp:145-164 | when the last poll of each loop takes place, and for which timeouts the two agree |
| `ScreenText.ElapsedFits` | QuickDesk/src/api/VerificationService.cpp:205-207 | the 32-bit counter of elapsed time does not overflow exactly for timeouts up to 2147483600 |
| `Verification.Evaluate` | QuickDesk/src/api/VerificationService.cpp:88-156 | a condition passes exactly when it holds of the screen; an unknown kind fails |
| `Verification.KindsMean` | QuickDesk/src/api/VerificationService.cpp:98-150 | when each of the five kinds of condition passes, in terms of where its value stands on the screen |
| `Verification.OtherKindsFail` | QuickDesk/src/api/VerificationService.cpp:151-153 | a condition of any other kind fails |
| `Verification.ActualIsFirstMatch` | QuickDesk/src/api/VerificationService.cpp:98-117 | the text reported is that of the first matching block |
| `Verification.EvaluateAll` | QuickDesk/src/api/VerificationService.cpp:180-186 | one pass collects all results and tells whether all conditions hold |
| `Verification.VerifyActionResult` | QuickDesk/src/api/VerificationService.cpp:162-209 | exact polls, sleep and report: at most ceil(T/200)+1 polls, all the time slept when it runs out, and results of one screen |
| `Verification.PassesExactly` | QuickDesk/src/api/VerificationService.cpp:162-209 | success exactly when all conditions hold on one single screen at some poll within the time |
| `TextWait.WaitForText` | QuickDesk/src/api/UiStateService.cpp:135-168 | at most floor(T/200)+1 polls, stopping at the first screen with the text; giving up takes all polls and all the time |
| `Trust.AssessRisk` | quickdesk-mcp/src/trust.rs:272-335 | the nested loops find High exactly when some dangerous pattern matches, and list all matches in order |
| `Trust.DangerReasonsExactly` | quickdesk-mcp/src/trust.rs:292-318 | there are reasons exactly when some entry of the policy matches the arguments |
| `Trust.DangerousExactly` | quickdesk-mcp/src/trust.rs:292-305 | arguments are dangerous exactly when a string argument contains a pattern of an entry for the tool, lower-cased |
| `Trust.ReasonsAreMatches` | quickdesk-mcp/src/trust.rs:299-310 | the reasons listed are the matching patterns, all of them and nothing else |
| `Trust.BaseRiskExactly` | quickdesk-mcp/src/trust.rs:337-354 | which tools have which base risk |
| `Trust.DefaultPolicyAsks` | quickdesk-mcp/src/trust.rs:61-107 | under the default policy the user is asked about exactly the tools of medium and high base risk |
| `Trust.CheckTrustAndConfirm` | quickdesk-mcp/src/server.rs:1412-1471 | the decision and audit entry, with the policy read anew at each use |
| `Trust.GateExactly` | quickdesk-mcp/src/server.rs:1412-1471 | under policies that change between its reads, the exact condition for passing |
| `Trust.RiskExactly` | quickdesk-mcp/src/trust.rs:272-318 | when a call is of critical, high and medium risk |
| `Trust.GatePassesExactly` | quickdesk-mcp/src/server.rs:1412-1471 | under one policy, the exact condition for passing in terms of the lists, the patterns, the tools by risk, and a field "approved" that is true |
| `Trust.DangerNeedsApproval` | quickdesk-mcp/src/server.rs:1424-1470 | under changing policies, a dangerous or blocked call passes only with an answer whose field "approved" is true |
| `Trust.ApprovalExactly` | quickdesk-mcp/src/server.rs:1446-1449 | an approval is an object whose field "approved" is true |
| `Trust.RefusalSays` | quickdesk-mcp/src/server.rs:1415-1470 | why a call is refused, in which order the reasons are tried, and the audit entry |
| `Trust.StricterNeverLower` | quickdesk-mcp/src/trust.rs:272-318 | a stricter policy never lowers a level |
| `Workflow.ApplyOverrides` | quickdesk-mcp/src/workflow.rs:224-231 | in any order of the overrides exactly the existing keys get their values |
| `Workflow.OverriddenMeans` | quickdesk-mcp/src/workflow.rs:224-231 | each existing key gets the value of the overrides if these have it and keeps its own otherwise |
| `Workflow.ReplayStepIs` | quickdesk-mcp/src/workflow.rs:222-233 | each call to replay is that of the step at its place, its tool and its keys unchanged |
| `Workflow.OverridesCompose` | quickdesk-mcp/src/workflow.rs:224-231 | overriding keeps the keys, does nothing with no overrides, and composes |
| `Workflow.WorkflowStore.StartRecording` | quickdesk-mcp/src/workflow.rs:85-104 | a device that is being recorded is refused; another gets an empty recording |
| `Workflow.WorkflowStore.RecordStep` | quickdesk-mcp/src/workflow.rs:112-138 | the step is appended with the next number, and nothing happens without a recording |
| `Workflow.WorkflowStore.StopRecording` | quickdesk-mcp/src/workflow.rs:140-171 | the recording ends in all cases and is saved if it has steps and saving works |
| `Workflow.StopExactly` | quickdesk-mcp/src/workflow.rs:146-170 | stopping removes this recording alone and saves it exactly when it has steps and saving works |
| `Workflow.WorkflowStore.BuildReplaySteps` | quickdesk-mcp/src/workflow.rs:213-235 | the calls of the saved steps in order, with overrides applied |
| `Workflow.RecordingIsCaptured` | quickdesk-mcp/src/workflow.rs:85-171 | over any interleaved operations a device's recording holds its calls since the start, numbered from one |
| `Workflow.DelaysAddUp` | quickdesk-mcp/src/workflow.rs:121-135 | the delays of a recording add up to the time from its start to its last step |
| `Workflow.ReplayRepeatsRecording` | quickdesk-mcp/src/workflow.rs:140-235 | replaying a saved recording without overrides repeats the recorded calls exactly |
| `Replay.ReplayLoop` | quickdesk-mcp/src/server.rs:1640-1712 | what is sent is a prefix in order and passed the gate; completed steps, failed step and results are accounted for exactly |
| `Replay.ReplayWorkflow` | quickdesk-mcp/src/server.rs:1630-1713 | a saved workflow is replayed in order with overrides; success exactly when every step succeeds |

## Left out

- AES-NI: the branches under `USE_INTEL_AES_IF_AVAILABLE` use intrinsics that are not part of this model.
- AesPadding.RemovePadding: the count byte of PKCS7 is read as a signed `char`; platforms where `char` is unsigned are not modelled.
- AesEncryption.QAesEncryption.EncodeCbc: byte arrays are values, so sharing of `QByteArray` data between copies is not captured.
- TrustConfirmation.ApprovalIsGenuine: the signal to the user interface and the reading of the confirmation mode are inputs; ids are modelled by their number, without the text before it.
- Parameter parsing and the check that a device is connected in the trust and skill handlers.
- WsClient.InvStep: the model also lets requests begin before `connect` has succeeded and lets `connect` be called again on the same client; that only adds runs.
- WsClient.EndsOnce: whether a send or a dial succeeds is a choice of the environment, and so are timeouts; event frames go to the event bus and do not touch pending requests.
- 64-bit request counters and timestamps are unbounded.
- DeviceRows.SortedDeviceRows: the algorithm of `Array.prototype.sort` is not the engine's own; what holds of any sorted permutation and of any stable sort is proved separately. Rows are values, and a row that is null is not modelled.
- EventWait.NothingMissed: one waiter is modelled, since waiters only read; the error for a closed channel cannot occur while the bus exists.
- OcrCache.RunOcr: the recogniser is a deterministic function and the hash has no collisions among frames with a hash that is not empty; reading frames is not modelled.
- RateLimiter.Limiter.RemoveClient: session activity and permissions are other parts of the class and would add only easy members.
- Verification.VerifyActionResult: the wording of reasons and summaries, the connection checks before recognition, and the overflow of the counter for timeouts beyond those of `ScreenText.ElapsedFits`.
- Case folding and lower-casing of text are arbitrary functions.
- `screenDiffSummary` and `assertScreenState`: they read the same functions once.
- Trust.CheckTrustAndConfirm: audit entries are returned as values and not written to the database; the gate is not atomic with the dispatch, so an emergency that starts in between does not stop a step already let through.
- The emergency flag of `trust.rs` is an input of the gate and of every replay step, so it may be switched at any time; its two setters would add only easy members.
- The confirmation channel of `trust.rs`, which the live path does not use, and the database of policies and audit entries.
- Workflow.WorkflowStore.RecordStep: result summaries, parameterized keys and tags, which replay does not use, and step numbers beyond 32 bits.
- Saving and loading of workflow files is modelled as a map that returns what was saved.
- Real time and scheduling: clocks are inputs, delays and timeouts are nondeterministic.
- Device drivers, user interface, HTTP, tray, translations, memory store and the tool wrappers of the server.
