# bmagent: stores, mailboxes and the sending pipeline, verified

A Dafny model of the stateful core of bmagent, the agent that presents
Bitmessage as IMAP and SMTP. It covers the message folders, the IMAP mailbox
built on them, the pipeline that takes an outgoing message through proof of work
and acks, the proof-of-work queue, and the bookkeeping of the key manager.
`dafny verify dfyconfig.toml` checks all of it.

## How it is built

- **Folders.** `FolderSpec` is the reference: a map from id to (suffix, payload)
  and a counter. `BoltStore.BoltFolder` is the folder in the database: an ordered
  bucket (`Bolt`) with 16-byte big-endian keys (`BigEndian`, `FolderKeys`) next to
  the nested bucket `data`, answered by prefix seeks and cursor walks.
  `MemStore.MemFolder` is the folder in memory with its cached last ids.
  `FolderRuns` compares whole runs, `LastIDs` the last-id query. A callback given
  to `ForEachMessage` is a function that carries its captured variables as a
  state (`FolderSpec.Fold`).
- **Mailbox.** `SequenceNumbers` and `FloatSearch` hold the interpolation search,
  in exact arithmetic and with every operation rounded. `MailboxSpec` says what a
  mailbox shows of its folder, `MailboxWalks` what its walks compute,
  `MailboxFetch` what its queries return, and `Mailboxes.Mailbox` is the object
  with the cached uid list and counters, proved over `BoltFolder`. It searches with
  any probe that is safe for uids below a bound: the exact one for all 32-bit uids,
  the rounded one of the code below 94 906 264.
- **Sending.** `Pipeline` is the transition system over Outbox, Limbo and Sent with
  the proof-of-work orders under way and what a mail client does to the boxes.
  `PipelineInv` proves what holds over all runs, `PipelineMoves` what a step moves,
  `PipelineCount` that messages are conserved, `PipelineMail` that what is stored and
  sent is what the e-mails say, and `PipelineAcks` which ack replies find their message. `Users.User` is the object over three mailboxes whose methods
  take those steps, and `UserRuns` takes it through whole runs.
- **Proof of work.** `PowQueue` is the linked list with its tail pointer,
  `PowSystem` the interleavings of enqueuers and workers, and `PowRuns` takes the list
  through them.
- **Keys.** `KeyManager` is the index of derived keys and the two address lists.

## What the code does differently from its documentation or intent

Each of these is kept as the code has it. Where the intended result holds in
some cases, the lemma named says exactly in which.

- `LastID` of the database folder compares a stored id with the suffix. It gives
  the greatest id of a suffix if and only if at most one id of that suffix exceeds
  the suffix (`LastIDs.SuffixAnswerRight`); a mailbox with four messages is
  answered 3 (`LastIDs.LastIDMissesFourth`).
- The in-memory `ForEachMessage` ignores the suffix and the order. It is sure to
  visit what the contract promises if and only if every message of the range has
  the suffix and there is at most one (`MemStore.MemWalkMeetsContract`,
  `MemStore.MemWalkOutOfOrder`). It also accepts a lower end above the upper one,
  which the database folder refuses.
- The floating-point search does not terminate for uids 1 and 2^54 + 1 when it
  looks for 2^54 (`FloatSearch.FloatProbeStuck`); it is right whenever the spread
  of the uids times the length plus three is below 2^53, which covers 32-bit uids
  in mailboxes of two million messages and all mailboxes with uids below 94 906 264
  (`FloatSearch.FloatProbeSafe`).
- A uid range with upper end 0 is taken as open (`MailboxFetch.UIDRangeRight`), and
  a single uid that is absent makes `MessageSetByUID` panic
  (`MailboxFetch.SetHasNil`).
- A fetch by sequence number passes a uid on as a sequence number; it is right if
  and only if the uid equals the number (`MailboxFetch.FetchSequenceNumberRight`).
- A worker dequeues a second time after each job, so that alone on a queue it
  works on every second order (`PowQueue.Queue.Work`). With nothing more enqueued
  an order may be lost if and only if one is waiting, and a worker is in a round of
  work or a second one is waiting (`PowSystem.LossPossible`).
- An ack is put on record under its hash before the proof of work, with the uid its
  message has in the Outbox (user/process.go:121-124); a reply carries the hash with
  the nonce (server.go:236-237) and is looked up in Limbo. The reply finds the message
  if and only if the hash it carries is on record with the Limbo uid of the message
  (`PipelineAcks.ReplyFinds`). Unless hashes collide, that is so if and only if the
  proof of work left the hash as it was and the two uids are equal
  (`PipelineAcks.ReplyFindsOwn`); any other nonce loses the reply
  (`PipelineAcks.NonceLosesReply`), and so does a message that was sent on account of
  a late key (`PipelineAcks.LateReplyLost`).
- A public key that comes in late makes a second copy of each waiting message that is
  saved; it makes none if and only if no message that gets its turn is saved
  (`PipelineCount.PubkeyTotal`, `PipelineCount.PubkeyDuplicates`).
- `ErrNoAckExpected` cannot come up unless the user puts a message into Limbo, and
  then it can (`PipelineAcks.LimboExpectsAcks`, `PipelineAcks.AppendFoolsReply`).
  Changing the flags of a message takes its ack away (`PipelineAcks.ReflagDropsAck`).
- Deriving an address keeps the lists of imported and derived addresses apart if and
  only if the address is new (`KeyManager.DerivingKeepsPartition`).
- `SendTries` and `AckReceived` are changed on the copy in memory after its last
  save and never reach the store (`PipelineInv.BookkeepingLost`).
- In `saveBitmessage` the error of the insert that replaces a message is assigned
  to a shadowed variable and lost (user/mailbox.go:654-679). The model loses it too;
  that insert cannot fail there short of an input/output error.
- `addNew` drops the error of the save that it makes; the model drops it too.
- `LastUID` is documented for an empty mailbox, and `bitmessagesSinceUID` is used
  only on others: both index out of range on an empty one.

## Model

| member | source | states |
|---|---|---|
| BigEndian.DecodeEncode | store/folder.go:367-369 | a 64-bit id or suffix read back from its key is the one written |
| BigEndian.EncodeOrder | store/folder.go:372-375 | the byte order of big-endian encodings of one width is the order of the numbers |
| FolderKeys.KeyOrder | store/folder.go:365-369 | keys are ordered by id and then by suffix |
| FolderKeys.OneKeyPerId | store/folder.go:371-375 | no bucket ever holds two keys with one id |
| FolderKeys.SeekPresent | store/folder.go:457-465 | the prefix seek lands on the key of the stored message, never on the nested bucket `data` or on another id |
| FolderKeys.SeekAbsent | store/folder.go:458-463 | for an id not stored the seek ends at the end, at `data` or at another id's key, which the code's test rejects |
| FolderKeys.PutHolds | store/folder.go:377 | putting a message under an unused id turns the stored map m into m with that id added |
| FolderKeys.RemoveHolds | store/folder.go:568 | deleting the key found takes exactly that id out of the stored map |
| BoltStore.BoltFolder.Create | store/folder.go:232-261 | a new folder is the empty map with next id 1 |
| BoltStore.BoltFolder.Open | store/folder.go:262-264 | a reopened folder equals the one that was closed, its counter read from the database |
| BoltStore.BoltFolder.InsertNewMessage | store/folder.go:339-388 | answers and changes as the plain map; the persisted and the in-memory counter stay equal; past the last 64-bit id the counter wraps to 0 |
| BoltStore.BoltFolder.InsertMessage | store/folder.go:392-432 | an id is invalid if and only if it is 0 or not yet handed out, a duplicate if and only if it is in use and a message is given; only success changes the stored map, by that one message |
| BoltStore.BoltFolder.GetMessage | store/folder.go:437-478 | returns suffix and payload of the stored message, or not found |
| BoltStore.BoltFolder.DeleteMessage | store/folder.go:546-582 | an id is invalid if and only if it is 0 or not yet handed out, not found if and only if it was handed out and is not in use; success takes exactly that message away |
| BoltStore.BoltFolder.ForEachMessage | store/folder.go:494-542 | the callback is run over the selected messages in increasing id up to its first error; low above high is an error |
| Queries.QueryExact | store/folder.go:480-486 | the messages selected are exactly the stored ones with low <= id <= high and matching suffix (0 for unbounded or any), each once, in increasing id |
| Queries.FoldVisitsPrefix | store/folder.go:491-493 | a walk visits a prefix of the selection: all of it, or up to and including the first message the callback objects to |
| BoltStore.BoltFolder.LastID | store/folder.go:301-335 | per suffix s the smallest id above s if there is one and else the greatest id, and overall the greatest of these |
| LastIDs.SuffixAnswerRight | store/folder.go:317-322 | that is the documented greatest id of the suffix if and only if at most one id of the suffix exceeds it |
| LastIDs.LastAnswerRight | store/folder.go:324-328 | the last id is the greatest id if and only if the suffix of the greatest id meets that condition |
| LastIDs.LastIDMissesFourth | store/data/folder.go:63-65 | with messages 1 to 4 of suffix 2 the answer is 3 |
| MemStore.MemFolder.UpdateLast | store/data/folder.go:109-121 | caches that are the maxima of a message map become the maxima of the map with one more message, whose id may be lower or higher |
| MemStore.UpdatedKeeps | store/data/folder.go:109-121 | after any insert, also of a lower id, the caches equal the maxima recomputed from the map |
| MemStore.MemFolder.InsertNewMessage | store/data/folder.go:123-136 | answers and changes as the plain map, caches right |
| MemStore.MemFolder.InsertMessage | store/data/folder.go:138-156 | the same conditions for an invalid id, a duplicate and success; caches right |
| MemStore.MemFolder.GetMessage | store/data/folder.go:158-169 | answers as the plain map |
| MemStore.MemFolder.DeleteMessage | store/data/folder.go:171-212 | the same conditions for an invalid id, an absent message and success; the backward scan leaves the caches equal to the recomputed maxima |
| MemStore.MemFolder.LastID | store/data/folder.go:105-107 | the greatest id and, for exactly the suffixes in use, the greatest id of each |
| MemStore.MemFolder.ForEachMessage | store/data/folder.go:214-230 | visits each message of the id range once, whatever its suffix, in some order, up to the callback's first error |
| MemStore.MemWalkMeetsContract | store/data/folder.go:214-230 | every visit list that walk may produce is the promised selection in increasing id if and only if every message of the range has the suffix asked for and there is at most one |
| MemStore.MemWalkOutOfOrder | store/data/folder.go:54-56 | two messages of the suffix asked for may be visited in falling order |
| FolderRuns.RepliesRight | store/data/folder.go:8-47 | in every run from a new folder each answer is right, judged by the earlier operations and answers alone: InvalidID exactly for ids not handed out, DuplicateID exactly for ids in use, NotFound exactly for ids not in use, and a get returns the message stored last under the id |
| FolderRuns.SameAnswers | store/data/folder.go:20-66 | on every run of inserts, gets, deletes and reopenings both folders give the same answers, and those are right in that sense |
| FolderRuns.ReplayBolt | store/folder.go:227-293 | from any valid folder, reopened at any points, the database folder follows the plain map |
| FolderRuns.ReplayMem | store/data/folder.go:91-212 | from any valid folder the memory folder follows the plain map |
| FolderRuns.IdsInOrder | store/folder.go:356-375 | the request for a new id at any position of a run succeeds with an id fixed by the number of earlier requests; it never reports a duplicate |
| FolderRuns.IdsIncrease | store/folder.go:383-387 | ids handed out strictly increase over any run with deletes and reopenings (section 2.3.1.1 of RFC 3501) |
| FolderRuns.WrapAround | store/folder.go:358-384 | at the last 64-bit id the counter goes back to 0 and the folder is no longer valid |
| SequenceNumbers.GetSequenceNumber | user/mailbox.go:28-80 | on an increasing list the search returns one plus the number of smaller uids, in range and terminating, for every probe that stays between the ends and meets the upper end exactly at its uid |
| SequenceNumbers.ExactProbeAdmissible | user/mailbox.go:58-60 | linear interpolation in exact arithmetic is such a probe on every increasing list |
| SequenceNumbers.ExactProbeSafe | user/mailbox.go:58-60 | so a mailbox may search with it whatever its uids are |
| FloatSearch.FloatProbeAdmissible | user/mailbox.go:58-60 | so is the rounded one, for every rounding with the properties of binary64, if the spread of the uids times the length plus three is below 2^53 |
| FloatSearch.SearchRounded | user/mailbox.go:30-80 | the search with rounding returns one plus the number of smaller uids under that condition |
| FloatSearch.FloatProbeSafe | user/mailbox.go:58-60 | the rounded probe is such a probe on every increasing list of uids below 94 906 264 |
| FloatSearch.FloatProbeStuck | user/mailbox.go:57-80 | beyond it there is a list on which the probe returns the upper end again and again |
| MailboxSpec.PiecesExact | user/mailbox.go:178-206 | a mailbox shows exactly the decodable suffix-2 messages its filter admits, in increasing uid |
| MailboxWalks.RefreshOutcome | user/mailbox.go:180-198 | the walk of refresh yields uid list, recent and unseen counts, or an error exactly if some suffix-2 message cannot be decoded |
| Mailboxes.Mailbox.Refresh | user/mailbox.go:169-209 | succeeds exactly if all suffix-2 messages can be read and then caches what the folder shows; on failure keeps the uid list |
| Mailboxes.Mailbox.NewMailbox | user/mailbox.go:785-801 | yields a current mailbox exactly if the folder can be read |
| Mailboxes.Mailbox.BmsgByUID | user/mailbox.go:294-312 | the message with the uid and its sequence number, or nothing if the mailbox has none |
| MailboxSpec.LookupShows | user/mailbox.go:293-299 | it is found exactly if the folder stores it and the mailbox shows it |
| Mailboxes.Mailbox.BitmessageBySequenceNumber | user/mailbox.go:265-272 | message number n is the n-th of the list |
| Mailboxes.Mailbox.GetRange | user/mailbox.go:353-377 | the messages of a closed uid interval, numbered consecutively from the number given |
| Mailboxes.Mailbox.BitmessagesByUIDRange | user/mailbox.go:387-395 | the messages of the interval, numbered from the sequence number of its lower end; with upper end 0 everything or nothing |
| MailboxFetch.UIDRangeRight | user/mailbox.go:386-395 | the range is answered exactly if and only if the upper end is not 0, the mailbox is empty, or the lower end is above the first uid |
| MailboxSpec.IntervalNumbers | user/mailbox.go:387-394 | those are exactly the mailbox's messages with uids in the interval, each with seqno s such that uids[s-1] is its uid (section 2.3.1.2 of RFC 3501) |
| Mailboxes.Mailbox.BitmessagesSinceUID | user/mailbox.go:398-401 | the messages up to the last uid, numbered from the sequence number of the start |
| MailboxFetch.SinceUIDExact | user/mailbox.go:382-384 | that is the part of the list from the first uid not below the start |
| Mailboxes.Mailbox.BitmessagesBySequenceRange | user/mailbox.go:405-413 | a slice of the list with its own numbers, or nothing for numbers out of range |
| Mailboxes.Mailbox.BitmessageSetByUID | user/mailbox.go:426-474 | each message, and the missing entry, comes as often as there are reached ranges that are answered with it |
| MailboxFetch.SetSegments | user/mailbox.go:434-473 | the result is one segment for each range up to the first malformed one, in their order; a segment is the one missing entry, or exactly the messages the range asks for in ascending uid |
| MailboxFetch.SetCounts | user/mailbox.go:434-473 | the multiplicity of every message and of the missing entry |
| MailboxFetch.SetExact | user/mailbox.go:425-474 | a message is in the result if and only if it is in the mailbox, with its own number, and a range that is reached asks for it; a range with upper end 0 takes all of the mailbox or nothing of it |
| MailboxFetch.SetHasNil | user/mailbox.go:448-456 | the result has a missing entry if and only if a reached range names a single absent uid; MessageSetByUID panics on it (567-570) |
| Mailboxes.Mailbox.FetchBySequenceNumber | user/mailbox.go:495-507 | the fetch of one sequence number as the code does it |
| MailboxFetch.FetchSequenceNumberRight | user/mailbox.go:502-507 | it returns message n if and only if the uid of message n is n, which is so if and only if the first n messages have the uids 1 to n |
| MailboxFetch.FetchSequenceNumberGives | user/mailbox.go:502-507 | it returns something exactly if the uid of message n is the sequence number of a message, and then that message |
| Mailboxes.Mailbox.SaveBitmessage | user/mailbox.go:642-690 | a letter without uid is stored under a new one, a letter with uid replaces what is there; InvalidID exactly for a uid not yet handed out, NotFound exactly for one handed out and not stored, and both change nothing; the caches are current afterwards |
| MailboxSpec.SaveReplacesOnly | user/mailbox.go:653-672 | replacing a shown message keeps the uid list, the next uid and every other message and changes the one letter |
| MailboxSpec.PiecesAppend | user/mailbox.go:650-651 | a new message goes to the end of the list |
| Mailboxes.Mailbox.AddNew | user/mailbox.go:530-550 | stores the letter with the given flags and date under the next uid |
| Mailboxes.Mailbox.Save | user/mailbox.go:693-733 | stores the message made again from the e-mail, without ack and channel mark; a replacement must exist and keep its date, and keeps the stored state; every refusal changes nothing |
| Mailboxes.Mailbox.DeleteBitmessageByUID | user/mailbox.go:603-639 | deletes the message if the mailbox shows it and nothing otherwise; the counters lowered and the uid cut out are what a refresh would compute |
| Mailboxes.DeleteEffect | user/mailbox.go:617-637 | each counter that is lowered is not zero, and the uid is cut out at its own place |
| MailboxSpec.RemovalShifts | user/mailbox.go:632-637 | sequence numbers of greater uids drop by exactly one, all others stay (section 7.4.1 of RFC 3501) |
| Mailboxes.Mailbox.DeleteFlaggedMessages | user/mailbox.go:736-771 | removes the messages flagged deleted and returns exactly those of them that convert to e-mail, in ascending uid and with the sequence numbers they had |
| Mailboxes.DoomedExact | user/mailbox.go:741-749 | the messages gathered are those of the mailbox with the flag, once each, in ascending uid |
| Mailboxes.ExpungeExact | user/mailbox.go:752-768 | afterwards exactly the others are stored, with uids and payloads unchanged (section 6.4.3 of RFC 3501) |
| PowQueue.Queue.Enqueue | powmgr/pow.go:56-78 | appends to a FIFO sequence, also when the list ran empty and the tail pointer is stale; starts a worker exactly if it was empty |
| PowQueue.Queue.Dequeue | powmgr/pow.go:80-93 | takes the first order, or reports an empty queue |
| PowQueue.Queue.Work | powmgr/pow.go:97-116 | undisturbed, the worker empties the queue and completes every second order |
| PowQueue.EveryOtherAt | powmgr/pow.go:99-111 | the k-th order completed is the one at position 2k |
| PowSystem.EveryRun | powmgr/pow.go:56-116 | in every interleaving a non-empty queue has a live worker, and an order is queued, held, completed and discarded together as often as it was enqueued, so a callback of an order enqueued once runs at most once |
| PowSystem.FirstInFirstOut | powmgr/pow.go:56-93 | in every interleaving the queue holds the orders enqueued last, in their order |
| PowSystem.NextFifo | powmgr/pow.go:80-116 | what a step takes out of the queue is the oldest order in it: the first dequeue gives it to the worker, the second discards it |
| PowSystem.WorkersStop | powmgr/pow.go:97-103 | in every interleaving there are at most five worker steps for each enqueue |
| PowSystem.Drains | powmgr/pow.go:98-103 | from every state in which a non-empty queue has a worker, the workers can go on until none is left, and then the queue is empty |
| PowSystem.AtLeastHalf | powmgr/pow.go:105-114 | when the workers have stopped every order was completed or discarded, and at least half were completed |
| PowSystem.LossPossible | powmgr/pow.go:110-111 | with nothing more enqueued, some continuation loses an order if and only if one is waiting, and a worker is in a round of work or a second one is waiting |
| PowSystem.EnqueueSafe | powmgr/pow.go:56-78 | an enqueue is followed by no loss, however the workers go on, if and only if the queue was empty and no worker in a round of work |
| PowSystem.PoliteRunsLoseNothing | powmgr/pow.go:97-114 | every run in which orders are enqueued in such states only loses none |
| PowSystem.SecondOrderLost | powmgr/pow.go:110-114 | two orders and one worker: the second is lost |
| PowRuns.Manager.Enqueue | powmgr/pow.go:56-78 | on the linked list, does what the step of the transition system does |
| PowRuns.Manager.Take | powmgr/pow.go:98-103 | on the linked list, does what the step of the transition system does |
| PowRuns.Manager.Drop | powmgr/pow.go:110-111 | on the linked list, does what the step of the transition system does |
| PowRuns.Replay | powmgr/pow.go:56-116 | every interleaving on the linked list ends in the state that the transition system ends in |
| PowRuns.ReplayFromStart | powmgr/pow.go:45-116 | from the start the list then holds the orders enqueued last, in their order |
| PipelineInv.SecondTry | user/serverops.go:129-145 | once an ack was found missing, the message with an ack embeds that ack, and no later answer finds it missing again |
| PipelineInv.GenerateChanges | user/serverops.go:117-138 | generateObject changes no sender, recipient, expiration, content, ack, flags or date; when it changes the channel mark, the expected ack and the outstanding request |
| PipelineInv.GenerateOutcome | user/serverops.go:114-150 | when it sends a request, misses an ack or makes an object, and that a broadcast is made exactly for the broadcast address |
| PipelineInv.ProcessInv | user/process.go:45-158 | a call of process keeps the invariant and the finished acks, and takes back no uid |
| PipelineInv.WaitingExact | user/user.go:180-195 | the messages taken up again are exactly the stored ones that wait for a key of the address |
| PipelineInv.WaitingInOrder | user/user.go:180-195 | once for each of them, in the order of their uids |
| PipelineCount.EachTurnOnce | user/user.go:197-201 | each of them up to the first that fails is processed, once |
| PipelineInv.RunInv | user/process.go:51-157 | the invariant holds after every sequence of deliveries, finished and lost proofs of work, late keys, ack replies, deletions, changes of flags and additions by the user |
| PipelineAcks.LimboExpectsAcks | user/user.go:230-248 | in every run in which the user puts no message into Limbo, each message there expects an ack and no ack reply returns ErrNoAckExpected |
| PipelineAcks.LimboCarriesAcks | user/process.go:126-140 | if the flags of the messages there are left alone too, each carries an ack whose proof of work is finished |
| PipelineAcks.AppendFoolsReply | user/user.go:239-242 | after an addition to Limbo a reply does return ErrNoAckExpected |
| PipelineAcks.ReflagDropsAck | user/mailbox.go:693-733 | a change of flags takes the ack of a message in Limbo away, and it goes on waiting |
| PipelineInv.NoSendBeforeAck | user/process.go:126-140 | no message that expects an ack is handed to the network before the proof of work of its ack is finished and the ack embedded |
| PipelineInv.SentAsAddressed | user/serverops.go:125-146 | in every run what goes out is a broadcast of the content if the message is to the broadcast address, and else a message with its content and its ack |
| PipelineMail.DeliverStores | user/user.go:142-163 | a delivery stores the five fields of the e-mail under the next uid of the Outbox, seen and dated, and changes nothing else that is stored |
| PipelineMail.DeliverOutcome | user/user.go:153-163 | whether a delivery succeeds, and the one order it gives if any: for the ack if one is asked for, and else to send subject and body of the e-mail to its address |
| PipelineMail.ProcessOutcome | user/process.go:95-157 | when process succeeds, what it writes to the Outbox, what it records and which order it gives, for every message and answer |
| PipelineMail.FinishAckOutcome | user/process.go:126-145 | after the proof of work of an ack the message is written and ordered to be sent with that ack exactly if it is still stored or has no uid and the recipient is known and can be encoded to |
| PipelineMail.NothingMadeUp | user/email/bmail.go:300-323 | in every run each message in a box, in an order or handed to the network has the five fields of an e-mail that came in before |
| PipelineMail.WireSaysMail | user/process.go:60-72 | what goes out has subject and body of such an e-mail and is a broadcast exactly if that was addressed so |
| PipelineInv.TwoOrdersPerCall | user/process.go:95-157 | in every run each call of process has led to at most one order for an ack and at most one to send, and the second is not given while the first is under way |
| PipelineInv.FinishIssues | user/process.go:126-145 | the end of the proof of work of an ack gives no order or the one order to send of the same call, never one for an ack; the end of a send gives none |
| PipelineInv.BookkeepingLost | user/process.go:80-83 | no stored message ever has a send counted or an ack noted |
| PipelineMoves.FinishSendExact | user/process.go:60-84 | a finished send moves exactly one message out of the Outbox, to Limbo if an ack is expected and else to Sent, with sender, recipient, content, ack and saved state, the total unchanged; if the message is gone nothing changes |
| PipelineMoves.MoveExact | user/user.go:207-226 | a move takes exactly one message from one box and puts what was stored under the next uid of the other |
| PipelineMoves.AckReplyExact | user/user.go:230-248 | which of the four outcomes an ack reply has, by what Limbo holds under the recorded uid; it changes no box or moves exactly that one message from Limbo to Sent |
| PipelineMoves.QueuedSendsMove | user/process.go:60-66 | in every run without deletions each queued send finds its message in the Outbox, and no two share one |
| PipelineCount.Conserved | user/user.go:141-204 | in every run the three boxes hold one message for each that arrived and one for each copy that a late key left behind, less those that the user deleted |
| PipelineCount.PubkeyTotal | user/user.go:197-201 | a late key adds exactly one message for each waiting one that gets its turn and is saved, so none if and only if there is no such message |
| PipelineMoves.PubkeyRequestRemembered | user/process.go:103-112 | a message whose key was requested, stored before or not, is stored as waiting and is among those taken up again when a key of its address comes in |
| PipelineCount.PubkeyDuplicates | user/user.go:197-201 | for every answer, what is in the Outbox stays as it is, and a second copy is stored under the next uid if and only if the answer gives an object or a further request |
| PipelineAcks.ReplyFinds | user/user.go:230-248 | in every reachable state the reply to a message in Limbo finds it if and only if its hash is on record with the uid the message has in Limbo |
| PipelineAcks.ReplyFindsOwn | user/process.go:121-128 | without collisions of hashes that is so if and only if the ack was recorded under the hash it is finished with and with the uid it has in Limbo |
| PipelineAcks.LateReplyLost | user/user.go:197-201 | the reply to a message processed without a uid is never found |
| PipelineAcks.AckedSendEffect | user/process.go:121-140 | the reply to a message just sent finds it if and only if the finished hash is the recorded one and the next uids of Outbox and Limbo were equal, or it is another one on record with the next uid of Limbo |
| PipelineAcks.NonceLosesReply | user/process.go:22-32 | with a nonce that changes the hash to a new one the reply is not recognized |
| PipelineAcks.AckGoesAstray | user/user.go:231-247 | two deliveries after which the reply to the second finds no message, though its hash is the recorded one |
| Users.User.SendPrepared | user/process.go:51-93 | saves in the Outbox and orders the proof of work, as the pipeline says |
| Users.User.Process | user/process.go:95-157 | takes the pipeline's step for process, whose outcomes PipelineMail.ProcessOutcome states |
| Users.User.Finish | user/process.go:60-90 | takes the pipeline's step for a finished order |
| Users.User.Move | user/user.go:207-226 | takes the pipeline's step for a move |
| Users.User.DeliverFromSMTP | user/user.go:141-164 | takes the pipeline's step for a delivery; the Outbox then holds under the next uid a letter with sender, recipient, expiration, subject and body of the e-mail, marked as seen and with the date |
| Users.User.DeliverPublic | user/user.go:169-204 | takes the pipeline's step for a late key, collecting first and then processing until one fails |
| Users.User.DeliverAckReply | user/user.go:230-248 | takes the pipeline's step for an ack reply, with its outcome |
| Users.User.ChangeFlags | user/mailbox.go:693-733 | takes the pipeline's step for a change of flags, through the e-mail made from the message |
| Users.User.Append | user/mailbox.go:693-733 | takes the pipeline's step for an addition by the user |
| UserRuns.StepGrows | user/mailbox.go:650-651 | an event takes at most one uid of a box, and a late key at most one for each call of process it may make; the uids on record stay below the next one of the Outbox |
| UserRuns.Replay | user/user.go:141-248 | from any state in order, any run for which the boxes have room leaves the objects in the state that the pipeline ends in |
| UserRuns.ReplayFromStart | user/user.go:67-99 | from empty boxes the objects keep account of every message, make up none and give at most one order of each kind for a call of process |
| KeyManager.Manager.New | idmgr/manager.go:249-285 | uses the first index, modulo 2^32, at which derivation succeeds; consistent lists stay so if and only if the address is new |
| KeyManager.Manager.ImportIdentity | idmgr/manager.go:201-220 | adds an unknown identity as imported, leaves a known one, keeps the lists consistent |
| KeyManager.DerivingKeepsPartition | idmgr/manager.go:275-282 | the two lists keep partitioning the map if and only if the derived address is not present |
| KeyManager.BrokenStays | idmgr/manager.go:275-282 | once an address is on a list twice or on the wrong one, deriving more does not mend it |
| KeyManager.ImportThenDerive | idmgr/manager.go:278-282 | an address imported first and derived later is on both lists |
| KeyManager.CountersAddUp | idmgr/manager.go:327-350 | then the two counters add up to the size |
| KeyManager.UsesExactly | idmgr/manager.go:256-265 | on one stream and without wrap-around the indices used are exactly the succeeding ones below the next index, each once |
| KeyManager.NewForEach | idmgr/manager.go:249-285 | any number of calls of New on one stream use the indices in that way, and the two lists stay consistent if and only if the addresses are all new and all different |
| KeyManager.ExportReload | idmgr/manager.go:132-158 | exporting and reloading keeps the map, the index, both lists up to order and the counters |

## Left out

- Cryptography and wire encoding: payloads are stored in the clear and objects are records of what they embed; that decryption undoes encryption is assumed.
- Serialization by protobuf and JSON: a stored letter is the record of the fields kept, with times in whole seconds as the date format has them; the `objects` cache of a mailbox is never filled and is not modelled.
- Input/output errors of the database; a failed transaction is taken to roll back.
- `folders.Rename`, `setName`, folder creation and deletion by name, and the database's own locking.
- Message sets of sequence numbers beyond the single-number case, and `bitmessagesSinceSequenceNumber`.
- The locks of the mailbox: each method is one step, and so is each completion callback of the pipeline.
- SMTP and IMAP sessions, address parsing, commands, the RPC interface, configuration and logging.
- Broadcast address lists, pubkey request counters and the rest of the store.
- Clocks and randomness: dates and ack hashes come with the events.
- FloatSearch.FloatProbeAdmissible: the condition is sufficient; beyond it only one list on which the search fails is shown, since failure depends on the rounding of each quotient.
- FloatSearch.SearchRounded: requires that condition, which fails for some lists on which the search is right.
- SequenceNumbers.ExactProbeAdmissible: exact division stands for the floating-point operations, which FloatSearch.FloatProbeAdmissible covers under its condition.
- Mailboxes.Mailbox.SaveBitmessage: requires the next uid to stay below the bound of the mailbox's probe, at most 2^32, when a new one is needed, because the mailbox converts it to 32 bits.
- Mailboxes.Mailbox.Save: whether the content is an e-mail, and what it says, is given; the looser test for the Drafts folder is not told apart.
- Mailboxes.Mailbox.BitmessagesSinceUID: requires a mailbox that is not empty, because the code indexes out of range on an empty one and its caller checks.
- Users.User.Process: requires room for one more uid in the Outbox when the message has none, for the same reason.
- UserRuns.Replay: requires room for the uids of the whole run, for the same reason.
- PipelineAcks.ReplyFindsOwn: assumes that no two objects have one hash; PipelineAcks.ReplyFinds does without.
- KeyManager.Manager.New: requires that some index succeeds, because the code's loop does not end otherwise.
- KeyManager.NewForEach: requires as many succeeding indices before the wrap-around as there are calls; after it indices repeat.
- SequenceNumbers.GetSequenceNumber: requires fewer than 2^32 - 1 uids, because sequence numbers are 32 bits wide.
