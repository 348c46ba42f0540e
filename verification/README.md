# Systems exercises: verified models

A Dafny model of the algorithms and protocols in a collection of systems exercises written in C,
with proofs of what they achieve. Each part models the code as it is: where a promise does not hold
for all inputs, the proofs say exactly when it does.

- **Phone book** (`module2/4_3`). `ContactTree`, `ContactTreeExact`, `PhoneBook`,
  `PhoneBookCounting`, `ContactHeap`: a binary search tree of heap cells with in-place insertion,
  deletion and periodic rebalancing. `ContactTree` states what each routine does to the tree as a
  value, cells included; `ContactHeap` holds the pointer code and proves that it does just that;
  `PhoneBook` runs the menu commands. Deleting a node with two children overwrites its links with
  those of its successor and so loses further entries: removing exactly one entry is proved
  equivalent to the matched node having at most one child.
- **Chat server** (`module3/07`). `ChatMessages`, `ChatTable`, `ChatDelivery`, `FileTransfer`,
  `ChatServer`, `ChatRuns`, `ChatMembers`, `FileLate`: the client table that a broadcast edits while
  it walks it, and file upload and download in chunks. The network decides each send; a fixed set of
  dead descriptors is the special case for the delivery theorems. The one case in which a live
  client misses a message (a dead sender listed before another dead client) is characterised
  exactly, and so is the state of the file receiver that makes an upload exact. `ChatRuns` says what
  each client hears over a whole run in which the inputs of all clients interleave, `ChatMembers`
  who is in the table after it and what joining and leaving tell the others, and `FileLate` what
  somebody gets who misses the beginning of a file.
- **Shared-memory producer and consumers** (`module3/04`). `BlockQueue`, `BlockQueueInvariant`,
  `BlockQueueSafety`, `BlockQueueTheorems`, `BlockQueueMemory`, `BlockQueueExit`,
  `BlockQueueBatches`: a state machine of one producer and any number of consumers, with the
  semaphore, list walks node by node, and unlocked reads and writes word by word in one memory.
  Theorems hold for every sequence of events, that is for every interleaving. A lemma that assumes
  `Inv` speaks about every reachable state, by `BlockQueueTheorems.Reachable`.
- **File copy over two pipes** (`module3/01`). `PipeCopy`, `PipeHeader`, `PipeCopySafety`,
  `PipeCopyTheorems`, `PipeCopyMarks`, `PipeCopyMerged`: parent and child as two programs taking
  turns in any order, with file data read in pieces of any length. Theorems about any files assume a
  run without a data read that looks like a header or the end mark (`CleanRun`); files that contain
  neither mark need no such assumption, and every other file has a run that breaks its copy. A
  header read together with data behind it stops the protocol for good, if and only if the rest of
  the file contains neither mark.
- **Echo server** (`module3/cross1`). `EchoServer`, `EchoNumbering`, `EchoClose` for the slot array
  and the numbers in the replies; `UdpChecksum`, `UdpWire` for the checksum, against RFC 768
  ("Fields", Checksum) and sections 1 and 2 of RFC 1071.
- **Message broker** (`module3/02`). `BrokerMessages`, `Broker`, `BrokerDelivery`,
  `BrokerRegisters`: the text messages, taken apart in place in a buffer; the registers; delivery
  over whole runs.
- `Text`, `Sequences`, `Options`, `Bytes` are shared: C string functions, subsequences, an option
  type, bytes.

Classes and methods hold the code that works in place (the contact cells, the client table, the file
receivers, the slot array, the registers, the parsing buffer, the checksum loops). Each is proved
equal to a function of the old state, and the theorems are about those functions. Messages, numbers
and letters that the programs agree on are written out in the theorems about them. The two protocols
between processes are functions from state to state, one step of one process each. Bytes of files on
the pipes and of texts are characters, in the chat and in the checksum numbers below 256. Every
lemma spells out its own induction.

Where the code differs from what it might be taken for, the model follows the code:

- the guards of the producer add up `sizeof(int) + sizeof(Node*)` where a block costs
  `sizeof(Node)`, and blocks start behind two headers (`BlockQueueMemory`, with the exact conditions
  on the sizes and a run in the 2048 bytes that main.c allocates);
- `find_subscribers` writes into an array of 100 process ids although 200 subscriptions to one topic
  are admitted (`BrokerDelivery.CrowdOverruns`);
- RFC 768 sends a computed checksum of zero as all ones; the code has no such step
  (`UdpChecksum.SendsNoChecksum`), and its treatment of an odd last byte agrees with the RFC on
  big-endian hosts only, but for a pair of zero bytes (`UdpChecksum.MeetsRfc768`);
- a second upload under a name that is still being received continues the open file
  (`FileTransfer.Ready`).

## Model

| member | source | states |
|---|---|---|
| `ContactTree.CompareOrder` | module2/4_3/contacts.c:20-24 | Comparing is antisymmetric and a tie means equal last name and equal name: the key of the tree |
| `ContactTreeExact.StrcmpIsLexicographic` | module2/4_3/contacts.c:21-22 | The smaller of two names has the smaller character behind their common prefix, or ends there |
| `ContactTreeExact.LastNameFirst` | module2/4_3/contacts.c:20-24 | The last name decides, and the name between equal last names |
| `ContactTreeExact.RebalancedIsEven` | module2/4_3/contacts.c:48-55 | Rebalancing puts the lower middle at the root at every level: the right subtree has as many nodes as the left one or one more |
| `ContactTreeExact.EvenIsUnique` | module2/4_3/contacts.c:48-55 | Which fixes the tree: two such trees with one listing are equal |
| `ContactTreeExact.TwoChildrenKeep` | module2/4_3/contacts.c:94-99 | A matched node with two children: all that stood under it is replaced by its successor in the cell of the node and what the second search leaves of the right subtree of the successor; the rest of the listing stays |
| `ContactTreeExact.SecondSearchMisses` | module2/4_3/contacts.c:97 | Without equal keys the second search finds nothing |
| `ContactTree.InsertPosition` | module2/4_3/contacts.c:26-33 | In a sorted tree, insertion puts the new entry behind all entries with a key not greater than its own and before all greater ones, and leaves the others in order |
| `ContactTree.InsertSorted` | module2/4_3/contacts.c:26-33 | Insertion keeps the listing sorted, duplicates included |
| `ContactTree.InsertHeight` | module2/4_3/contacts.c:26-33 | Insertion adds at most one level and removes none |
| `ContactTree.LogHeightIsLog` | module2/4_3/contacts.c:48-68 | The height bound used below is floor(log2 n) + 1 |
| `ContactTree.LogHeightIsLeast` | module2/4_3/contacts.c:48-68 | No binary tree of n entries is lower than that |
| `ContactTree.RebalanceIsOptimal` | module2/4_3/contacts.c:48-68 | Rebalancing keeps the in-order list, cell by cell, and reaches the least height of any tree of that size |
| `ContactTree.RebalanceCells` | module2/4_3/contacts.c:40-68 | Rebalancing reuses exactly the same cells, and shares none if none was shared before |
| `ContactTree.DeletedThins` | module2/4_3/contacts.c:75-100 | Deletion yields a subsequence of the listing, over cells the tree had: nothing is reordered or invented |
| `ContactTree.DeleteSorted` | module2/4_3/contacts.c:75-100 | Deletion keeps the listing sorted |
| `ContactTree.SearchIsComplete` | module2/4_3/contacts.c:77-84 | The search stops at a node if and only if some entry has an equal key, even with duplicates on both sides of a node |
| `ContactTree.DeleteMissing` | module2/4_3/contacts.c:75-84 | When no node is found nothing changes and nothing is freed |
| `ContactTree.DeleteOneChild` | module2/4_3/contacts.c:85-93 | A matched node with at most one child is the one entry that goes |
| `ContactTree.FreesOneChild` | module2/4_3/contacts.c:85-93 | Its cell is the one freed |
| `ContactTree.DeleteTwoChildren` | module2/4_3/contacts.c:94-99 | A matched node with two children costs the tree at least two entries, because the successor is copied with its links |
| `ContactTree.RemovesExactlyOne` | module2/4_3/contacts.c:75-100 | Exactly one entry goes if and only if a node is found and it has at most one child |
| `ContactTree.DeleteHeight` | module2/4_3/contacts.c:75-100 | Deletion never adds a level |
| `ContactTree.DeleteCells` | module2/4_3/contacts.c:75-100 | Deletion links and frees only cells of the tree, frees none that stays linked, and loses cells (neither linked nor freed) exactly when the matched node has two children |
| `PhoneBook.HeightOverRuns` | module2/4_3/contacts.c:176-183 | Over every run of adds, deletes and edits the height is at most floor(log2 m) + 1 + operationCount, m being the size at the last rebalance, and operationCount stays below 10 |
| `PhoneBook.StepSorted` | module2/4_3/contacts.c:120-352 | A command keeps a sorted listing sorted if and only if it is no edit that takes an entry out of its place between its neighbours |
| `PhoneBook.SortedOverRuns` | module2/4_3/contacts.c:120-352 | The listing stays sorted, duplicates included, over every run without such an edit |
| `PhoneBook.KeysKeepPlace` | module2/4_3/contacts.c:239-298 | Edits of fields other than last name and name are never such edits |
| `PhoneBook.SizeOverRuns` | module2/4_3/contacts.c:302-352 | A run ends with one entry for every addition less one for every confirmed deletion if and only if no deletion stopped at a node with two children; otherwise with fewer |
| `PhoneBookCounting.CounterOverRuns` | module2/4_3/contacts.c:176-183 | Over every run from the empty book the counter is the number of additions and confirmed deletions modulo 10, and exactly when that number reaches a multiple of 10 the tree gets the least height of its size; otherwise an addition hangs a leaf into the tree as it was |
| `PhoneBookCounting.StepLists` | module2/4_3/contacts.c:120-352 | What an addition and a deletion do to the listing, whether they rebalance or not |
| `PhoneBookCounting.FieldWritten` | module2/4_3/contacts.c:239-298 | Each of the nine answers of the edit menu makes its field alone take the text, but for an empty last name or name |
| `PhoneBookCounting.EditWritesOne` | module2/4_3/contacts.c:198-300 | An edit of a listed contact writes one field of that contact in its place and cell, and leaves the counter alone |
| `PhoneBookCounting.NoEffect` | module2/4_3/contacts.c:221-225 | A choice out of range, a deletion not confirmed and an answer that is no field change nothing |
| `PhoneBook.LossExample` | module2/4_3/contacts.c:94-99 | Adding three entries, the middle one first, and deleting that one leaves a single entry: one that nobody deleted is gone |
| `PhoneBook.ChosenIsFreed` | module2/4_3/contacts.c:75-100 | When the node at which the search stops has at most one child, the chosen contact is the one freed if and only if the search stops at it |
| `PhoneBook.ChosenIsFreedExactlyWhen` | module2/4_3/contacts.c:75-100 | A chosen contact whose key no other has is the one freed if and only if its node has at most one child |
| `PhoneBook.Twins` | module2/4_3/contacts.c:75-100 | Of two contacts with one key, choosing the second frees the first |
| `ContactHeap.Insert` | module2/4_3/contacts.c:26-33 | The recursive relinking realises the insertion on the tree of cells |
| `ContactHeap.CountNodes` | module2/4_3/contacts.c:35-38 | Counts the nodes |
| `ContactHeap.StoreInOrder` | module2/4_3/contacts.c:40-46 | Fills the array from the index on with the cells in in-order, and nothing else |
| `ContactHeap.BuildBalanced` | module2/4_3/contacts.c:48-55 | Relinks the cells of an array segment into the balanced tree of that segment |
| `ContactHeap.BalanceTree` | module2/4_3/contacts.c:57-68 | Rebalances in place: the result spells out the rebalanced tree, in the same cells |
| `ContactHeap.FindMin` | module2/4_3/contacts.c:70-73 | Returns the leftmost node |
| `ContactHeap.DeleteNode` | module2/4_3/contacts.c:75-100 | The recursive relinking realises the deletion on the tree of cells, and frees the cells it says |
| `ContactHeap.DeleteMatch` | module2/4_3/contacts.c:84-98 | The three cases at the node where the search stops |
| `ContactHeap.ReplaceBySuccessor` | module2/4_3/contacts.c:94-98 | Copying the whole successor over the node: its left link comes along, its own subtrees are dropped |
| `ContactHeap.Directory.CountOperation` | module2/4_3/contacts.c:177-183 | The counter reaches 10, triggers a rebalance and restarts |
| `ContactHeap.Directory.AddContact` | module2/4_3/contacts.c:120-186 | The command takes the Add step and keeps the height bound |
| `ContactHeap.Directory.Choose` | module2/4_3/contacts.c:204-228 | The listing offers the entries in order and a choice in range yields that entry |
| `ContactHeap.Directory.DeleteContact` | module2/4_3/contacts.c:302-352 | The command takes the Delete step: only a confirmed choice in range deletes |
| `ContactHeap.Directory.EditContact` | module2/4_3/contacts.c:198-300 | The command takes the Edit step: one field of the chosen entry, in place |
| `ChatTable.RemoveShrinks` | module3/07/server.c:294-318 | For arbitrary send outcomes a removal terminates, leaves a subsequence of the table, and closes each descriptor lost once |
| `ChatTable.BroadcastShrinks` | module3/07/server.c:320-329 | The same for a broadcast, from any index |
| `ChatTable.WalkTo` | module3/07/server.c:321-328 | Up to the first dead client the loop only sends |
| `ChatTable.FirstFailure` | module3/07/server.c:294-328 | At the first dead client the removal runs and the loop resumes at the same index |
| `ChatTable.BroadcastIsCascade` | module3/07/server.c:294-329 | However deep removals and broadcasts nest, the events are those of a closed description with no index into a changing table |
| `ChatTable.ClientTable.ShiftOut` | module3/07/server.c:308-311 | Shifts the later entries one place up |
| `ChatTable.ClientTable.RemoveClient` | module3/07/server.c:294-318 | The array code equals the removal as a function, nested broadcasts included |
| `ChatTable.ClientTable.SendTo` | module3/07/server.c:322-327 | A turn of the loop, with the index it leaves, is a turn of the broadcast as a function |
| `ChatTable.ClientTable.BroadcastMessage` | module3/07/server.c:320-329 | The array code, with its `i--`, equals the broadcast as a function, and terminates |
| `ChatTable.ClientTable.AddClient` | module3/07/server.c:273-292 | A full table turns the newcomer away; otherwise it is appended and announced to the others |
| `ChatDelivery.InboxIsExpected` | module3/07/server.c:294-329 | Exactly which messages a live client receives, in which order, when the sender is live or nobody |
| `ChatDelivery.OnlyLiveReceive` | module3/07/server.c:294-329 | Dead or unlisted descriptors receive nothing |
| `ChatDelivery.ClosesTheDead` | module3/07/server.c:294-318 | Every dead client is closed exactly once, in table order |
| `ChatDelivery.BroadcastDelivers` | module3/07/server.c:294-329 | Sender live or nobody: the table keeps exactly the live clients in order, every dead one is closed once, every live non-sender receives the message once, every live client one LEAVE for each dead client, and nobody receives anything else |
| `ChatDelivery.DeadSenderSkips` | module3/07/server.c:320-329 | With a dead listed sender and another client dead, every live client receives one notice for each dead client and the message, once each and nothing else, but for the skipped one, which receives the notices without the message |
| `ChatDelivery.FirstSkipped` | module3/07/server.c:320-329 | When a live client stands behind the first other dead one, a skipped client exists |
| `ChatDelivery.SkipExample` | module3/07/server.c:320-329 | A dead sender, another dead client and a live one: the live one hears of both departures and misses the message |
| `ChatDelivery.DeliveryIsComplete` | module3/07/server.c:294-329 | For every table, dead set and sender: every live non-sender receives the message and all notices, once each and nothing else, if and only if it is not the case that the sender is dead, listed before the first other dead client, with a live client behind that one |
| `FileTransfer.OpenFileOverRuns` | module3/07/server.c:102-181 | Under any interleaving of file messages from any senders: receiving exactly while a stream is open, the file holds exactly the data accepted since it was opened, and bytes_received is its length |
| `FileTransfer.ChunksRebuild` | module3/07/client.c:86-106 | The chunks of a file are between 1 and 4096 bytes long and concatenate to the file |
| `FileTransfer.SendChunks` | module3/07/client.c:86-106 | The reading loop sends exactly the chunks, in order |
| `FileTransfer.SendFile` | module3/07/client.c:61-119 | Header, chunks, end message |
| `FileTransfer.SendFileToClient` | module3/07/server.c:218-271 | The same sequence from the server, or -1 for a file it does not have |
| `FileTransfer.ChunkOpens` | module3/07/server.c:363-370 | A chunk that finds no stream for its file opens one, as a header would |
| `FileTransfer.ChunksAppend` | module3/07/server.c:139-166 | Chunks are appended as long as none but the last reaches the expected size |
| `FileTransfer.ChunksCut` | module3/07/server.c:139-166 | A stream that reaches its expected size early is closed under the upload, and the stored file is too short |
| `FileTransfer.UploadStores` | module3/07/server.c:102-181 | What an upload leaves behind for every state of the receiver: the bytes behind what it already had, or a file that is too short |
| `FileTransfer.UploadIsExact` | module3/07/server.c:102-181 | An upload stores exactly the bytes of the file, and touches no other, if and only if the receiver is ready for it; an idle one always is |
| `FileTransfer.TransmissionIsReceived` | module3/07/client.c:121-205 | A complete transmission rebuilds the file at the client whatever it was doing before, for every length including 0 and multiples of 4096 |
| `FileTransfer.UploadThenDownload` | module3/07/server.c:218-271 | Upload then download is the identity |
| `FileTransfer.FileReceiver.StartFileReceive` | module3/07/server.c:114-137 | The fields afterwards, including the failed open |
| `FileTransfer.FileReceiver.AppendFileData` | module3/07/server.c:139-166 | The fields and the file afterwards |
| `FileTransfer.FileReceiver.FinishFileReceive` | module3/07/server.c:168-181 | Closes an open stream and nothing else |
| `FileTransfer.FileReceiver.HandleFileMessage` | module3/07/server.c:357-378 | The three file cases of the dispatch |
| `FileTransfer.FileDownload.ReceiveFile` | module3/07/client.c:121-205 | The static fields of the client and its file afterwards |
| `ChatServer.RelayKeepsOrder` | module3/07/server.c:331-399 | However many clients die meanwhile, a live client gets all file messages of a live sender, once each, in order |
| `ChatServer.UploadReachesEveryone` | module3/07/server.c:357-378 | While a live client uploads a file, every other live client rebuilds exactly that file from what the server relays |
| `ChatDelivery.AnySender` | module3/07/server.c:320-329 | What any broadcast brings to a live client, the sender live, dead, unlisted or nobody: all the notices it sets off, and the message once unless the client is the sender or the one that is skipped |
| `ChatRuns.BroadcastTells` | module3/07/server.c:320-329 | Of the talk in a broadcast (chat and file messages) a live client gets exactly the message, or nothing |
| `ChatRuns.DispatchTells` | module3/07/server.c:331-399 | What one input of any client makes a live client hear, for all kinds of input |
| `ChatRuns.HearsOverRuns` | module3/07/server.c:331-399 | Over every run in which descriptors join afresh, a live client that stays hears exactly what the others broadcast and the files it asked for, in order, nothing lost and nothing twice, whoever joins, leaves or dies meanwhile, but for what broadcasts from dead senders skip |
| `ChatRuns.EveryLiveVoice` | module3/07/server.c:331-399 | Of what it hears, the part that comes from any one live sender is all that sender broadcast, once each, in order |
| `ChatMembers.SafeCopyIs` | module3/07/chat_utils.c:3-7 | The longest prefix that leaves room for the NUL |
| `ChatMembers.Relayed` | module3/07/server.c:347-378 | A chat or file message from a live client reaches every other live client once, the dead are closed once each and the live ones stay in their order; all notices spelled out |
| `ChatMembers.Newcomer` | module3/07/server.c:273-292 | A JOIN that finds room: the table ends with the newcomer and each other live client receives "[nickname] joined the chat" once |
| `ChatMembers.TurnedAway` | module3/07/server.c:274-277 | With 100 clients listed the newcomer is closed, and nobody is told anything |
| `ChatMembers.Departure` | module3/07/server.c:294-318 | The end of a connection or a LEAVE: the client is unlisted and closed exactly once, the other live clients stay in their order and each receives "[nickname] left the chat" once |
| `ChatMembers.DepartureUnlisted` | module3/07/server.c:294-318 | The departure of somebody who is not listed changes nothing |
| `ChatMembers.Answered` | module3/07/server.c:384-394 | A request is answered to its sender alone: a listing, the messages of a stored file, or nothing for a file that is not stored |
| `ChatMembers.WithoutEffect` | module3/07/server.c:337-345 | Part of a message or one of unknown kind changes nothing, and only file messages touch the stored files |
| `ChatMembers.ListedAsBefore` | module3/07/server.c:331-399 | A run without JOIN, LEAVE or end of connection of a live client leaves it listed or not as before |
| `ChatMembers.ListedAtEnd` | module3/07/server.c:331-399 | After every run a live client is listed if and only if the last of its JOIN, LEAVE and end-of-connection inputs is a JOIN that found fewer than 100 clients |
| `FileLate.LateReceiver` | module3/07/client.c:121-205 | A receiver that misses the header and the first k chunks ends up with exactly the bytes behind them |
| `FileLate.LateJoiner` | module3/07/server.c:357-378 | So does a client that joins the chat in the middle of an upload |
| `FileLate.DataArrives` | module3/07/client.c:157-196 | A message of data goes to the end of the open file of its name, or starts it anew, and closes it exactly when the size announced is reached |
| `FileLate.HeaderArrives` | module3/07/client.c:127-156 | A header starts the file anew, even if it is open, and takes the data that comes with it |
| `FileLate.OpenDownloadOverRuns` | module3/07/client.c:121-205 | Whatever messages a client gets, its open file holds exactly the data that came for it since it was opened |
| `FileLate.TransmissionFields` | module3/07/client.c:61-119 | Every message of a transmission carries the nickname, the file name and the size; the data stands between the first and the last, 4096 bytes in each but the last of them |
| `FileLate.NothingStored` | module3/07/server.c:114-181 | A server that can open no file stores nothing |
| `FileLate.NothingReceived` | module3/07/client.c:121-205 | Nor does a client |
| `FileLate.SenderOverRuns` | module3/07/server.c:114-137 | sender_fd is the descriptor of the message that opened the stream, whatever is interleaved |
| `ChatServer.DistinctOverRuns` | module3/07/server.c:331-399 | Over every run in which no descriptor joins while it is listed, the descriptors in the table stay distinct, whatever the sends do |
| `ChatServer.JoinDistinctExactlyWhen` | module3/07/server.c:273-292 | With room and no failing send, a JOIN keeps the descriptors distinct if and only if it comes on a new one |
| `ChatServer.RunIsStoreAndRelay` | module3/07/server.c:331-399 | Dispatching the messages of an upload is storing them and relaying them |
| `ChatServer.Program.HandleClientMessage` | module3/07/server.c:331-399 | The dispatch over the two objects equals the dispatch as a function |
| `BlockQueueSafety.InitialInv` | module3/04/ipc_utils.c:11-66 | The initial state satisfies the invariant, for any number of consumers |
| `BlockQueueSafety.MutualExclusion` | module3/04/ipc_utils.c:68-82 | At most one process is inside a critical section |
| `BlockQueueSafety.WriteAbove` | module3/04/producer.c:37-44 | A write behind all published blocks changes none of them: the unlocked writes of the producer |
| `BlockQueueSafety.WalkStep` | module3/04/consumer.c:22-29 | A walker stands on a claimed block or on the first unclaimed one; reaching the end means all are claimed |
| `BlockQueueSafety.AppendList` | module3/04/producer.c:46-56 | Linking the new node behind the tail makes the memory list the published blocks with this one at the end |
| `BlockQueueSafety.ClaimList` | module3/04/consumer.c:64-66 | Setting a count to 0 makes the claimed prefix one longer and hands over the right count and data pointer |
| `BlockQueueSafety.StepKeeps` | module3/04/consumer.c:15-82 | Every step of every process keeps the invariant |
| `BlockQueueSafety.RunKeeps` | module3/04/producer.c:16-95 | So does every interleaving |
| `BlockQueueTheorems.FinishedIsFinal` | module3/04/producer.c:16-95 | Once producer_finished is set it stays set and nothing is appended any more |
| `BlockQueueTheorems.ListIsPublished` | module3/04/producer.c:46-58 | Following the links from head visits the published blocks in order and ends; tail is the last node reached |
| `BlockQueueTheorems.BlocksDisjoint` | module3/04/producer.c:37-56 | Blocks are pairwise disjoint, and used_memory is the header plus sizeof(Node) + 4 * count for each of them |
| `BlockQueueTheorems.ClaimedInOrderOnce` | module3/04/consumer.c:48-68 | The claimed blocks are a prefix of the published ones, in order, and none is claimed twice |
| `BlockQueueTheorems.ReportsAreTrue` | module3/04/consumer.c:70-79 | The minimum and maximum computed outside the lock are those of the numbers the producer wrote into that block |
| `BlockQueueTheorems.AllBlocksProcessed` | module3/04/consumer.c:15-82 | When all processes have exited, the processed_blocks add up to block_count, and every published block was reported exactly once |
| `BlockQueueTheorems.NoDeadlock` | module3/04/ipc_utils.c:68-82 | Until all processes have exited, some process can take a step that changes the state |
| `BlockQueueExit.ProducerToCheck` | module3/04/producer.c:16-64 | From any state in which it is not kept waiting, the producer comes to its exit or to the check after a batch |
| `BlockQueueExit.ClaimAll` | module3/04/consumer.c:15-82 | While the producer stands before its check, a consumer can claim every block there is |
| `BlockQueueExit.ProducerConcludes` | module3/04/producer.c:64-84 | With every block claimed, that check leads to the exit |
| `BlockQueueExit.ProducerToExit` | module3/04/producer.c:16-95 | So from any state in which it is not kept waiting the producer can come to its exit, as long as there is a consumer |
| `BlockQueueExit.ProducerAloneToExit` | module3/04/producer.c:17-35 | Without any consumer it can if the guards cover sizeof(Node) |
| `BlockQueueExit.ConsumerToExit` | module3/04/consumer.c:15-82 | After the producer has exited, a consumer alone comes to its exit, and leaves the others where they are |
| `BlockQueueExit.ExitReachable` | module3/04/producer.c:16-95 | With at least one consumer every run, whatever has happened in it and whatever the sizes are, can be continued to one in which all processes have exited |
| `BlockQueueExit.ConsumersStop` | module3/04/consumer.c:15-82 | Once the producer has exited, every run in which each event changes the state has a bounded length: the consumers cannot go round for ever, whatever the schedule |
| `BlockQueueBatches.ChecksEveryFifth` | module3/04/producer.c:60-65 | Over every run the producer goes to its check behind every fifth block and behind no other |
| `BlockQueueBatches.NumbersDrawn` | module3/04/producer.c:42-44 | The numbers that can be written are exactly those from 1 to 100 |
| `BlockQueueBatches.SizesDrawn` | module3/04/producer.c:27-35 | The sizes a block can have, while the memory lasts, are exactly those from 20 to 69 |
| `BlockQueueMemory.WithinExactlyWhenRoomy` | module3/04/producer.c:17-56 | used_memory is within total_size after a run if and only if no block was published that left less than sizeof(Node) behind its numbers |
| `BlockQueueMemory.BlocksBounded` | module3/04/producer.c:17-56 | In such runs at most (total_size - header) / (sizeof(Node) + 80) blocks are published |
| `BlockQueueMemory.GuardsSufficeExactlyWhen` | module3/04/producer.c:19-35 | The guards keep used_memory within total_size for every segment size and interleaving if and only if the sizes they add cover sizeof(Node) |
| `BlockQueueMemory.SeventhBlock` | module3/04/main.c:40 | In the 2048 bytes of the program, six blocks of 69 numbers and a seventh of up to 47 pass the guards; used_memory then exceeds total_size if and only if the seventh has 45 numbers or more, and the block ends behind the segment if and only if it has 33 or more |
| `BlockQueueMemory.WrappedNeverStops` | module3/04/producer.c:17-35 | Once used_memory has passed total_size, in no later state of the run do the guards stop the producer, until the excess nears 2^64 |
| `BlockQueueMemory.BlocksInsideExactlyWhen` | module3/04/producer.c:37 | The published blocks lie inside the segment if and only if used_memory leaves a second header free: where the last block ends |
| `BlockQueueMemory.GuardsContainExactlyWhen` | module3/04/producer.c:19-37 | The guards keep every published block inside the segment, for every segment size and interleaving, if and only if the sizes they add cover sizeof(Node) and the header |
| `PipeHeader.NameReadBack` | module3/01/process.c:102-110 | The child reads the name back if and only if it has no bar in it |
| `PipeHeader.SizeMarkFirst` | module3/01/process.c:103 | The first "SIZE:" of a header is the one before the size if and only if the name holds none |
| `PipeHeader.HeaderOpens` | module3/01/process.c:91-139 | The child opens the announced copy with the announced size, or acknowledges an empty file at once; a copy still open is closed and acknowledged first; what follows the header in the buffer is lost |
| `PipeHeader.NoHeader` | module3/01/process.c:102-112 | A buffer with "FILE:" but without "SIZE:" opens nothing, and without a bar the last name stays |
| `PipeHeader.NoSize` | module3/01/process.c:112 | Without a number the last size stays |
| `PipeHeader.DataTaken` | module3/01/process.c:153-186 | Data without an open copy is dropped, other data is written up to the size expected, and what reaches it is acknowledged |
| `PipeHeader.MisreadSize` | module3/01/process.c:102-112 | A name made of "SIZE:" and a number makes the child expect that many bytes, whatever the size is |
| `PipeCopySafety.ParentKeeps` | module3/01/process.c:22-64 | Every step of the parent keeps the invariant of the protocol |
| `PipeCopySafety.ChildKeeps` | module3/01/process.c:83-187 | So does every step of the child that does not read a look-alike |
| `PipeCopySafety.RunKeeps` | module3/01/process.c:13-193 | So does every run, for every schedule and every split of the data into reads |
| `PipeCopyTheorems.FinishedMeansCopied` | module3/01/process.c:13-193 | When both have finished, every existing file has a byte-equal copy, exactly one ACK was sent for each, and no other file changed |
| `PipeCopyTheorems.ReadSizes` | module3/01/process.c:84 | A read of data can return any number of the bytes there from 1 to 4095, and no other |
| `PipeCopyTheorems.HeaderAfterAck` | module3/01/process.c:47-60 | A header is sent only after every earlier one has been acknowledged and the acknowledgement read |
| `PipeCopyTheorems.StepWorks` | module3/01/process.c:13-193 | Every step that changes anything leaves less work |
| `PipeCopyTheorems.RunsAreBounded` | module3/01/process.c:13-193 | A run in which every turn does something has a bounded length: the protocol terminates |
| `PipeCopyTheorems.NoDeadlock` | module3/01/process.c:22-64 | Until both have finished one side can move, whatever length the next read has |
| `PipeCopyTheorems.EveryReadCleanExactlyWhen` | module3/01/process.c:91-151 | No read of a file, wherever it is split, looks like a header or the end mark if and only if the file contains neither |
| `PipeCopyTheorems.MarkerFreeFilesCopied` | module3/01/process.c:13-193 | Files without the marks are copied whatever the schedule and the reads |
| `PipeCopyMarks.MarkReadAcks` | module3/01/process.c:91-151 | A data read that starts with "END", or is just "FILE:", acknowledges the short copy as it stands |
| `PipeCopyMarks.ReachFile` | module3/01/process.c:25-60 | Some schedule of clean reads brings the parent to any name of the command line, the invariant of the protocol still in force |
| `PipeCopyMarks.ReadUpTo` | module3/01/process.c:83-187 | From any point of a transfer some schedule of single-byte reads, all of them clean, brings the child to any later position |
| `PipeCopyMarks.MarkAcksEarly` | module3/01/process.c:13-193 | Any file of the command line with a mark at some position has a run from the start in which it is acknowledged when its copy holds just the bytes before the mark |
| `PipeCopyMarks.EndMarkTruncates` | module3/01/process.c:141-151 | If that mark is "END", no continuation of the run ever completes the copy |
| `PipeCopyMarks.AckedIsCopiedExactlyWhen` | module3/01/process.c:13-193 | Whatever the schedule and the reads, every acknowledged file of a command line of any length has a byte-equal copy (unless its name came again and the copy is just being rewritten), if and only if no file contains either mark |
| `PipeCopyMarks.OnceNamedIsCopied` | module3/01/process.c:13-193 | For a name given once the exception never applies |
| `PipeCopyMarks.TwiceNamed` | module3/01/process.c:102-131 | A file named twice has a run in which its acknowledged copy is gone again |
| `PipeCopyMerged.UnreadReachable` | module3/01/process.c:47-53 | Every file that is not empty can come to stand in the pipe unread, header and data |
| `PipeCopyMerged.MergedReadHangs` | module3/01/process.c:84-138 | After one read of a header together with data, when the rest of the file is free of marks, no schedule gets the parent past that file: no acknowledgement is sent and the copy stays short |
| `PipeCopyMerged.MergedReadHangsExactlyWhen` | module3/01/process.c:84-138 | After such a read the acknowledgement never comes, whatever the schedule, if and only if the rest of the file contains neither mark |
| `EchoServer.Server.FindOrAdd` | module3/cross1/server.c:14-32 | The first slot of the address, or else the first free one, taken with counter 1; or none |
| `EchoServer.Server.Remove` | module3/cross1/server.c:34-46 | Frees the slot of the address and nothing else |
| `EchoServer.Server.Receive` | module3/cross1/server.c:137-166 | One turn of the loop: filters, CLOSE, the reply and the counter |
| `EchoClose.NotForUs` | module3/cross1/server.c:137-143 | A datagram from port 51000, or to another port, changes nothing and gets no reply |
| `EchoClose.ClientsAfter` | module3/cross1/server.c:150-159 | What any other datagram does to the clients known: a payload that starts with CLOSE removes its sender, any other adds it while there are fewer than 100 |
| `EchoClose.ClosesExactlyWhen` | module3/cross1/server.c:150-153 | A client loses its slot, and gets no answer, if and only if its own payload starts with the letters C, L, O, S, E |
| `EchoClose.FirstAfterClose` | module3/cross1/server.c:150-166 | Over every run the first message answered after such a payload gets the number 1, in a reply with its text, a space and that number |
| `EchoNumbering.FreeExactlyWhen` | module3/cross1/server.c:23-31 | A free slot exists if and only if fewer addresses are active than there are slots |
| `EchoNumbering.ServeRefines` | module3/cross1/server.c:14-46 | The slot array keeps one active slot for each address and serves every packet as a table with room for 100 addresses does |
| `EchoNumbering.RunCounts` | module3/cross1/server.c:118-185 | Over every run an entry of the table is one more than the number of messages answered since the last CLOSE or the start |
| `EchoNumbering.ReplyNumbers` | module3/cross1/server.c:150-166 | A message is answered if and only if its client is live or fewer than 100 are, and the number is the count of its answered messages since its last CLOSE, this one included |
| `EchoNumbering.AloneIsAnswered` | module3/cross1/server.c:150-166 | A client alone with the server is always answered, with the next number |
| `EchoNumbering.AsIfAlone` | module3/cross1/server.c:118-185 | Over every run a client gets exactly the replies it would get alone with the server, if and only if none of its messages was refused by a full table: joins, closes and slot reuse of others make no other difference |
| `EchoNumbering.NumberReadBack` | module3/cross1/server.c:165 | No reply is ever cut short: every message is echoed whole, up to a NUL in it, and the number behind it can be read back |
| `UdpWire.RfcSum` | module3/cross1/checksum.c:10-46 | What RFC 768 sums, field by field: both addresses, 17, the UDP length, the header and the padded data |
| `UdpWire.ProgramSum` | module3/cross1/checksum.c:3-56 | What the program sums: the same, but for the tail of an odd length |
| `UdpWire.DetectsChangedRoute` | module3/cross1/checksum.c:18-38 | Replacing one word of an address or a port goes unnoticed if and only if the two are congruent modulo 65535 |
| `UdpWire.RemoteReply` | module3/cross1/server.c:168-179 | The reply "hi 1" from 127.0.0.1 to port 40000 of 10.0.0.5 carries 0x8ABC |
| `UdpChecksum.AddWords` | module3/cross1/checksum.c:25-38 | The header loops compute the running sum |
| `UdpChecksum.AddData` | module3/cross1/checksum.c:40-46 | The data loop computes it over the words of the data, on either byte order |
| `UdpChecksum.AddHeaders` | module3/cross1/checksum.c:8-38 | The pseudo header and the UDP header are summed in order |
| `UdpChecksum.AddTail` | module3/cross1/checksum.c:48-53 | An odd length adds the masked word that reaches one byte past the data |
| `UdpChecksum.Compute` | module3/cross1/checksum.c:3-56 | The result is the complement of the folded unbounded sum of what the code adds |
| `UdpChecksum.RunningSumIsFoldedSum` | module3/cross1/checksum.c:26-29 | Folding the carry after each addition equals reducing the unbounded sum once, to ((S-1) mod 65535) + 1 |
| `UdpChecksum.NetworkOrder` | module3/cross1/checksum.c:42 | A load followed by ntohs yields the word on the wire, on either byte order |
| `UdpChecksum.TailValue` | module3/cross1/checksum.c:48-49 | Which byte the mask keeps of an odd tail, on either byte order |
| `UdpChecksum.MeetsRfc768` | module3/cross1/checksum.c:3-56 | The code computes the checksum of RFC 768 if and only if the length is even, the host is big-endian, or the last byte and the one behind it are both zero |
| `UdpChecksum.ReceiverSeesAllOnes` | module3/cross1/server.c:66-74 | Stored in a header whose check field was zero, the checksum makes the folded sum of the packet 0xFFFF |
| `UdpChecksum.DetectsChangedWord` | module3/cross1/checksum.c:40-46 | Replacing one data word goes unnoticed if and only if the two are congruent modulo 65535: equal, or 0 and 0xFFFF |
| `UdpChecksum.OrderIndependent` | module3/cross1/checksum.c:40-46 | Permuting the data words does not change the checksum |
| `UdpChecksum.ByteOrderIndependent` | module3/cross1/checksum.c:24-46 | Summing byte-swapped words gives the byte-swapped sum |
| `UdpChecksum.SendsNoChecksum` | module3/cross1/checksum.c:55 | The code sends 0, which RFC 768 reserves, exactly when what it sums is a multiple of 65535, on either byte order and for every length |
| `UdpChecksum.SendsNoChecksumExample` | module3/cross1/server.c:48-77 | The reply "AB 1" to a local client on port 55591 is such a packet |
| `BrokerMessages.StrChr` | module3/02/utils.c:7 | The first occurrence in the C string at a position, or none |
| `BrokerMessages.CutField` | module3/02/utils.c:7-10 | A NUL in place of the next comma: the field before it and the text behind it |
| `BrokerMessages.ParseMessage` | module3/02/utils.c:3-30 | Taking the buffer apart in place equals the parse as a function, failures included |
| `BrokerMessages.ParseReceivedMessage` | module3/02/utils.c:32-46 | The same for what a subscriber reads |
| `BrokerMessages.SendReadBack` | module3/02/publisher.c:55-56 | A published line that fits is parsed back with its pid, topic and text, commas in the text included, if and only if the topic has no comma |
| `BrokerMessages.ControlReadBack` | module3/02/subscriber.c:44-45 | The same for subscribe, unsubscribe and register |
| `BrokerMessages.DeliveryReadBack` | module3/02/broker.c:146 | What the broker passes on is read back by the subscriber under the same condition |
| `Text.ScanFormatted` | module3/02/utils.c:16 | Printing a number and reading it with atoi or sscanf is the identity, whatever text follows it |
| `Text.ScanSkips` | module3/02/utils.c:16 | Reading a number skips blanks and takes a sign |
| `Text.NoNumber` | module3/02/utils.c:16 | Text that starts with neither blank, sign nor digit is read as 0 |
| `Broker.Server.FindSubscribers` | module3/02/broker.c:9-17 | The array receives the pids subscribed to the topic, in order |
| `Broker.Server.ShiftOut` | module3/02/broker.c:22-25 | Shifts the later entries one place up |
| `Broker.Server.RemoveSubscription` | module3/02/broker.c:19-29 | Removes the first match only |
| `Broker.Server.Subscribe` | module3/02/broker.c:105-118 | Appends unless present or full |
| `Broker.Server.Register` | module3/02/broker.c:125-136 | The same for publishers |
| `Broker.Server.Publish` | module3/02/broker.c:141-155 | One message to each subscriber found, as long as the array on the stack holds them all |
| `Broker.Server.HandleMessage` | module3/02/broker.c:94-160 | The dispatch equals the dispatch as a function, unparsable texts included; only a "send" needs room for its subscribers |
| `Broker.Server.Serve` | module3/02/broker.c:87-161 | The loop over the texts of a run equals the run as a function, as long as no "send" finds more than 100 subscribers |
| `BrokerDelivery.WithIsInsert` | module3/02/broker.c:105-118 | Adding to the array is inserting into a set of bounded size, and makes no duplicates |
| `BrokerDelivery.WithoutIsDelete` | module3/02/broker.c:19-29 | Removing from the array is deleting from the set |
| `BrokerDelivery.RegistersOverRuns` | module3/02/broker.c:87-161 | Whatever texts arrive, the registers hold nothing twice and stay within their arrays (texts whose fields fit the buffers) |
| `BrokerDelivery.SubscriptionsAreSet` | module3/02/broker.c:104-123 | Over every run the subscription array refines a set of at most 200 (pid, topic) pairs |
| `BrokerRegisters.PublishersAreSet` | module3/02/broker.c:124-136 | Over every run the publisher array refines the set that each announced process enters while it holds fewer than 100, and that no other request changes |
| `BrokerRegisters.OrderKept` | module3/02/broker.c:19-29 | New entries come last, and a removal leaves the others in their order |
| `BrokerRegisters.FoundInOrder` | module3/02/broker.c:9-17 | Subscribers are found in the order of the array |
| `BrokerRegisters.SentInOrder` | module3/02/broker.c:148-155 | One message for each of them, in that order |
| `BrokerRegisters.OthersIgnored` | module3/02/broker.c:99-104 | A text that cannot be parsed or has none of the four commands changes nothing and sends nothing |
| `BrokerRegisters.ParseIs` | module3/02/utils.c:3-30 | A text is taken apart if and only if it has two commas, and then at its first three |
| `BrokerRegisters.ParseReceivedIs` | module3/02/utils.c:32-46 | The text up to the first comma is the topic; without a comma the topic is "unknown" |
| `BrokerRegisters.PrintIs` | module3/02/broker.h:20-23 | A printed text is the whole of it, or its first 511 characters |
| `BrokerRegisters.TextsByExample` | module3/02/broker.c:146 | The texts on the queue, by example |
| `BrokerDelivery.FoundOnce` | module3/02/broker.c:9-17 | A process is found once for a topic it has subscribed to and not at all otherwise |
| `BrokerDelivery.PublishDelivers` | module3/02/broker.c:138-155 | A line published on a topic with at most 100 subscribers reaches each of them once, as it was written, and nobody else |
| `BrokerDelivery.InboxIsExpected` | module3/02/broker.c:87-161 | Over every run in which no line is published on a topic with more than 100 subscribers, each process receives exactly the lines published on the topics it was subscribed to at the time, each once, in order |
| `BrokerDelivery.RunBroker` | module3/02/broker.c:63-164 | The array code itself, serving such a run from the start, puts on the queue for each process exactly those lines |
| `BrokerDelivery.CrowdOverruns` | module3/02/broker.c:141-143 | The registers admit a topic with 101 to 200 subscribers, and a line published on it finds more of them than the array holds |

## Left out

- Sockets, epoll, FIFOs, fork and exec, signals, sleeps, terminal input and output, and failing
  allocations: outcomes that matter are parameters (send results, `fopen` results, random draws,
  read lengths), the rest is not part of the model.
- `list_files_in_storage` and the text of the file list reply; the reply itself is one message.
- Fields of JOIN and LEAVE messages that the server leaves uninitialised have default values.
- Partial `recv` of a chat message beyond ignoring it, malformed `data_len`, buffering inside stdio,
  the client giving up an upload whose send fails, and `bytes_received` beyond 2^31.
- The menu of the phone book asks for a last name or name until it is not empty; an empty answer is
  modelled as no answer.
- Truncation of long input lines in the phone book, and overflow of its counters.
- PhoneBook.SortedOverRuns: runs in which an edit of last name or name takes an entry out of its
  place are excluded, because the code changes keys in place; the height theorem covers them.
- The three header stores of a block that is not yet published, and the bodies of the two short
  critical sections (append, claim), are single steps; `wait_count` and the sleeps are not modelled.
- The producer and consumers, and the two ends of the copy protocol, are modelled as functions from
  state to state and not as methods, because their theorems are about interleavings of steps.
- ChatDelivery.BroadcastDelivers: descriptors in the table are taken to be distinct, which
  `add_client` does not check; `ChatServer.DistinctOverRuns` says for which runs they are.
- BlockQueueMemory.WrappedNeverStops: the wrap-around of `used_memory` itself is not modelled; it is
  unbounded, and only `remaining` is reduced modulo 2^64. The model's memory is a map without an
  end: writes behind the segment, in the runs that `SeventhBlock` and `GuardsContainExactlyWhen`
  speak of, succeed and disturb nothing but the cells they go to.
- BlockQueueExit.ExitReachable: is about some schedule; that a fair scheduler finds one is not
  stated. `BlockQueueExit.ConsumersStop` is about all schedules, after the producer's exit.
- PipeCopyTheorems.FinishedMeansCopied: assumes that a header is read on its own (for the contrary
  see `PipeCopyMerged`), names without bars, NULs and "SIZE:" whose copies' names fit 256 bytes,
  headers that fit their buffer, and files shorter than 2^31 bytes; failing opens and writes of
  copies are not modelled.
- PipeCopyMarks.AckedIsCopiedExactlyWhen: is about a pipe with room for five bytes more than a full
  write.
- ChatMembers.ListedAtEnd: is about a live descriptor, a fixed set of dead ones and runs in which no
  listed descriptor joins again.
- ChatRuns.HearsOverRuns: is about a fixed set of dead descriptors; for arbitrary send outcomes
  `ChatTable.BroadcastShrinks` says what remains.
- BrokerDelivery.InboxIsExpected: the message queue is taken to hand each process the messages of
  its type in order, and `msgsnd` to succeed. Process ids below 2 are excluded, because a type below
  1 is rejected and type 1 is the broker's own, and so are runs that publish on a topic with more
  than 100 subscribers, which overrun an array on the broker's stack.
- Broker.Server.HandleMessage: requires that a "send" finds at most 100 subscribers, for the same
  reason; what an overrun does is not part of the model.
- BrokerDelivery.RegistersOverRuns: the lengths of `command[32]`, `topic[64]` and `payload[256]`,
  which the source does not check, are not part of the run; requests that fit them are singled out
  by `BrokerDelivery.Fits`.
- `remove_publisher` and the strtok splitting of the subscriber's topics.
- EchoServer.Server.Receive: messages that fill the 1024-byte receive buffer (996 bytes behind the
  headers) and hold no NUL are excluded, except a CLOSE: the buffer then ends without a NUL, and
  what line 165 prints is whatever follows it on the stack. Longer datagrams arrive cut to that
  length.
- EchoNumbering.NumberReadBack: counters beyond 2^31 - 1 are not part of the model.
- IP header fields other than the checksum inputs, packets too short for their headers, and UDP
  lengths beyond 16 bits in the echo server.
- The POSIX twin of the producer and consumers (module3/05), and module3/03, module3/06, module3/08,
  module3/cross2, module5 and module2/6_3, whose claims are easier or depend on APIs not shown.
