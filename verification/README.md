# Verified model of the MarketWire feed engine

MarketWire takes MoldUDP64 datagrams, puts their messages back in order, decodes them as Nasdaq ITCH 5.0
and applies the events to an arena-backed order book. A small compiler turns message schemas into the
decoder's views. This project models those parts in Dafny and proves what they are for:

* **The order book refines a simple map.** For every event sequence, every capacity and every hash function of
  the id index, the book with its arena, free list, linked queues, tombstoned hash index and cached level totals
  answers and shows what a map from order id to (order, priority) says: acceptance, lookup, live count, best
  prices, level snapshots in time priority, totals and state hash. The hash is a fold over one list of numbers, and books have
  equal lists exactly when they hold the same orders in the same queues. Rejected events and failed allocations leave
  arena, free list, queues, level maps and the map that the index stores as they were; the index's table may keep an
  extra tombstone. Shares are conserved over every run, and no resting order overtakes another.
* **Recovery releases the longest gapless run.** Over every history of loss, reordering, repetition and
  packing, the messages released are exactly `first_expected .. expected-1`, each with the payload that came
  first. Which request each packet leads to is said exactly: it starts at `expected`, can be encoded, and covers the
  hole below what the packet shows to exist or the first 65534 messages of it. A request made over a message packet
  names nothing that has arrived; when one made over a heartbeat does, and when one repeats an earlier one, is said exactly.
* **Any arrival history gives the ordered book.** However the datagrams of one decodable stream are cut,
  ordered, repeated or lost, the run succeeds and the book is that of in-order delivery up to the first missing message.
* **The schema compiler is correct from text to bytes.** The parser accepts exactly the written forms of
  well-formed protocols and gives the protocol back, whatever blanks and comments stand between the tokens. Its one pass
  computes offsets that tile the message, and every emitted accessor reads what the schema says.
* **The wire formats agree.** Framing and parsing are inverse in both directions, and the generated and the
  handwritten ITCH decoder agree on every byte string of a book-changing type, for every schema text that declares
  the seven book-changing messages. Both give back every event that is written out field by field.
* **The model says what the code says, in plain numbers.** What each event, list, request, packet, token and layout is, is
  stated once more without the helpers that define it (`BookLaws`, `HashWords`, `ItchWire`, `SchemaLaws`, and the last
  parts of `Bytes`, `MoldUdp64`, `Delivery` and `RecoveryEngine`).

## Layout

| files | content |
|---|---|
| `Types`, `Sequences`, `Ordered` | integer widths, events; equalities of sequences; listing a finite set by a rank, and counting |
| `FlatOrderIndex` | the open-addressing index |
| `BookModel`, `BookView`, `BookObservation`, `BookQueues`, `BookLaws` | the simple model, what it shows, when two books show the same, time priority, and each event and list in plain terms |
| `HashMix`, `BookHash`, `HashWords` | one step of the state hash, the numbers that it goes over, and what these tell apart |
| `SlotLists`, `LevelMaps`, `BookState`, `BookJoin`, `BookLeave`, `BookReduce`, `BookReplace`, `BookAgreement` | the concrete state as a value, its invariant, its transitions, and their meaning in the model |
| `OrderBook`, `BookRuns` | the book as a class, and whole runs of it |
| `Bytes`, `MoldUdp64` | readers, writers and framing |
| `RecoverySpec`, `RecoveryEngine` | what recovery must deliver, and the engine |
| `Schema`, `SchemaText`, `SchemaGrammar`, `SchemaLaws`, `SchemaPrinter`, `ProtocolCompiler` | layouts and accessors, tokens, grammar, these in characters and numbers, printing, and the compiler front end |
| `Itch`, `ItchWire`, `CompiledItch`, `ItchSchema` | the two decoders, encoders that they invert, the decoder built from any compiled schema text, and a text for it |
| `Delivery`, `Pipeline` | what a history of datagrams amounts to; the whole engine and the capstone |

`dafny verify dfyconfig.toml` checks everything.

Five things in the code are not as one might expect, and are stated as they are:

* `RecoveryEngine` uses sequence number 0 for "no request" (`include/efe/recovery_engine.hpp:41-42`), so an engine started at 0
  may fail to ask for message 0. `HoleRequestedIff` gives the exact condition and `ZeroStartAsksForNothing` an instance.
* A request made over a heartbeat or end-of-session packet may name messages that are buffered already
  (`src/recovery_engine.cpp:43-44`). `NamesHoleIff` gives the exact condition and `HeartbeatNamesBuffered` an instance.
* A hole of more than 65534 messages is asked for again, in the same words, with every packet
  (`src/recovery_engine.cpp:13-15`). `RepeatsIff` gives the exact condition and `LargeHoleAskedAgain` an instance.
* The schema parser does not check that a message's widths fit into `size_t` (`tools/protocolc/main.cpp:142`).
  `TilesIffFits` gives the exact condition and `OverflowingSchema` a text that the parser accepts and whose message gets size 0.
* `mold_packet` writes counts and lengths modulo 2^16 (`src/main.cpp:45-51`). `ReadsBackIffFits` says exactly when its
  output reads back, and `FullCountIsRejected` gives an instance where it does not.

## Model

| member | source | states |
|---|---|---|
| `FlatOrderIndexModel.CapacityFor` | include/efe/flat_order_index.hpp:17-22 | the table is a power of two of at least 16 cells and at least twice the number of orders |
| `FlatOrderIndexModel.FlatOrderIndex.constructor` | include/efe/flat_order_index.hpp:17-22 | a new index stores the empty map, for any hash function |
| `FlatOrderIndexModel.FlatOrderIndex.Find` | include/efe/flat_order_index.hpp:24-33 | lookup agrees with the stored map, also when no empty cell is left |
| `FlatOrderIndexModel.FlatOrderIndex.Target` | include/efe/flat_order_index.hpp:37-51 | the probe ends at the key itself, or chooses the first cell on the path that is not occupied, and meets no hole before |
| `FlatOrderIndexModel.FlatOrderIndex.Insert` | include/efe/flat_order_index.hpp:35-57 | succeeds if and only if the load is below 70% and the key is absent; the stored map gains exactly that key |
| `FlatOrderIndexModel.FlatOrderIndex.Erase` | include/efe/flat_order_index.hpp:59-72 | succeeds if and only if the key is stored; the stored map loses exactly that key |
| `FlatOrderIndexModel.EmptyCellEndsSearch` | include/efe/flat_order_index.hpp:28-28 | stopping at an empty cell is right: the key is not in the table |
| `FlatOrderIndexModel.FullProbeEndsSearch` | include/efe/flat_order_index.hpp:26-32 | a full turn without a hit proves the key absent, with tombstones everywhere |
| `FlatOrderIndexModel.StoreKeepsRepresentation` | include/efe/flat_order_index.hpp:43-55 | writing a key into a free cell of its path keeps every other key reachable |
| `FlatOrderIndexModel.BuryKeepsRepresentation` | include/efe/flat_order_index.hpp:64-68 | a tombstone opens no hole on another key's path |
| `FlatOrderIndexModel.SomeCellFree` | include/efe/flat_order_index.hpp:36-56 | below the load limit an insertion always finds a cell |
| `BookModel.StepKeepsWellFormed` | src/order_book.cpp:41-51 | every event keeps positive quantities, distinct priorities, the capacity and level sums within 32 bits |
| `BookModel.RunKeepsWellFormed` | tests/test_order_book.cpp:64-121 | so does every event sequence |
| `BookModel.RunAppend` | src/order_book.cpp:41-51 | a run may be cut anywhere and continued |
| `BookModel.StepConserves` | src/order_book.cpp:69-199 | one event moves shares between the live orders and the ledger without loss |
| `BookModel.SharesConserved` | src/order_book.cpp:69-199 | over every run, added + replacing = live + executed + canceled + deleted + replaced |
| `BookLaws.LevelSumLaw` | src/order_book.cpp:84-97 | the sum of a level takes in exactly the orders of its symbol, side and price |
| `BookLaws.AddLaw` | src/order_book.cpp:69-97 | an add is accepted if and only if id and quantity are nonzero, the id is new, a slot is free and the level stays within 32 bits; it brings that order in with the newest priority |
| `BookLaws.ExecuteLaw` | src/order_book.cpp:110-122 | an execution is accepted if and only if the order is live and has that many shares, at least one; a fully executed order goes, any other keeps all but those shares |
| `BookLaws.CancelLaw` | src/order_book.cpp:124-136 | the same for cancels |
| `BookLaws.DeleteLaw` | src/order_book.cpp:138-138 | a delete is accepted if and only if the order is live, and takes out just that order |
| `BookLaws.ReplaceLaw` | src/order_book.cpp:140-183 | a replace is accepted if and only if the old id is live, new id and quantity are nonzero, the new id is not live and its level has room without the old order; symbol and side stay, id, quantity and price are the new ones, and the priority is the newest |
| `BookLaws.RunLaw` | src/order_book.cpp:41-51 | a run is its events, one step each, from the first to the last |
| `BookLaws.LedgerLaw` | src/order_book.cpp:69-199 | which shares each flow of the ledger counts |
| `BookView.FifoSorts` | src/order_book.cpp:239-239 | the queue of a level lists exactly its orders, by priority |
| `BookView.FifoUnique` | src/order_book.cpp:239-239 | and is the only such list |
| `BookView.FifoAfterJoin` | src/order_book.cpp:53-59 | a new order goes to the end of its own queue and changes no other |
| `BookView.FifoAfterLeave` | src/order_book.cpp:61-67 | a leaving order is cut out of its queue and nothing else moves |
| `BookView.FifoAfterPartialReduce` | src/order_book.cpp:110-136 | a partial execution or cancel moves no order |
| `BookView.BestIsBest` | src/order_book.cpp:220-230 | the best price is one that an order of that side has, and no order of the side has a better one |
| `BookView.SnapshotShowsFifo` | include/efe/order_book.hpp:16-20 | a snapshot has the level's price, its sum of quantities, and its ids in time priority |
| `BookView.RankIsLexicographic` | include/efe/types.hpp:58-60 | the rank that lists symbols is the lexicographic order of their characters |
| `BookLaws.CharLaw` | include/efe/types.hpp:58-60 | characters compare as signed bytes |
| `BookLaws.BestLaw` | src/order_book.cpp:220-230 | the best bid is the highest price of a resting buy order and the best ask the lowest of a resting sell order; there is none exactly when no such order rests |
| `BookLaws.PriceListLaw` | src/order_book.cpp:232-256 | bids are listed from the highest price down and asks from the lowest up, each resting price once |
| `BookLaws.QueuedInOrder` | src/order_book.cpp:239-239 | a queue runs from the oldest priority to the newest |
| `BookLaws.QueuedIff` | src/order_book.cpp:239-239 | and holds exactly the orders of its symbol, side and price |
| `BookLaws.SnapshotsLaw` | src/order_book.cpp:232-256 | a list of snapshots has one per resting price, in order, with the sum of its orders and their ids by priority |
| `BookLaws.SideViewLaw` | src/order_book.cpp:264-273 | a side is shown price by price, with the sum of the orders there and, by priority, the id and quantity of each |
| `BookLaws.SymbolsLaw` | src/order_book.cpp:275-275 | symbols are shown in lexicographic order of signed characters |
| `BookLaws.SymbolAt` | src/order_book.cpp:275-279 | each with its own bids and its own asks |
| `BookLaws.SymbolShownIff` | src/order_book.cpp:275-279 | a symbol is shown exactly when an order has it |
| `BookQueues.QueueAfterStep` | src/order_book.cpp:69-199 | what every event does to the queue of every level: append, cut out, or nothing |
| `BookQueues.RunDescends` | src/order_book.cpp:110-183 | after any run each live order came in anew or is an old one at its old place with no more shares |
| `BookQueues.NoOvertaking` | tests/test_order_book.cpp:106-119 | over any run an order that stood behind another stays behind it while both rest, and newcomers stand behind |
| `BookObservation.ShowsSameIffSame` | src/order_book.cpp:232-281 | two books show the same if and only if they have the same orders in the same queues |
| `BookObservation.SameBookHashesSame` | src/order_book.cpp:258-281 | the state hash depends only on orders and their time priority, not on priority numbers |
| `HashMix.MixUndone` | src/order_book.cpp:10-12 | taking the old hash out of the new one by exclusive or leaves `value + 0x9e3779b97f4a7c15 + (h << 6) + (h >> 2)` modulo 2^64 |
| `HashMix.MixTellsApart` | src/order_book.cpp:10-12 | a step tells any two 64-bit words apart |
| `HashMix.MixValue` | src/order_book.cpp:10-12 | mixing 1 into the seed gives 0x0629c6f72cf9ed3a |
| `BookHash.FoldOne` | src/order_book.cpp:258-281 | numbers are mixed in one after the other |
| `BookHash.EmptyBookHash` | src/order_book.cpp:259-260 | the hash starts from the seed 0xcbf29ce484222325 with the number of symbols |
| `HashWords.WordsOfOneBid` | src/order_book.cpp:258-281 | the numbers of a book with one bid: 1, eight characters, 0, 1, price, total, id, quantity, end mark, 1, 0 |
| `HashWords.WordsOfOneAsk` | src/order_book.cpp:258-281 | the numbers of a book with one ask level of two orders, in order |
| `HashWords.WordsUnique` | src/order_book.cpp:258-281 | the list of numbers determines symbols, levels, totals and queues |
| `HashWords.SameWordsIffSameBook` | src/order_book.cpp:258-281 | two well-formed books are hashed from the same numbers if and only if they hold the same orders in the same queues |
| `SlotLists.FreeListPop` | src/order_book.cpp:26-33 | taking the head leaves the rest of the free list |
| `SlotLists.FreeListPush` | src/order_book.cpp:35-39 | releasing puts the slot in front of the free list |
| `SlotLists.LinkedChain` | src/order_book.cpp:53-59 | linking at the tail extends the doubly linked list, `prev` and `next` staying inverse |
| `SlotLists.UnlinkedChain` | src/order_book.cpp:61-67 | unlinking cuts one slot out of the doubly linked list wherever it stands |
| `BookJoin.JoinKeepsConsistent` | src/order_book.cpp:69-96 | adding an order keeps arena, free list, queues, index and level maps in agreement |
| `BookJoin.JoinInModel` | src/order_book.cpp:69-96 | and adds exactly that order to the model |
| `BookLeave.LeaveKeepsConsistent` | src/order_book.cpp:186-213 | removing an order keeps the structures in agreement; empty levels and books go |
| `BookLeave.LeaveInModel` | src/order_book.cpp:186-213 | and removes exactly that order from the model |
| `BookReduce.ReduceKeepsConsistent` | src/order_book.cpp:116-119 | taking shares off an order and its level keeps the structures in agreement |
| `BookReduce.ReduceInModel` | src/order_book.cpp:116-119 | and lessens exactly that order in the model, at its old priority |
| `BookReplace.ReplacedInModel` | src/order_book.cpp:140-183 | writing the new order into the old slot means removing the old order and adding the new one with a new priority |
| `BookReplace.FitsIff` | src/order_book.cpp:148-166 | the overflow test is exact: the target level's sum without the old order plus the new quantity fits 32 bits |
| `BookReplace.SameAssembled` | src/order_book.cpp:148-160 | the writes of a same-price replacement add up to leave-then-join |
| `BookReplace.MovedAssembled` | src/order_book.cpp:161-181 | so do those of a replacement at another price, with the old level dropped if empty |
| `BookAgreement.SlotsPartition` | src/order_book.cpp:15-67 | every slot is in the free list or in the queue of exactly one level, and no list visits a slot twice |
| `BookAgreement.LiveCount` | src/order_book.cpp:26-39 | free slots + live orders = capacity, the index holds exactly the live ids, and the free list is empty exactly when the book is full |
| `BookAgreement.TotalIsLevelSum` | src/order_book.cpp:84-97 | each cached total is the sum of its level's quantities |
| `BookAgreement.QueueIsFifo` | src/order_book.cpp:239-239 | walking a level's list visits its orders in time priority |
| `BookAgreement.PricesAreKeys` | src/order_book.cpp:201-213 | a level is in the map exactly when some order has its price |
| `BookAgreement.SymbolsAreKeys` | src/order_book.cpp:201-213 | a symbol has a book exactly when some order has that symbol |
| `BookAgreement.StateIsWellFormed` | src/order_book.cpp:84-97 | a consistent state whose orders have nonzero ids and positive quantities stands for a well-formed model, level sums in 32 bits included |
| `OrderBookModel.OrderBook.constructor` | src/order_book.cpp:15-24 | a new book is valid and empty, with one free list through all slots |
| `OrderBookModel.NewBook` | src/order_book.cpp:15-24 | construction is refused exactly for size 0 and sizes from UINT32_MAX on |
| `OrderBookModel.OrderBook.ChainFreeSlots` | src/order_book.cpp:20-22 | every slot's free link points to its successor, the last one's to none |
| `OrderBookModel.OrderBook.AllocateSlot` | src/order_book.cpp:26-33 | the head of the free list is taken, or nothing changes |
| `OrderBookModel.OrderBook.ReleaseSlot` | src/order_book.cpp:35-39 | the slot is blanked and becomes the head of the free list |
| `OrderBookModel.OrderBook.LinkAtTail` | src/order_book.cpp:53-59 | the level's list gets the slot at its end |
| `OrderBookModel.OrderBook.Unlink` | src/order_book.cpp:61-67 | the level's list loses the slot and keeps its order |
| `OrderBookModel.OrderBook.Reserve` | src/order_book.cpp:73-80 | in a valid book the index insertion never fails, so the rollback there is dead code |
| `OrderBookModel.OrderBook.Rollback` | src/order_book.cpp:98-103 | the undo gives back arena, free list, level maps and the stored map from before the add; the table keeps a tombstone |
| `OrderBookModel.OrderBook.Add` | src/order_book.cpp:69-108 | accepted if and only if the model accepts, with the model's new state; otherwise, and on any allocation failure, arena, lists, level maps and the stored map are as before |
| `OrderBookModel.OrderBook.RemoveOrder` | src/order_book.cpp:186-199 | succeeds exactly on a live order and removes just that one |
| `OrderBookModel.OrderBook.EraseEmptyLevel` | src/order_book.cpp:201-213 | the level goes if it is empty, then the symbol's book if it has no level; every other level and book stays |
| `OrderBookModel.OrderBook.Execute` | src/order_book.cpp:110-122 | accepted if and only if the order is live and has that many shares, at least one; the order goes with its last share and otherwise has that many fewer; the new state is the model's; rejected executions change nothing; no subtraction wraps |
| `OrderBookModel.OrderBook.Cancel` | src/order_book.cpp:124-136 | the same for cancels |
| `OrderBookModel.OrderBook.Erase` | src/order_book.cpp:138-138 | accepted if and only if the order is live, which is then gone; the new state is the model's; rejected deletes change nothing |
| `OrderBookModel.OrderBook.Replace` | src/order_book.cpp:140-184 | accepted if and only if the model accepts, even at a full arena; otherwise, and on an allocation failure, arena, lists, level maps and the stored map are as before |
| `OrderBookModel.OrderBook.Apply` | src/order_book.cpp:41-51 | one event: answer and new state are the model's |
| `OrderBookModel.OrderBook.Find` | src/order_book.cpp:215-218 | finds exactly the live orders |
| `OrderBookModel.OrderBook.LiveOrderCount` | include/efe/order_book.hpp:36-36 | the number of live orders of the model |
| `OrderBookModel.OrderBook.BestBid` | src/order_book.cpp:220-224 | the model's best bid |
| `OrderBookModel.OrderBook.BestAsk` | src/order_book.cpp:226-230 | the model's best ask |
| `OrderBookModel.OrderBook.BidLevels` | src/order_book.cpp:232-243 | all bid levels from the highest price, with totals and queues of the model |
| `OrderBookModel.OrderBook.AskLevels` | src/order_book.cpp:245-256 | all ask levels from the lowest price, with totals and queues of the model |
| `OrderBookModel.OrderBook.StateHash` | src/order_book.cpp:258-281 | the fold of `hash_mix` from the seed over the numbers of what the model shows, independent of slots, tombstones and history |
| `BookRuns.ApplyAll` | tests/test_order_book.cpp:64-121 | for every event sequence, capacity and hash function, every answer and the final book are the model's |
| `BookRuns.SameBookSameHash` | src/order_book.cpp:258-281 | a book hashes to what any orders in the same queues hash to, so books that hold the same orders in the same queues hash alike whatever their capacities, indexes, histories and priority numbers |
| `Bytes.ReadsBackNumber` | include/efe/byte_reader.hpp:41-83 | reading a written number gives the number |
| `Bytes.WritesBackBytes` | include/efe/byte_reader.hpp:41-83 | writing a read number gives the bytes |
| `Bytes.MostSignificantFirst` | include/efe/byte_reader.hpp:33-39 | four bytes as a number, and the number as bytes, with the most significant byte first |
| `Bytes.EightBytes` | include/efe/byte_reader.hpp:50-57 | eight bytes as a number |
| `Bytes.SmallReadersRead` | include/efe/byte_reader.hpp:22-39 | the one-expression readers read big-endian numbers, and fail exactly when bytes are missing |
| `Bytes.ReadLoop` | include/efe/byte_reader.hpp:41-57 | so do the accumulating loops |
| `Bytes.WriteLoop` | include/efe/byte_reader.hpp:68-83 | writes the big-endian bytes in place and nothing else, or refuses a short buffer |
| `MoldUdp64.ReadRecords` | src/moldudp64.cpp:46-59 | the loop with a moving offset reads the records, or finds the truncation or the trailing bytes |
| `MoldUdp64.ParseDownstream` | src/moldudp64.cpp:25-61 | parsing as specified, with every error |
| `MoldUdp64.MoldPacket` | src/main.cpp:45-51 | the buffer filled from left to right is the packet's encoding |
| `MoldUdp64.EncodeRequest` | src/moldudp64.cpp:63-70 | accepts exactly counts 1 to 65534 and writes session, sequence and count |
| `MoldUdp64.PacketReadsBack` | src/moldudp64.cpp:25-61 | parsing inverts framing for up to 65534 payloads of up to 65535 bytes and a sequence range that does not wrap |
| `MoldUdp64.PacketWritesBack` | src/moldudp64.cpp:25-61 | framing an accepted datagram again gives the same bytes unless it ends the session |
| `MoldUdp64.SessionInBytes` | src/main.cpp:47-47 | a session name is cut to ten characters or filled up with spaces |
| `MoldUdp64.EmptyPacketsInBytes` | src/moldudp64.cpp:31-40 | session, number and a count of 0 parse as a heartbeat, and with a count of 0xFFFF as the end of the session |
| `MoldUdp64.EmptyPacketsWithBytesBehind` | src/moldudp64.cpp:31-40 | with any byte behind it, either header is rejected |
| `MoldUdp64.TwoMessagesInBytes` | src/moldudp64.cpp:42-60 | a packet of two messages, byte by byte, parses as those messages with consecutive numbers |
| `MoldUdp64.ShortIsTruncated` | src/moldudp64.cpp:26-26 | fewer than 20 bytes are rejected as truncated |
| `MoldUdp64.FramedInBytes` | src/main.cpp:45-51 | which bytes framing writes where |
| `MoldUdp64.RecordsInBytes` | src/main.cpp:49-49 | each payload stands behind its length, in order |
| `MoldUdp64.ReadsBackIffFits` | src/main.cpp:45-51 | framing can be undone if and only if the messages fit a packet |
| `MoldUdp64.FullCountIsRejected` | src/main.cpp:48-48 | 65535 empty payloads frame as an end-of-session header with bytes after it, which parsing rejects |
| `RecoverySpec.ArrivedIffSent` | src/recovery_engine.cpp:49-62 | a number counts as arrived exactly when some message carried it |
| `RecoverySpec.ArrivedAfter` | src/recovery_engine.cpp:49-62 | further messages add the numbers that they carry, from the first expected one on, and no others |
| `RecoverySpec.FirstCopyWins` | src/recovery_engine.cpp:60-60 | of several copies, the first payload is kept |
| `RecoverySpec.FrontierUnique` | src/recovery_engine.cpp:21-36 | the first missing number is determined by what has arrived |
| `RecoverySpec.SliceAt` | src/recovery_engine.cpp:21-36 | the i-th released message has the number `first_expected + i` and that number's payload |
| `RecoverySpec.OrderIrrelevant` | src/recovery_engine.cpp:49-62 | reordering and repeating messages of one stream does not change what has arrived |
| `RecoveryEngineModel.RecoveryEngine.constructor` | include/efe/recovery_engine.hpp:27-27 | nothing arrived, released or requested |
| `RecoveryEngineModel.RecoveryEngine.MaybeRequest` | src/recovery_engine.cpp:10-19 | exactly which request is made, given the earlier ones and the engine's memory of the last; it repeats an earlier one exactly when the memory holds one of the largest size from `expected` |
| `RecoveryEngineModel.RecoveryEngine.Drain` | src/recovery_engine.cpp:21-36 | releases buffered messages up to the first missing number |
| `RecoveryEngineModel.RecoveryEngine.Accept` | src/recovery_engine.cpp:50-61 | one message is stale, released with what it held up, or buffered |
| `RecoveryEngineModel.RecoveryEngine.AcceptAll` | src/recovery_engine.cpp:49-62 | one packet's messages: the release stays the longest gapless run, and the stale flag is exact |
| `RecoveryEngineModel.RecoveryEngine.RequestFirstHole` | src/recovery_engine.cpp:64-64 | exactly which request is made for the hole below the first buffered message; it names nothing that has arrived |
| `RecoveryEngineModel.RecoveryEngine.Ingest` | src/recovery_engine.cpp:38-66 | exact failures; release, buffer and flags; exactly which request each packet leads to, when it repeats an earlier one and when it names something that has arrived; a heartbeat or end-of-session packet beyond `expected` leads to the request for `expected` up to the number before it, or the first 65534 of these, unless an earlier request has reached that far or only message 0 is missing |
| `RecoveryEngineModel.ReleasedSince` | src/recovery_engine.cpp:21-62 | what is released between two moments is exactly the messages from the earlier to the later `expected`, with no gap or repeat |
| `RecoveryEngineModel.ReleasedLaw` | src/recovery_engine.cpp:21-62 | the i-th released message has the number `first_expected + i` and the payload that arrived first under it, up to `expected - 1`; the buffer holds exactly what has arrived from `expected` on |
| `RecoveryEngineModel.RequestLaw` | src/recovery_engine.cpp:10-19 | in numbers: a request is made exactly when the observed number lies beyond `expected` and no earlier request from `expected` reaches up to it, message 0 alone apart, and is for the hole or its first 65534 messages |
| `RecoveryEngineModel.PacketRequestLaw` | src/recovery_engine.cpp:43-64 | the same in the packet's terms: up to the number of a heartbeat or end of session, or else up to the least buffered number |
| `RecoveryEngineModel.NoRequestLaw` | src/recovery_engine.cpp:11-13 | a packet of messages that leaves nothing buffered leads to no request |
| `RecoveryEngineModel.HoleRequestedIff` | src/recovery_engine.cpp:10-19 | with messages buffered, a request covers the first hole or has the largest size, unless the engine waits for message 0 and has asked nothing |
| `RecoveryEngineModel.MemoryDecides` | src/recovery_engine.cpp:13-13 | the two remembered numbers decide whether any earlier request from `expected` reaches a given number, 0 at start 0 aside |
| `RecoveryEngineModel.RepeatsIff` | src/recovery_engine.cpp:13-18 | a request repeats an earlier one if and only if one of 65534 messages has been made from the same start |
| `RecoveryEngineModel.NamesHoleIff` | src/recovery_engine.cpp:10-19 | a request names nothing that has arrived if and only if everything buffered lies beyond its end |
| `RecoveryEngineModel.LargeHoleAskedAgain` | src/recovery_engine.cpp:13-15 | two heartbeats that announce message 100000 to an engine that expects 1 both lead to the request for 1 to 65534 |
| `RecoveryEngineModel.HeartbeatNamesBuffered` | src/recovery_engine.cpp:43-44 | with message 5 buffered, a heartbeat that announces 10 leads to the request for 1 to 9 |
| `RecoveryEngineModel.ZeroStartAsksForNothing` | include/efe/recovery_engine.hpp:41-42 | an engine that starts at 0 and sees message 1 makes no request |
| `Schema.TilesIffFits` | tools/protocolc/main.cpp:141-142 | fields tile the message from byte 1 to its size if and only if the widths do not overflow `size_t` |
| `SchemaPrinter.OverflowingSchema` | tools/protocolc/main.cpp:135-142 | a schema text with a field of width 2^64-1 is accepted, and its message gets size 0 and does not tile |
| `SchemaLaws.OffsetsLaw` | tools/protocolc/main.cpp:141-142 | the first field is at byte 1, each other right behind the one before it, and the size is where the last ends, modulo 2^64 |
| `SchemaLaws.EmptyMessageLaw` | tools/protocolc/main.cpp:97-97 | a message without fields has one byte |
| `SchemaLaws.Widths` | tools/protocolc/main.cpp:153-160 | the width of each type |
| `Schema.AccessorReads` | tools/protocolc/main.cpp:198-208 | every type has an accessor, and it reads what the type means |
| `Schema.AccessorCorrect` | tools/protocolc/main.cpp:223-229 | on bytes that the view accepts, every accessor gives its field's meaning and never raises truncation |
| `SchemaLaws.AccessorValues` | tools/protocolc/main.cpp:198-208 | which bytes each accessor reads, and as what |
| `SchemaLaws.ViewLaw` | tools/protocolc/main.cpp:225-225 | a view takes exactly the messages of its type and size |
| `Schema.FieldsMakeUpMessage` | tools/protocolc/main.cpp:141-142 | the fields' bytes put together are all bytes after the type |
| `SchemaText.NextConsumes` | tools/protocolc/main.cpp:24-41 | lexing ends: every token but the last uses up text |
| `SchemaText.ReadsPiece` | tools/protocolc/main.cpp:24-79 | a legal token after any legal blanks is read as that token |
| `SchemaText.SkippedBlank` | tools/protocolc/main.cpp:44-55 | whatever is skipped is blanks and comments, nothing else |
| `SchemaText.LexemeWritten` | tools/protocolc/main.cpp:57-79 | every token that is read is legal and was written there |
| `SchemaLaws.BlanksSkipped` | tools/protocolc/main.cpp:46-47 | space, tab, line feed, vertical tab, form feed and carriage return are skipped |
| `SchemaLaws.OthersNotSkipped` | tools/protocolc/main.cpp:44-55 | no other character is, comments apart |
| `SchemaLaws.CommentsSkipped` | tools/protocolc/main.cpp:48-52 | a comment starts with two slashes and ends with its line |
| `SchemaLaws.LexemeOfOne` | tools/protocolc/main.cpp:27-40 | which token, if any, each single character is |
| `SchemaLaws.LexemeOfTwo` | tools/protocolc/main.cpp:57-67 | identifiers go on with letters, digits and underscores, numerals with digits |
| `SchemaLaws.LexemeOfString` | tools/protocolc/main.cpp:69-79 | a string literal ends at the next quote; a line break or the end of the text in it is an error |
| `SchemaGrammar.WrittenIsRead` | tools/protocolc/main.cpp:24-79 | tokens printed with any legal blanks are read back |
| `SchemaGrammar.ReadWasWritten` | tools/protocolc/main.cpp:24-79 | every text without lexical errors is such a printing of its tokens |
| `SchemaGrammar.TypeIff` | tools/protocolc/main.cpp:132-140 | a field type is accepted if and only if it is known, and a text width is 1 to 2^64-1 |
| `SchemaLaws.ShortTypeNames` | tools/protocolc/main.cpp:153-160 | what `u8`, `char`, `u16_be` and `u32_be` name |
| `SchemaLaws.LongTypeNames` | tools/protocolc/main.cpp:153-160 | what `u48_be`, `u64_be`, `price4` and `price8` name |
| `SchemaLaws.TextType` | tools/protocolc/main.cpp:133-137 | `ascii` takes a width in brackets, from 1 to 2^64-1 |
| `SchemaLaws.OtherTypeRejected` | tools/protocolc/main.cpp:159-159 | any other name is rejected |
| `SchemaLaws.DecimalNumerals` | tools/protocolc/main.cpp:135-135 | numerals are decimal |
| `SchemaGrammar.FieldIff` | tools/protocolc/main.cpp:128-144 | a field is accepted if and only if it is spelled right and its name is new |
| `SchemaGrammar.HeadIff` | tools/protocolc/main.cpp:117-125 | a message head is accepted if and only if it is spelled right and its type and name are new |
| `SchemaGrammar.ProtocolIff` | tools/protocolc/main.cpp:109-150 | on tokens, the parser accepts exactly the spellings of well-formed protocols |
| `SchemaLaws.ProtocolInTokens` | tools/protocolc/main.cpp:109-150 | the words and marks of a protocol with one message and one field, in order, are accepted as that protocol |
| `SchemaLaws.AcceptedIsSound` | tools/protocolc/main.cpp:121-137 | an accepted text has no two messages with one name or type, no two fields of a message with one name, and no empty text field |
| `SchemaGrammar.AcceptsExactlyWritten` | tools/protocolc/main.cpp:105-180 | on text, the parser accepts exactly the written forms of well-formed protocols and gives the protocol back |
| `SchemaPrinter.PrintedParsesBack` | tools/protocolc/main.cpp:105-180 | printing a well-formed protocol with any blanks and comments and parsing returns it |
| `SchemaPrinter.RenderedParsesBack` | tools/protocolc/main.cpp:105-180 | every well-formed protocol with legal names has a text that parses back to it |
| `ProtocolCompiler.Lexer.SkipBlanks` | tools/protocolc/main.cpp:44-55 | skips blanks and comments, and `line` is the number of the current line |
| `ProtocolCompiler.Lexer.WordToken` | tools/protocolc/main.cpp:57-67 | the longest identifier or numeral |
| `ProtocolCompiler.Lexer.StringToken` | tools/protocolc/main.cpp:69-79 | the text up to the closing quote, or the right error |
| `ProtocolCompiler.Lexer.NextToken` | tools/protocolc/main.cpp:24-41 | the next token, or the right error |
| `ProtocolCompiler.Parser.Take` | tools/protocolc/main.cpp:167-172 | checks the current token and then reads the one after it |
| `ProtocolCompiler.Parser.TakeField` | tools/protocolc/main.cpp:128-144 | one field, placed where the message so far ends |
| `ProtocolCompiler.Parser.TakeFields` | tools/protocolc/main.cpp:126-145 | the loop's running offsets and size are the layout of the fields |
| `ProtocolCompiler.Parser.TakeHead` | tools/protocolc/main.cpp:117-125 | name and type of a message with all checks, in the code's order |
| `ProtocolCompiler.Parser.TakeMessages` | tools/protocolc/main.cpp:114-148 | the loop over the messages gives their layouts |
| `ProtocolCompiler.Parse` | tools/protocolc/main.cpp:107-150 | one pass over the characters gives the layout of exactly the protocol that the grammar finds, or its first error |
| `ProtocolCompiler.CompiledAccessorCorrect` | tools/protocolc/main.cpp:210-231 | from text to bytes: every accessor compiled from any written form reads what the schema says |
| `ProtocolCompiler.MessageSizesRight` | tools/protocolc/main.cpp:232-234 | the emitted switch gives each message type its own size, and other types none |
| `Itch.AddAgrees` | schemas/itch50.efe:105-114 | the schema puts an add order's fields where the handwritten decoder reads them |
| `Itch.AddWithMpidAgrees` | schemas/itch50.efe:116-126 | the same with the attribution field |
| `Itch.ExecuteAgrees` | schemas/itch50.efe:128-135 | the same for executions |
| `Itch.ExecuteWithPriceAgrees` | schemas/itch50.efe:137-146 | the same for executions with price |
| `Itch.CancelAgrees` | schemas/itch50.efe:148-154 | the same for cancels |
| `Itch.DeleteAgrees` | schemas/itch50.efe:156-161 | the same for deletes |
| `Itch.ReplaceAgrees` | schemas/itch50.efe:163-171 | the same for replaces |
| `Itch.DecodersAgree` | src/itch_decoder.cpp:31-118 | on every byte string of a book-changing type both decoders give the same event or both reject |
| `Itch.DecodersAgreeIff` | src/itch_decoder.cpp:31-118 | on all byte strings: they agree if and only if the bytes are empty, of a book-changing type, or of another known type and its length |
| `ItchWire.AddReadsBack` | src/itch_decoder.cpp:48-52 | both decoders give back an add written out as type, locate, tracking, timestamp, reference, side, shares, stock and price |
| `ItchWire.AddWithMpidReadsBack` | src/itch_decoder.cpp:53-57 | the same with attribution, which they skip |
| `ItchWire.ExecuteReadsBack` | src/itch_decoder.cpp:58-62 | the same for executions: reference, shares, match number; no price, printable |
| `ItchWire.ExecuteWithPriceReadsBack` | src/itch_decoder.cpp:63-67 | the same with price, printable exactly for `Y` |
| `ItchWire.CancelReadsBack` | src/itch_decoder.cpp:68-71 | the same for cancels: reference, shares |
| `ItchWire.DeleteReadsBack` | src/itch_decoder.cpp:72-75 | the same for deletes: reference |
| `ItchWire.ReplaceReadsBack` | src/itch_decoder.cpp:76-80 | the same for replaces: original reference, new reference, shares, price |
| `ItchWire.OtherSideRejected` | src/itch_decoder.cpp:16-20 | a side other than `B` and `S` is rejected by both |
| `ItchWire.OtherLengthRejected` | src/itch_decoder.cpp:24-28 | so is any length but 36, 40, 31, 36, 23, 19 and 35 for the seven types |
| `CompiledItch.EventFromIs` | src/itch_decoder.cpp:47-83 | calling a view's accessors by name reads the fields that the schema declares under those names |
| `CompiledItch.CompiledDecodes` | src/itch_decoder.cpp:31-84 | for every accepted schema text that declares the seven messages, the decoder on the compiled code, with its emitted size switch, is the decoder by layout |
| `CompiledItch.CompiledAgreesByHand` | src/itch_decoder.cpp:31-118 | from schema text to events: that decoder and the handwritten one agree on every byte string of a book-changing type |
| `ItchSchema.BookSchemaParses` | schemas/itch50.efe:105-171 | the seven messages make a schema whose text the parser accepts, so the results about compiled decoders apply |
| `CompiledItch.EitherDecoderSameEvents` | src/itch_decoder.cpp:44-118 | for every accepted schema text that declares the seven messages, and every list of such messages, the compiled and the handwritten decoder give the same events, or both fail |
| `Delivery.EventsOfOne` | src/main.cpp:83-83 | one message gives its event, nothing, or its failure |
| `Delivery.EventsAppend` | src/main.cpp:83-83 | the events of two lists are those of the first and then those of the second, up to the first failure |
| `Delivery.EventsOneForOne` | src/main.cpp:83-83 | messages that all decode to events give these, one for one and in order |
| `Delivery.EventlessLeftOut` | src/main.cpp:83-83 | a message that decodes to no event may be left out |
| `Delivery.HistoryOfOne` | src/recovery_engine.cpp:43-49 | a packet carries its messages, and a heartbeat or end of session none |
| `Delivery.PassesAt` | src/recovery_engine.cpp:21-36 | whether a history passes is decided by the messages before its one first missing number |
| `Delivery.EarlierPasses` | src/main.cpp:81-84 | a history that passes has passed at every earlier moment |
| `Delivery.FrontierOrGapless` | src/recovery_engine.cpp:27-30 | there is a first missing number if and only if the numbers are not exhausted |
| `Pipeline.Engine.constructor` | src/main.cpp:79-79 | a new engine has an empty book and expects the first message |
| `Pipeline.Engine.ApplyAll` | src/main.cpp:83-83 | released messages are decoded and their events applied in order; if one does not decode, the book is the fold of the events before it |
| `Pipeline.Engine.Feed` | src/main.cpp:81-84 | after every packet the book is the in-order fold of everything released; succeeds if and only if the session fits and everything before the first missing number decodes; each failure with its error and state |
| `Pipeline.Engine.Process` | src/main.cpp:81-84 | the same from bytes, if and only if the datagram also parses; a malformed datagram changes nothing |
| `Pipeline.Engine.Replay` | src/main.cpp:78-89 | a whole history succeeds if and only if all datagrams parse and share a session and everything before the first missing message decodes; the book is then the fold of that |
| `Pipeline.ReleaseIsStream` | src/recovery_engine.cpp:21-66 | what is released is the stream itself, up to the first message nobody sent |
| `Pipeline.StreamPasses` | src/main.cpp:81-84 | messages of a stream pass if and only if the stream itself decodes up to the first message nobody sent |
| `Pipeline.SentDatagramsMakeFeed` | src/main.cpp:45-51 | datagrams framed from one stream, cut, ordered, repeated and lost in any way, meet the premise of the next two |
| `Pipeline.SentIff` | src/main.cpp:45-51 | a history of framed datagrams carries a number if and only if one of them frames it |
| `Pipeline.StreamEvents` | src/main.cpp:83-83 | if the messages of the stream decode to events, what is applied is these events, one for one in the order of the stream |
| `Pipeline.ReplayStream` | tests/test_pipeline_property.cpp:50-92 | for every such history whose messages before the first missing one decode, the run succeeds, `expected` is that number, and the book is what applying the events of those messages in order to the empty book gives, and the hash is that book's |
| `Pipeline.SameBookEitherWay` | tests/test_pipeline_property.cpp:50-92 | two histories with the same messages, and two hash functions, end in the same state hash |

## Left out

- SplitMix64: the index hash is a parameter, and everything is proved for every hash function.
- Cell numbers: `& mask_` is modelled as the remainder by a power-of-two capacity and a wrap at the end of the table.
- Index sizes from 2^63 on, where `max_entries * 2` wraps; the book never asks for them.
- Allocation failures are modelled by a parameter of `Add` and `Replace` that says which map nodes cannot be allocated; failures while snapshots or packets are built are not modelled.
- `std::map` is a Dafny map whose keys are listed in the map's order; iterator validity is not modelled.
- Symbol order: characters compare as signed, as `char` does on the usual platforms; on a platform with unsigned `char` only the order of symbols outside ASCII differs.
- Symbol construction from strings and decimal prices: only the padded eight bytes are modelled.
- Sequence number 2^64-1: reaching it is the outcome `SequenceExhausted`, after which nothing is promised. The second erase of one iterator at `src/recovery_engine.cpp:28` is part of that outcome.
- Recovery liveness: the engine has no timer, so whether a request is ever answered is not decided by it.
- Message types that do not change the book: only their sizes matter to the decoder. They are a parameter of `Decode`, and in `DecodeCompiled` what the schema text declares.
- A payload that does not decode ends the run; going on after the exception is not modelled.
- Bit operations: the readers' shifts and ors, the writers' shifts and masks, and the shifts and the wrapping sum of `hash_mix` are modelled as products, sums, quotients and remainders; its exclusive or is taken hexadecimal digit by digit.
- A generated view on an empty span: for a message whose size overflowed to 0 the emitted constructor would read `bytes_[0]` of an empty span; `ViewAccepts` rejects empty bytes.
- Schema characters stand for bytes; error texts and the line numbers in them are not modelled, apart from the lexer's line counter.
- Emitted C++ text: accessors, the view's check and the size switch are modelled by their meaning. The quoting of `'` and `\` as message types (`tools/protocolc/main.cpp:222`, `:233`) is not.
- Text columns of `emit`, `message_name`, namespaces and files.
- Sockets, capture and replay files, pacing, metrics, benchmarks and the command line.
