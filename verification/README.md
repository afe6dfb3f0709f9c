# Verification of the order-tracking server

A Dafny model of the order server, its updater and display clients and the protocol between
them, with proofs of what they promise each other.

The server keeps a map of orders. Updaters create orders and advance the status of items and
orders; each change is broadcast to the registered displays, and each display rebuilds its own
map from the messages. The project proves that this works, layer by layer, and then puts the
layers together.

| modules | what they model |
|---|---|
| `Model`, `Messages`, `Wrappers` | orders, items, messages as values; exceptions as results |
| `Orders` | the three server operations as state changes with their broadcasts; the display's rules; replay absorption |
| `Operations` | what the operations and the display's rules do, field by field and text by text; what stays of a request |
| `Replication` | server, displays and everything under way between them as one state machine; convergence |
| `Accounting` | what every sequence of operations keeps: broadcasts per order, derived statuses, ids |
| `Fields`, `LateSnapshot` | when a snapshot enqueued order by order after the lock was released still does no harm |
| `Lifetimes`, `Room` | how far an order can be brought; exactly how much room its request must leave |
| `QueueProtocol` | the message queue over a mutex, a semaphore and a deque, by small steps of any number of threads |
| `Concurrency`, `Interleavings`, `Progress`, `Arrival` | client threads over the server's mutex and the queues; refinement of `Replication`, deadlock freedom, convergence in boundedly many steps, joining from every state |
| `Numerals`, `Splitting`, `Wire`, `WireNormal`, `WireCode` | the text format: specification, exact domain, normal form, length bound, and the methods with their loops |
| `Spelling`, `Format` | every text that decodes and to what; names, digits, layouts and failures of the format, letter by letter |
| `Descriptors`, `Framing`, `FramingCode` | length-prefixed frames over descriptors that move bytes in arbitrary chunks |
| `Transport`, `Sessions` | messages as bytes on a stream; an updater's conversation and a client's login |
| `Answers`, `Joining` | what an updater is answered; what a display is sent, turn by turn |
| `Rio`, `Sio` | buffered reading; printing a number in place |
| `Heap`, `ServerCode`, `MessageCode`, `DisplayCode`, `ClientCode` | the program's classes on mutable objects with deep copies, proved against the specifications above |
| `EndToEnd` | from a request to a display's screen |

How the parts fit: `ServerCode`, `DisplayCode`, `ClientCode`, `MessageCode`, `WireCode` and
`FramingCode` are the imperative code, each method proved equal to a function of `Orders`, `Wire`, `Framing` or
`Sessions`. What those functions mean is stated without them, in fields, texts and replies: in
`Operations` for the server's operations and the display's rules, in `Spelling` and `Format` for
the texts, in `Answers` for a conversation, in `Joining` for what a display is sent.
`Interleavings.RunRefines` shows that the threads' steps are runs of
`Replication`, so its theorems hold in every interleaving. `EndToEnd.RunExecutes` carries
the results of `Accounting` over to these runs, and `EndToEnd.ScreenConverges` sends
what is under way through the text format and the frames;
`EndToEnd.InterleavedScreenConverges` states the whole for the threads themselves.

Results that differ from what one might expect:

- Replay absorption, on which the joining of a display rests, needs neither fresh ids nor
  anything else about where the messages come from: it holds of every sequence of messages.
- `send_order_message` in server.cpp enqueues its copies one by one after releasing the lock.
  A copied order comes out right exactly if every status of it that was broadcast before its
  copy was enqueued is broadcast again later, or it is delivered later
  (`LateSnapshot.LateCopyExact`). If its delivery came first, it is back on the display for
  good. `chat_display` sends its copies directly and before draining the queue, and is correct.
- An order request can be received and yet be too long to be shown, since ids and statuses
  grow. `Room.FirstFits` and `Room.LifetimeFits` say exactly when, for every well-formed order
  requested with id 1, and the end-to-end results ask for exactly that room
  (`EndToEnd.Admissible`).
- Frames are not prefix-free in general. `Framing.PrefixExact` says for which strings another
  frame starts the frame; no string that can be received is among them.
- A message's text is not unique: `Spelling.DecodeExact` says that exactly the numerals in it
  may have leading zeros, any number of them.
- The branch of `login` that reports an invalid client mode cannot be reached.
- Some orders can never be delivered, among them every NEW or IN_PROGRESS order with an item
  that is not done and has the id of an earlier one (`Lifetimes.DeliverableExact`). An order
  without items cannot be decoded, so no updater can create one.
- client.cpp calls `add_order`, `register_display`, `unregister_display`, `snapshot_orders` and
  `chat_updater`, which no file declares. They are read as `create_order`, `add_client`,
  `remove_client`, the locked copy at server.cpp:205-214, and `update_chat`.

To check the project, use `dafny verify dfyconfig.toml`.

## Model

| member | source | states |
|---|---|---|
| `Orders.ReplayAbsorption` | csf_assign05/src/display_main.cpp:59-82 | Applying any sequence of messages a second time by the display's rules changes nothing, whatever the messages and whatever map they start from |
| `Orders.Absorb` | csf_assign05/src/display_main.cpp:59-82 | An earlier delivery of a message is invisible once the same message comes again at the end of any sequence |
| `Orders.EventsMirrorOutcome` | csf_assign05/src/server.cpp:71-192 | The messages an operation broadcasts, applied by the display's rules to the server's old map, give exactly its new map, and every one of them is a message a display accepts |
| `Replication.Convergence` | csf_assign05/src/client.cpp:140-157 | In every run with any number of displays, a display past its snapshot that applies everything under way to it holds exactly the server's orders, although it registers before it copies and so gets the events in between twice |
| `Replication.NoProtocolError` | csf_assign05/src/display_main.cpp:54-86 | No message that ever reaches a display makes it throw a ProtocolError |
| `Replication.HistoryIsLogSegment` | csf_assign05/src/server.cpp:93-97 | What has been put in a display's queue is a contiguous stretch of the one global log of broadcasts, starting at its registration, with nothing missing when no broadcast is under way |
| `Replication.DisplaysAgree` | csf_assign05/src/server.cpp:93-97 | Two displays get the broadcasts they share in the same order |
| `Replication.CatchUp` | csf_assign05/src/client.cpp:149-156 | From any state the invariant holds in, boundedly many delivery steps bring a live display to the server's current orders without touching anything else |
| `Replication.EveryRunCanConverge` | csf_assign05/src/client.cpp:149-156 | Every run can be prolonged by deliveries to one live display, a bounded number of them, until it holds exactly the orders the server held all along |
| `Replication.FoldSnapshot` | csf_assign05/src/client.cpp:143-147 | The copied orders, sent in whatever order the container lists them, rebuild the map they were copied from |
| `LateSnapshot.LateCopyExact` | csf_assign05/src/server.cpp:204-221 | Each copy enqueued on its own, among the broadcasts of other threads: at any moment afterwards, and whatever the display had before, its entry for the order is the server's if and only if each status of the order broadcast between copying and enqueueing has been broadcast again since, or the order has been delivered since |
| `LateSnapshot.RightAfterCopy` | csf_assign05/src/server.cpp:216-220 | Right after the copy is enqueued the display's entry will be right if and only if what is still owed repairs what was broadcast since the copying; if no update of the order is owed, if and only if the server has accepted none of it since |
| `LateSnapshot.LateSnapshotExact` | csf_assign05/src/server.cpp:204-221 | Once all copies are enqueued, a display that registered before they were made shows exactly the server's map if and only if what was missed has been repaired for each of them |
| `LateSnapshot.DeliveredOrderReturns` | csf_assign05/src/server.cpp:204-221 | If the delivery of an order was enqueued before its copy, then in every continuation of the run the display shows the order as it was copied and the server does not have it |
| `LateSnapshot.BadRun` | csf_assign05/src/server.cpp:204-221 | A concrete run to that state: create, two item updates, copy, deliver, enqueue the delivery, enqueue the copy |
| `Fields.MissedExact` | csf_assign05/src/server.cpp:115-162 | An order that missed a stretch of the server's broadcasts about it is right after a later stretch if and only if the later one writes every status the missed one wrote, or delivers it; statuses only rise, so nothing else can make up for a missed write |
| `Accounting.DeliveredAccounting` | csf_assign05/src/server.cpp:99-192 | An order created NEW with n NEW items that is no longer stored caused exactly 2n + 4 broadcasts: DISP_ORDER, two updates of each item, IN_PROGRESS right after the first, DONE after the last, DELIVERED at the end |
| `Accounting.StepsLeftDecreases` | csf_assign05/src/server.cpp:115-129 | The item steps an order still has are a measure: an accepted item update takes away exactly one and nothing else changes it |
| `Accounting.StatusIsDerived` | csf_assign05/src/server.cpp:135-162 | The incrementally kept status of a stored order is the one its items imply, and DELIVERED is never stored |
| `Lifetimes.DeliverableExact` | csf_assign05/src/server.cpp:99-192 | A stored order, whatever statuses it was created with, can be brought to delivery by some further operations if and only if it is DONE, or it is NEW or IN_PROGRESS, not all its items are done, and every other item is NEW or IN_PROGRESS and the first with its id |
| `Lifetimes.NewDeliverable` | csf_assign05/src/model.cpp:70-77 | For an order as new this means that it has items and their ids are distinct |
| `Accounting.RepeatedItemNeverDelivered` | csf_assign05/src/model.cpp:70-77 | An order created NEW with a repeated item id stays in the map for ever and never becomes DONE, since lookup stops at the first match |
| `Accounting.IdsAreKeys` | csf_assign05/src/server.cpp:76-83 | Each stored order and all its items carry the id they are stored under; an id has a history exactly once handed out, and it contains one DISP_ORDER, the first message |
| `Accounting.IdsAreConsecutive` | csf_assign05/src/server.cpp:33-36 | The ids announced follow each other from the first one, 1000 by Operations.CreateOrderExact, without gap or repetition |
| `Operations.CreateOrderExact` | csf_assign05/src/server.cpp:71-91 | Ids start with 1000; a creation adds one entry under the next id, whose status and whose items, one by one with their ids, statuses, descriptions and quantities, are those requested, with the id handed out in the order and every item, leaves every other entry alone, and announces exactly the stored order |
| `Operations.RequestIsKept` | csf_assign05/src/server.cpp:71-192 | Whatever operations follow a creation, the order, while it is stored, has under its id the item ids, descriptions and quantities of its request |
| `Operations.UpdateItemExact` | csf_assign05/src/server.cpp:99-163 | The four texts of refusal hold in exactly these cases, and a refused update changes and announces nothing: no such order; no item with the id; the first such item has the status already; it has another from which the step is not one of the two legal ones. Any other update moves the first item with the id and no other, sets the order to IN_PROGRESS, to DONE or leaves it, and announces just these changes |
| `Operations.UpdateOrderExact` | csf_assign05/src/server.cpp:165-192 | The two texts of refusal and when each holds; an accepted update is the delivery of a DONE order, removes this order and no other, and announces DELIVERED |
| `Operations.DisplayRules` | csf_assign05/src/display_main.cpp:54-86 | Entry by entry, what each kind of message does to a display's map: an update touches the first item with the id, or the status, of the one order; one about an unknown order or item does nothing |
| `Operations.Constructors` | csf_assign05/src/message.cpp:3-54 | Each constructor sets its own fields and leaves every other one at its default |
| `QueueProtocol.QueueSafety` | csf_assign05/src/message_queue.cpp:18-46 | For any number of threads and any interleaving with timeouts: front() never meets an empty deque, the length is the semaphore plus the threads between wait and pop plus those between push and post, and popped messages followed by queued ones are the pushed ones in order |
| `QueueProtocol.MutualExclusion` | csf_assign05/src/message_queue.cpp:20-44 | At most one thread is between lock and unlock |
| `QueueProtocol.StepsAreFifo` | csf_assign05/src/message_queue.cpp:18-46 | Every step leaves the contents alone, appends the message the thread brought, or hands the thread the oldest one |
| `QueueProtocol.NothingStranded` | csf_assign05/src/message_queue.cpp:18-46 | When no thread is inside, the semaphore counts exactly the queued messages |
| `Concurrency.StepRefines` | csf_assign05/src/server.cpp:71-202 | Each small step of a client thread inside the locks is one atomic action of the event machine, or none |
| `Concurrency.StepKeepsInv` | csf_assign05/src/server.cpp:71-202 | What ties the threads' positions to the mutexes, the queues and the displays is kept by every step |
| `Interleavings.ServerExclusion` | csf_assign05/include/guard.h:20-27 | In no reachable state are two threads both inside the server's critical sections |
| `Interleavings.RunRefines` | csf_assign05/src/server.cpp:71-202 | Every interleaving of the client threads is a run of the atomic machine |
| `Interleavings.ConcurrentConvergence` | csf_assign05/src/client.cpp:140-157 | Convergence at every moment of every interleaving, counting the messages with a thread between popping and sending |
| `Interleavings.QueueReceivesLogSegment` | csf_assign05/src/server.cpp:93-97 | Whatever order the loop over the displays takes, each queue receives a contiguous stretch of the log, all of it once the mutex is free |
| `Interleavings.NoEmptyFront` | csf_assign05/src/message_queue.cpp:40-44 | In the composed system front() never meets an empty deque, in any display's queue |
| `Interleavings.RankIncreases` | csf_assign05/src/server.cpp:93-97 | A thread that owns one mutex and waits for another waits for one of higher rank: the server's before a queue's |
| `Interleavings.NoWaitCycle` | csf_assign05/src/message_queue.cpp:18-46 | No reachable state has a cycle of threads waiting for each other's mutexes |
| `Interleavings.SomeoneAdvances` | csf_assign05/src/server.cpp:194-214 | Whenever a thread waits for a mutex, it or a thread it transitively waits for can go on |
| `Progress.EveryInterleavingCanConverge` | csf_assign05/src/client.cpp:140-157 | From every state the threads can reach, boundedly many further steps of them, none of which begins a call on the server, bring a live display whose client is not being destroyed to exactly the server's orders with nothing under way; these are the orders as they were, or as the operation leaves them that held the mutex and had yet to be carried out |
| `Progress.HolderAdvances` | csf_assign05/src/server.cpp:93-97 | While the server's mutex is held, a step of its holder, or of the thread that owns the queue's mutex the holder waits for, takes away from a bound on what remains |
| `Arrival.AnyoneCanJoin` | csf_assign05/src/client.cpp:140-157 | From every state the threads can reach, a client thread that has not registered can become a display with nothing under way and exactly the server's orders: the mutex can be freed, registration and snapshot take eight steps, and the rest are deliveries |
| `Arrival.SendsHeartbeat` | csf_assign05/src/client.cpp:149-156 | A display's client thread for which nothing is queued can time out, and then puts a DISP_HEARTBEAT on the connection and changes nothing else |
| `Wire.RoundTrip` | csf_assign05/src/wire.cpp:231-374 | Every well-formed message encodes, and decodes back to itself; only the first two commas of an order cut, so descriptions may hold commas |
| `Wire.GlueThenCut` | csf_assign05/src/wire.cpp:130-144 | An order's text is cut at its first two commas whatever the rest contains |
| `WireNormal.ExactDomain` | csf_assign05/src/wire.cpp:231-374 | A message comes back equal if and only if it is well formed: decodable type and canonical fields, ids and quantities in 1..INT_MAX, no INVALID status or mode, a non-empty order, strings free of the bar and descriptions free of semicolon and colon too |
| `WireNormal.DecodeNormalForm` | csf_assign05/src/wire.cpp:275-374 | Everything that decodes is well formed, survives another trip, and prints back as the same text exactly when no numeral in it has a leading zero |
| `WireNormal.EncodeInjective` | csf_assign05/src/wire.cpp:231-273 | Different well-formed messages have different texts |
| `Spelling.DecodeExact` | csf_assign05/src/wire.cpp:275-374 | A text decodes to a message if and only if the message is well formed and the text consists of its type's name and its parts, in which any numeral may have any number of leading zeros |
| `Spelling.NumberExact` | csf_assign05/src/wire.cpp:105-124 | A string is read as a number if and only if the number is in range and the string is its numeral behind any number of zeros; anything else is an InvalidMessage |
| `Spelling.OrderExact` | csf_assign05/src/wire.cpp:127-185 | A text without bars decodes to an order if and only if the order is well formed and the text is its id, status and items, zeros aside |
| `Format.MessageText` | csf_assign05/src/wire.cpp:231-273 | For every message that can be printed, well formed or not, the parts of its text and their order |
| `Format.ItemText` | csf_assign05/src/wire.cpp:88-98 | The five fields of an item's text in their order |
| `Format.OrderTexts` | csf_assign05/src/wire.cpp:82-102 | The text of an order: id, status and the texts of the items in their order; none without items |
| `Format.EncodeFails` | csf_assign05/src/wire.cpp:231-273 | A message cannot be printed exactly if it has no type, or has no order with items where one is called for, and the exception is an InvalidMessage |
| `Format.DecodeFails` | csf_assign05/src/wire.cpp:275-374 | Whatever is wrong with a text, the exception is an InvalidMessage |
| `Format.NamesKnown` | csf_assign05/src/wire.cpp:13-79 | Exactly which strings are names of types, modes and statuses |
| `Format.TypeNames` | csf_assign05/src/wire.cpp:27-40 | The names of the message types, letter by letter |
| `Format.StatusNames` | csf_assign05/src/wire.cpp:13-71 | The names of modes and statuses, letter by letter |
| `WireNormal.GrowthBound` | csf_assign05/src/wire.cpp:82-101 | If an ORDER_NEW with n items and id 1 takes L characters, a DISP_ORDER of the order under any id and statuses takes at most L + 17n + 18 |
| `WireCode.ValidateIdMessage` | csf_assign05/src/wire.cpp:105-124 | The scan and std::stoi accept exactly non-empty digit strings whose value is at least min and at most INT_MAX |
| `WireCode.EncodeOrderText` | csf_assign05/src/wire.cpp:82-102 | The loop prints exactly the specified text of an order, and fails exactly without an order or items |
| `WireCode.DecodeItemTexts` | csf_assign05/src/wire.cpp:164-182 | The loop over the items yields the specified items or fails as the first bad one does |
| `WireCode.DecodeOrderText` | csf_assign05/src/wire.cpp:127-185 | Parsing an order equals its specification on every string, rejections included |
| `WireCode.EncodeMessage` | csf_assign05/src/wire.cpp:231-273 | encode equals the specification Encode, whose round trip and exact domain are proved, on every message |
| `WireCode.DecodeMessage` | csf_assign05/src/wire.cpp:275-374 | decode equals the specification Decode on every string, with the same rejections |
| `Splitting.SplitLoop` | csf_assign05/include/util.h:37-67 | The loop over pos and done yields the specified pieces |
| `Splitting.SplitJoins` | csf_assign05/include/util.h:37-67 | Joining the pieces with the separator gives the string back, and no piece contains the separator |
| `Splitting.JoinSplits` | csf_assign05/include/util.h:37-67 | Pieces without the separator, joined and split, come back as they were |
| `Numerals.NumeralReadsBack` | csf_assign05/src/wire.cpp:88-98 | In every base a printed numeral consists of digits, reads back as the number, and has no superfluous leading zero |
| `Numerals.PrintsBackIff` | csf_assign05/src/wire.cpp:105-124 | A digit string is what its value prints as exactly if it is 0 or does not start with 0 |
| `Format.Digits` | csf_assign05/src/wire.cpp:105-124 | The digits by their character codes, both ways |
| `Format.Positional` | csf_assign05/src/wire.cpp:105-124 | Digits count by their position, most significant first |
| `Format.Shortest` | csf_assign05/src/wire.cpp:88-98 | A number prints as the shortest of its digit strings, a negative one with a sign in front |
| `Framing.FrameExact` | csf_assign05/src/io.cpp:43-83 | A sent frame is received as the string that was sent, whatever follows it, if and only if the string has at most 9998 characters: setw pads but never cuts |
| `Framing.FrameCanonical` | csf_assign05/src/io.cpp:58-83 | Whatever bytes the receiver accepts start with exactly the frame that sending its result would write |
| `Framing.FrameStarts` | csf_assign05/src/io.cpp:43-83 | The frame of a string of at most 9998 characters starts a stream exactly if the receiver reads that string from it |
| `Format.FrameLayout` | csf_assign05/src/io.cpp:43-56 | A frame is at least four digits whose value is the length plus one, more than four only from 9999 characters on, then the string, then a newline |
| `Framing.PrefixExact` | csf_assign05/src/io.cpp:43-56 | Exactly when frames fail to be prefix-free, for every string: another frame is a proper prefix of its frame if and only if four or more first digits of its header, not all, read as a length that ends at a newline |
| `Framing.PrefixFree` | csf_assign05/src/io.cpp:43-56 | No frame, of whatever length, is a proper prefix of one that can be received |
| `Framing.LongFrameHasPrefix` | csf_assign05/src/io.cpp:45-50 | Of the strings of 9999 characters, exactly those with a newline at index 998 have a frame that another frame starts |
| `Framing.StreamRoundTrip` | csf_assign05/src/io.cpp:43-83 | Frames sent one after another are received one after another with nothing left over |
| `FramingCode.RioWriteN` | csf_assign05/src/csapp.cpp:784-801 | All n bytes are written across partial writes and interruptions, or -1 after some prefix of them when a write fails otherwise |
| `FramingCode.Send` | csf_assign05/src/io.cpp:43-56 | Writes exactly the frame, or throws IOException on an unreliable descriptor after some prefix of it |
| `FramingCode.PutToBuffer` | csf_assign05/src/io.cpp:11-26 | Fills the buffer with the next n bytes however they are chunked, and fails only at the end of the stream or on a read error, an interruption included |
| `FramingCode.EnsureValidString` | csf_assign05/src/io.cpp:29-36 | True exactly if the first four characters are decimal digits |
| `FramingCode.Receive` | csf_assign05/src/io.cpp:58-83 | Under any chunking returns the first frame of the stream and consumes exactly its bytes; without read errors it fails exactly when there is no such frame |
| `Transport.TransportExact` | csf_assign05/src/wire.cpp:231-374 | Messages encoded, framed and sent in turn are received and decoded as the same messages, leaving exactly what follows, if and only if each is well formed and encodes to at most 9998 characters |
| `Transport.LongNeverArrives` | csf_assign05/src/io.cpp:45-50 | From a message whose frame is too long nothing decodes, for the receiver takes the end of its length for its text |
| `EndToEnd.Transmit` | csf_assign05/src/client.cpp:28-32 | Sendable messages sent through one end of a connection and received at the other, under any chunks at both ends, are the same messages with no bytes left over |
| `Rio.Buffer.Read` | csf_assign05/src/csapp.cpp:814-839 | Gives at most n of the pending bytes, at least one unless the stream has ended, whatever sizes the buffer is refilled in |
| `Rio.Buffer.ReadNB` | csf_assign05/src/csapp.cpp:858-873 | Gives the next n bytes, or all that are left, and consumes just these |
| `Rio.Buffer.ReadLineB` | csf_assign05/src/csapp.cpp:880-902 | Gives the next line up to its newline, maxlen - 1 characters or the end of the stream, and a NUL after it, leaving the rest of the buffer; at the end of the stream the buffer is left as it was, without a NUL |
| `Rio.LineEnds` | csf_assign05/src/csapp.cpp:880-902 | A line has no newline before its last character and ends short of its limit only at a newline or the end of the text |
| `Rio.Buffer.Drain` | csf_assign05/src/csapp.cpp:814-902 | Any mix of calls gives consecutive, non-overlapping segments of the stream, whose sizes depend on the calls and the bytes alone, up to the first call that fails, if one does |
| `Sio.SioReverse` | csf_assign05/src/csapp.cpp:235-244 | Reverses in place the string before the NUL and leaves the rest of the array |
| `Sio.PutDigits` | csf_assign05/src/csapp.cpp:255-257 | The digit loop leaves the numeral reversed, in any array it fits |
| `Sio.SioLtoa` | csf_assign05/src/csapp.cpp:247-264 | For every long but LONG_MIN leaves the NUL-terminated numeral, in any array it fits |
| `Sio.LongFits` | csf_assign05/src/csapp.cpp:247-264 | 65 characters are enough for every such long in every base |
| `Sio.SignedRoundTrip` | csf_assign05/src/csapp.cpp:247-264 | That numeral parses back to the number in every base, with no superfluous leading zero |
| `Heap.OrderObject.FindItem` | csf_assign05/src/model.cpp:70-77 | Returns the first item with the id, or null |
| `Heap.OrderObject.Equals` | csf_assign05/src/model.cpp:47-60 | True exactly if the orders have equal values, items included |
| `Heap.OrderObject.AddItem` | csf_assign05/src/model.cpp:62-64 | Appends the item to the order |
| `Heap.OrderObject.Copy` | csf_assign05/src/model.cpp:28-45 | A copy of an order has equal value and shares no object with it |
| `Heap.OrderObject.Renumber` | csf_assign05/src/server.cpp:78-82 | Puts the assigned id into the order and all its items; status, item objects, item ids, item statuses, descriptions and quantities stay as they were |
| `Heap.MessageObject.Copy` | csf_assign05/src/message.cpp:59-78 | A duplicated message has equal value and shares no object with the original |
| `Heap.QueueObject.Enqueue` | csf_assign05/src/message_queue.cpp:18-27 | Appends the message; every queued one keeps the value it was enqueued with |
| `Heap.QueueObject.Dequeue` | csf_assign05/src/message_queue.cpp:28-46 | Removes and returns the oldest message with the value it was enqueued with, or null |
| `ServerCode.ServerObject.CreateOrder` | csf_assign05/src/server.cpp:71-91 | On shared objects: takes the next id, stores the renumbered order, and puts a copy of it in every registered queue, exactly as the event machine does |
| `ServerCode.ServerObject.UpdateItem` | csf_assign05/src/server.cpp:99-163 | On shared objects: changes the stored orders, the log and every queue exactly as the event machine does, or nothing, with the same SemanticError |
| `ServerCode.ServerObject.UpdateOrder` | csf_assign05/src/server.cpp:165-192 | On shared objects: delivers the order as the event machine does, or changes nothing, with the same SemanticError |
| `ServerCode.ServerObject.Completed` | csf_assign05/src/server.cpp:145-152 | The loop finds whether all items are done |
| `ServerCode.ServerObject.Broadcast` | csf_assign05/src/server.cpp:93-97 | Every registered queue gets a copy of the message of its own, in whatever order the displays are visited, and the stored orders stay as they are |
| `ServerCode.ServerObject.AddClient` | csf_assign05/src/server.cpp:194-197 | Registers the queue; twice is once |
| `ServerCode.ServerObject.RemoveClient` | csf_assign05/src/server.cpp:199-202 | Unregisters the queue; an unknown one is ignored |
| `ServerCode.ServerObject.SnapshotOrders` | csf_assign05/src/server.cpp:205-214 | Copies every stored order exactly once, into new objects that share nothing with each other or with anything that existed |
| `ServerCode.ServerObject.QueuedUntouched` | csf_assign05/src/message.cpp:59-78 | A message queued before a server operation is the same object at the same place with the same value after it, and shares no object with the orders then stored |
| `ServerCode.ServerObject.Take` | csf_assign05/src/message_queue.cpp:28-46 | A client thread's dequeue, made without the server's mutex, keeps the server's invariant; the message it takes is the oldest and shares no object with the stored orders or with what stays queued in any queue |
| `DisplayCode.DisplayObject.Handle` | csf_assign05/src/display_main.cpp:54-86 | On the display's own objects: applies one message by the display's rules, or throws ProtocolError exactly for the messages it does not accept and changes nothing |
| `DisplayCode.DisplayObject.Receive` | csf_assign05/src/display_main.cpp:46-90 | The loop ends with the map and the exception the byte stream determines, under any chunking, or with an IOException for a failed or interrupted read, then showing what the messages handled so far make of its map |
| `MessageCode.SendMessage` | csf_assign05/src/client.cpp:28-32 | Writes the encoded message in a frame; or throws what encode throws, having written nothing, or an IOException on an unreliable descriptor, having written some prefix |
| `MessageCode.ReceiveMessage` | csf_assign05/src/display_main.cpp:49-52 | Receives and decodes the next message of the stream, or throws what the bytes call for, or an IOException for a failed or interrupted read |
| `ClientCode.Login` | csf_assign05/src/client.cpp:35-64 | Sets the mode, answers and throws as the first message and the given authentication determine, or ends with an IOException having sent some prefix of that answer |
| `Sessions.LoginExact` | csf_assign05/src/client.cpp:35-64 | Bytes are answered OK with successful login exactly if they start with a LOGIN message whose text authenticates, ERROR with Bad Login exactly if they start with one whose text does not, and not at all otherwise; only the first logs in, with the mode it names, which is never INVALID, while every other leaves the mode INVALID |
| `ClientCode.Answer` | csf_assign05/src/client.cpp:87-133 | One request changes the server and is answered as the turn does that Answers.AnswerExact describes; a SemanticError becomes an ERROR answer |
| `ClientCode.UpdateChat` | csf_assign05/src/client.cpp:80-136 | The request loop, with any operations of other threads before each request, leaves the server, the bytes answered and the exception that these and the bytes received determine, or is cut short by an IOException, the server then being as the requests taken so far leave it; either way it queues what was broadcast |
| `Sessions.SessionExecutes` | csf_assign05/src/client.cpp:80-136 | A conversation executes exactly the operations its requests call for, in order and among those of the other threads |
| `Sessions.EveryRequestAnswered` | csf_assign05/src/client.cpp:80-136 | Every request that can be sent is answered once, in order, by the turn that Answers.AnswerExact describes, from the state the earlier ones and the other threads left, and QUIT ends the conversation with goodbye |
| `Answers.AnswerExact` | csf_assign05/src/client.cpp:87-133 | What each request is answered and what it does, field by field: a creation names the one new key of the orders, an accepted update has its own text and has moved just that item or removed just that order, a refused request gets the text of its refusal as ERROR and changes nothing, QUIT gets goodbye, and any other type is a ProtocolError |
| `Answers.EveryAnswer` | csf_assign05/src/client.cpp:80-136 | On any bytes and among any operations of other threads, the i-th reply is such an answer to the i-th message on the stream, given between two states of the server that follow each other; the conversation ends after QUIT or with what is wrong with the next bytes |
| `Answers.RequestsAnswered` | csf_assign05/src/client.cpp:80-136 | After any operations, requests that can be sent are all answered so, and QUIT after them ends the conversation without an exception |
| `Sessions.AnswersArrive` | csf_assign05/src/client.cpp:80-136 | Whatever an updater sends and other threads do, every answer it is given can be sent and decoded |
| `ClientCode.Join` | csf_assign05/src/client.cpp:140-147 | Registers the queue, and after any operations of other threads, whose broadcasts are then in the queue, copies the orders and sends a DISP_ORDER for each, or some prefix of these bytes if a write fails or a copy cannot be encoded |
| `ClientCode.Forward` | csf_assign05/src/client.cpp:149-156 | Any number of turns of the loop, with any operations of other threads before each, send the messages as they were queued and a heartbeat whenever there is none, or some prefix of these bytes if a write fails or a message cannot be encoded |
| `EndToEnd.JoinConverges` | csf_assign05/src/client.cpp:140-147 | What Join sends, followed by what it leaves in the queue, folds from nothing to exactly the server's orders, whatever other threads did between registering and copying |
| `Joining.NothingLost` | csf_assign05/src/client.cpp:149-156 | After any number of turns, what was sent apart from heartbeats, followed by what is still queued, is what was queued at first followed by everything broadcast since; the server is where all the operations in order leave it |
| `Joining.EachTurnSends` | csf_assign05/src/client.cpp:149-156 | Turn by turn: the oldest message that was queued by then and has not been sent, or a heartbeat if, and only if, there is none |
| `Joining.StayConverges` | csf_assign05/src/client.cpp:140-157 | For a whole stay: the snapshot, what was sent since and what is queued fold from nothing to exactly the server's orders, whatever other threads do between registration and snapshot and before each turn |
| `EndToEnd.RunExecutes` | csf_assign05/src/server.cpp:71-192 | The server of a run with displays is the one its requests alone produce, so the accounting holds in every run |
| `EndToEnd.CaughtUpShowsDerived` | csf_assign05/src/display_main.cpp:36-44 | A display with nothing under way shows, for every order created NEW with NEW items, the status its items imply, never DELIVERED |
| `EndToEnd.ShowsNext` | csf_assign05/src/display_main.cpp:54-86 | A message of one of the four kinds for displays is applied and the loop goes on; any other that arrives, such as OK or ERROR, ends it with a ProtocolError and the map unchanged |
| `EndToEnd.ShowsNoMore` | csf_assign05/src/display_main.cpp:46-53 | Bytes that are no frame end the loop with an IOException, and a text that is no message with an InvalidMessage |
| `EndToEnd.RunFits` | csf_assign05/src/server.cpp:79-86 | If every order was requested with exactly the room it can come to need, as Room.WorstLength tells for the id it is handed, everything ever sent to a display is well formed and can be framed |
| `EndToEnd.ScreenConverges` | csf_assign05/src/display_main.cpp:46-90 | In such runs the bytes of all that is under way to a live display are read by its loop without any exception but the end of the stream, and leave it with exactly the server's orders |
| `EndToEnd.InterleavedScreenConverges` | csf_assign05/src/client.cpp:140-157 | The same end-to-end result at every moment of every interleaving of the client threads, counting messages in a thread's hands |
| `EndToEnd.InterleavedAccounting` | csf_assign05/src/server.cpp:99-192 | The accounting of delivered orders in every interleaving of the client threads |
| `Room.FirstFits` | csf_assign05/src/server.cpp:79-87 | For every state of the server and every well-formed order: its first DISP_ORDER can be framed if and only if the length of its request, with the order ids renewed to the next id, is at most 9998 |
| `Room.LifetimeFits` | csf_assign05/src/server.cpp:79-162 | For every well-formed order requested with id 1, whatever its statuses: every DISP_ORDER of it, now or after any operations, can be framed if and only if that length leaves 8 characters for each item an update can take from NEW to IN_PROGRESS, and 8 more for a NEW order that has such an item |
| `Room.NewLifetimeFits` | csf_assign05/src/server.cpp:79-162 | For an order requested as new with items of distinct ids: 8 characters for the order and 8 for each item |
| `Room.PeakFalls` | csf_assign05/src/server.cpp:129-162 | An accepted item update never raises the most characters the order's DISP_ORDER can come to take |
| `Room.RoomSuffices` | csf_assign05/src/server.cpp:79-86 | 17n + 18 characters beyond the request always suffice, whatever id the order is given |
| `Room.RoomIsNeeded` | csf_assign05/src/io.cpp:45-50 | The first order, with one item: its request is received up to 9972 characters of description, but announced only up to 9965, and shown all its life only up to 9949 |

## Left out

- ClientCode.UpdateChat: other threads act by whole operations and between whole requests; that finer interleavings come to the same is what `Concurrency` and `Interleavings` show.
- ClientCode.Join: other threads act by whole operations, between registering and copying.
- ClientCode.Forward: states any number of turns of the endless loop, with other threads acting by whole operations between them.
- Sio.SioLtoa: leaves out LONG_MIN, whose negation overflows.
- ServerCode.ServerObject.CreateOrder: requires `next_order_id` below INT_MAX, beyond which the increment is undefined; `Orders.Execute` does nothing there. It also requires that no item object is in the order twice, which holds of the duplicate its only caller passes.
- Heap.OrderObject.Copy: models assignment onto a new order only; `operator=` onto an order that has items appends without clearing.
- Progress.EveryInterleavingCanConverge: leaves out a display whose client is already waiting to unregister it, which will not be served again.
- Sockets, `accept`, thread creation and detachment, closing descriptors: a connection is a reliable FIFO stream of bytes moved in arbitrary chunks.
- The one-second wait in `dequeue`: a timeout may happen whenever the semaphore is zero.
- `PasswordDB::authenticate`: a parameter of `Login`.
- Terminal output and prompts of the clients, and the updater's command reading.
- `Message::operator==`, which is not symmetric: a left side without an order ignores the right side's.
- The texts of exceptions other than SemanticError, which no peer sees.
- The part of the text that `encode` leaves in its out-parameter when it throws.
- Enumeration values outside their types, for which the name tables answer `<invalid>`.
- Bytes are Dafny characters; the tables are the functions their map initialisers describe, without the inversion of the maps.
- `trim` and the map inverters in util.h, `sio_strlen`, `rio_readn`, and the error-exit wrappers, address lookup and signal handling of csapp.cpp.
- Thread scheduling is arbitrary: that some thread can always go on is proved, fairness is not.
