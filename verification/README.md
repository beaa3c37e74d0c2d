# Matador in Dafny

A model of the hard parts of the matador library, a C++ object store with an
object-relational mapper, a reactor, HTTP and JSON, and proofs about them.

- **Type hierarchy and object lists** (`ForestShape`, `ForestGrowth`,
  `SegmentLayout`, `PrototypeTree`). All objects of a hierarchy are in one linked
  list; each type keeps three pointers into it and a counter. The tree is a heap of
  nodes with parent, sibling and sentinel pointers; the ghost pre-order sequence
  with the depths is what they have to agree with.
- **Transactions** (`ByteBuffers`, `Calendar`, `Serializer`, `UndoLog`,
  `UndoLogProofs`, `Transactions`). An undo log of actions, the states it saves as
  bytes in a chunked buffer, and rollback.
- **Store index** (`StoreIndex`) and **change queue** (`ChangeQueue`).
- **Leader/follower reactor** (`Reactor`), a step machine over all interleavings of
  the threads; `select`, timers and handlers are chosen by the environment.
- **JSON** (`Doubles`, `Json`, `JsonText`, `JsonBuilder`, `JsonRoundTrip`, `JsonExact`,
  `JsonGrammar`, `JsonLanguage`, `JsonParser`, `JsonPrinter`, `JsonOrder`): parser,
  stack-based builder, printer, the language that is accepted and the order of values.
- **HTTP** (`HttpMessage`, `HttpParser`, `HttpPieces`, `HttpWriter`, `HttpRoundTrip`,
  `HttpHeaders`, `HttpReader`) and **codecs** (`Url`, `Base64`, `Sha256`,
  `Sha256Stream`, `Sha256Standard`), with decimal and hexadecimal digits in `Numerals`.

`dafny verify dfyconfig.toml` checks the whole project.

Objects that the source updates in place are classes, and their methods are proved
against functions on values; the results over whole runs are lemmas about those
functions or invariants of the classes. A pointer into a JSON tree is a path of
keys and positions. Exceptions are results (`Bad`, `THROWN`, `None`, `false`).
Text is a sequence of characters below 256 and character classes are those of the
C locale.

## What does not hold in the source

Where the code does not do what one would expect, the model does what the code
does, a lemma gives the input, and another one the exact condition:

- `op_last` of a type can end up wrong in hierarchies of three levels
  (`GrandchildBreaksLast`, `SplicedExactLast`).
- Rollback can silently lose an object after an insert action was emptied in the
  middle of the log (`RollbackLosesObject`, `RollbackRestores`).
- A saved character array loses its terminator (`CharsComeBack`).
- A timeout can be dispatched by two threads at once (`TimerHandledTwice`,
  `TimerExact`), and so can reading if a handler is registered again meanwhile
  (`ReadHandledTwice`, `StepExact` in `Reactor`). An early return from handling
  events leaves the pool without a leader for good (`GiveUpAbandons`,
  `AbandonedForever`, `LedExact`).
- Years below 100 are read as 1900 to 1999 (`RoundTripNeedsYear100`), and 29 February
  is never valid (`ValidDateRefusesLeapDay`).
- Printed JSON strings are not escaped and reals are cut to six decimals; a real of
  2 to the 63 or more is printed and then refused (`TextRead`, `RoundTrip` in
  `JsonExact`). Integers above 2 to the 53 or NaN break the order of values
  (`NaNGoesRound`, `OrderedUpTo`).
- JSON text may have leading zeros, no digits behind a point, vertical tabs and form
  feeds as white space, control characters in strings and, at its end, a string
  without its closing quote. Refused are an exponent without a point, a tabulator or
  carriage return right behind a number, whole parts beyond 64 bits and reals out of
  the range of doubles. Unicode escapes stay as they are (`DocumentExact`).
- Folded header lines are put together without a blank (`HeaderRead`). A body that is
  longer than its length is taken whole (`BodyTooLong`), and a response without a
  body leaves its parser waiting for one (`ResponseRead`).
- A message cut inside `HTTP` is refused (`PiecesFinish`). One without a header line
  is refused too, and a body with a method other than POST or PUT is dropped
  (`NoHeaderRefused`, `BodyDropped`, `RecoveredExactly`).
- The last value of a form stays in the parser and gets in front of the first query
  value of the next request (`FormRecovered`, `QueryExact`).
- Base64 decoding drops zero bytes (`RoundTripExact`), and the length in a SHA-256
  padding has only 32 bits (`PaddingExact`).
- Inserting a proxy that waits to be removed makes the flush fail (`InsertAgain`).
- A primary key that is taken leaves the key map without the new object
  (`StepExact` in `StoreIndex`).

## Model

| member | source | states |
|---|---|---|
| `PrototypeTree.Tree.NextNode` | src/object/prototype_node.cpp:208-224 | From the type at pre-order position k the step leads to position k + 1; after the last type comes the end sentinel and after that nothing. The climb terminates. |
| `PrototypeTree.Tree.PreviousNode` | src/object/prototype_node.cpp:244-261 | The step back leads from position k to position k - 1, also from the end sentinel to the last type, and from the first root or the end of an empty tree to nothing. |
| `PrototypeTree.Tree.NextAndBack` | src/object/prototype_node.cpp:208-261 | Every step forward is undone by a step back, also the one that reaches the end sentinel. |
| `PrototypeTree.Tree.Traverse` | src/object/prototype_node.cpp:208-224 | From the first root, pre-order steps visit every type exactly once, in pre-order, and stop at the end sentinel. |
| `PrototypeTree.Tree.TraverseBack` | src/object/prototype_node.cpp:244-261 | Steps back from the end sentinel visit every type exactly once, in reverse pre-order, and stop at nothing. |
| `PrototypeTree.ObjectProxy.Link` | src/object/object_proxy.cpp:43-52 | Links a proxy in front of another one; both neighbours point to it. |
| `PrototypeTree.ObjectProxy.Unlink` | src/object/object_proxy.cpp:54-64 | Takes a proxy out; its neighbours point to each other and it points nowhere. |
| `PrototypeTree.Tree.AdjustLeftMarker` | src/object/prototype_node.cpp:403-417 | Over all types in front of the given one: op_marker is replaced where it matches, op_last where it matches and the type is at least as deep; no other pointer changes. |
| `PrototypeTree.Tree.AdjustRightMarker` | src/object/prototype_node.cpp:419-429 | Over all types behind the given one, op_first is replaced exactly where it matches. |
| `PrototypeTree.Tree.Insert` | src/object/prototype_node.cpp:101-137 | Keeps the whole invariant at any depth: the list is the pre-order concatenation of the types' segments, op_first and op_marker are the elements around a segment, count is its length. The object goes in front of the last one of its type; all other types keep their objects. If op_last was the end of the subtree for every type, it still is if and only if the type had two or more objects or no shallower type in front of it, other than its ancestors, ends where it starts. |
| `PrototypeTree.Tree.Remove` | src/object/prototype_node.cpp:139-170 | Keeps the invariant; exactly the given object leaves its type and the list; the same exact condition for op_last, when the first object of the type is removed. |
| `PrototypeTree.Tree.Clear` | src/object/prototype_node.cpp:172-197 | Keeps the invariant; exactly the objects of the type leave, not those of its subtypes; the same exact condition for op_last. |
| `PrototypeTree.Node.Endow` | src/object/prototype_node.cpp:86-98 | A new child starts in front of op_last of its parent, or behind op_first if nothing is between, and ends at op_last. |
| `PrototypeTree.Node.OwnList` | src/object/prototype_node.cpp:55-59 | A new root gets an empty list of its own. |
| `PrototypeTree.Tree.AttachChild` | src/object/prototype_node.cpp:77-99 | All tree pointers agree with the pre-order sequence again; the new type is empty and every other keeps its objects. The invariant holds again if and only if op_last of the parent was the end of its subtree; if op_last was exact for all types it is so afterwards. |
| `PrototypeTree.Tree.AttachRoot` | src/object/prototype_node.cpp:45-60 | Appending a root keeps the invariant and the exactness of op_last, and every type keeps its objects. |
| `PrototypeTree.Tree.LinkChild` | src/object/prototype_node.cpp:77-85 | Parent, sibling and sentinel pointers of all types agree with the sequence in which the child is the last of its parent's subtree. |
| `PrototypeTree.Tree.LinkRoot` | src/object/prototype_node.cpp:45-53 | The same for a root that is appended behind the last one. |
| `PrototypeTree.Tree.constructor` | src/object/object_store.cpp:28-41 | The empty tree satisfies the invariant. |
| `PrototypeTree.Tree.View` | include/matador/object/object_view.hpp:505-537 | Iterating a type yields all and only its objects, or, where op_last is exact, those of its whole subtree, in list order. |
| `PrototypeTree.Tree.Collect` | include/matador/object/object_view.hpp:187-192 | Following the list from one element up to another one collects exactly the elements between. |
| `PrototypeTree.Tree.Build` | src/object/object_store.cpp:371-394 | Attaching types in any order and to any depth keeps op_first, op_marker and op_last of every type exact. |
| `PrototypeTree.Tree.RunObjects` | src/object/prototype_node.cpp:101-197 | Every run of inserting, removing and clearing over a hierarchy of any depth keeps the invariant. |
| `PrototypeTree.Tree.RunTwoLevel` | src/object/prototype_node.cpp:45-197 | Over roots and direct subtypes, with attaching at any time, every run keeps the invariant and op_last exact. |
| `SegmentLayout.SplicedMarked` | src/object/prototype_node.cpp:101-137 | Replacing a part of one segment and repairing as the code does leaves op_first and op_marker right for every type, at any depth. |
| `SegmentLayout.SplicedExactLast` | src/object/prototype_node.cpp:403-417 | op_last is exact after the repair if and only if no shallower type in front, not an ancestor, pointed to the element the segment started before. |
| `PrototypeTree.GrandchildBreaksLast` | src/object/prototype_node.cpp:412-414 | Building a root, two children and a child of the second one, and inserting one object of that grandchild, gives a tree in which op_last is not exact for every type, while the rest of the invariant holds. |
| `SegmentLayout.TwoLevels` | src/object/prototype_node.cpp:412-414 | With roots and direct subtypes only, the failing condition never occurs. |
| `SegmentLayout.SegmentsTogether` | include/matador/object/object_view.hpp:505-537 | The segments of a type and its subtypes, in pre-order, are one stretch of the list. |
| `SegmentLayout.AttachedMarked` | src/object/prototype_node.cpp:86-98 | After a child was attached the borders are right if and only if the child got the two elements at the end of the subtree. |
| `ByteBuffers.ByteBuffer.Append` | src/utils/byte_buffer.cpp:29-63 | The buffer refines a queue of bytes: the bytes are added at the back, over as many chunks as needed; every chunk but the last is full and every chunk but the first unread. |
| `ByteBuffers.ByteBuffer.Release` | src/utils/byte_buffer.cpp:65-92 | The oldest bytes, exactly those, are returned and taken out of the queue. |
| `ByteBuffers.ByteBuffer.Size` | src/utils/byte_buffer.cpp:94-96 | The size computed from the two outermost cursors is the length of the queue. |
| `ByteBuffers.ByteBuffer.Clear` | src/utils/byte_buffer.cpp:104-108 | The queue is empty afterwards. |
| `ByteBuffers.ByteBuffer.constructor` | src/utils/byte_buffer.cpp:24-27 | A new buffer is an empty queue. |
| `Calendar.Gc2JdExact` | src/utils/calendar.cpp:10-26 | From year 100 up to the last March year no 32-bit step wraps, and the result is the day number of the proleptic Gregorian calendar. |
| `Calendar.Jd2GcExact` | src/utils/calendar.cpp:35-55 | In the same range the conversion back finds the date of a day number. |
| `Calendar.DateRoundTrip` | src/utils/calendar.cpp:10-55 | jd2gc inverts gc2jd on every Gregorian date in range. |
| `Calendar.DayRoundTrip` | src/utils/calendar.cpp:10-55 | gc2jd inverts jd2gc on every day number in range, and the date found is a Gregorian date. |
| `Calendar.RoundTripNeedsYear100` | src/utils/calendar.cpp:13-15 | A Gregorian date from year 0 on comes back if and only if its year is at least 100. |
| `Calendar.LastDayIsExact` | src/utils/calendar.cpp:39-40 | The signed product of the conversion stays in range if and only if the day is at most the bound used here. |
| `Calendar.NextDayNumber` | src/utils/calendar.cpp:10-26 | Day numbers grow by one per calendar day. |
| `Calendar.KnownDays` | src/utils/calendar.cpp:10-26 | 1 January 2000 is day 2451545, 1 January 1970 day 2440588, and the other epochs are where they belong; 2000 is a leap year and 1900 is not. |
| `Calendar.OrderOfDays` | src/utils/date.cpp:144-147 | Day numbers follow the order of year, month and day, both ways. |
| `Calendar.ValidDateRefusesLeapDay` | src/utils/date.cpp:199-211 | The validity test accepts exactly the Gregorian dates other than 29 February. |
| `Calendar.DateObject.SyncDate` | src/utils/date.cpp:321-331 | A date is accepted exactly if it is a Gregorian date other than 29 February, and then stored with its Julian day. From year 0 to the last March year the Julian day leads back to it if and only if the year is at least 100; then it is the day number of the calendar. |
| `Calendar.DateObject.SyncJulianDate` | src/utils/date.cpp:333-339 | Any Julian day is stored with the day, month and year found for it; in the exact range they are the Gregorian date with that day number. |
| `Calendar.DateObject.AddAndSubtract` | src/utils/date.cpp:95-105 | Adding days and subtracting them gives the same date if and only if the date was the one its Julian day leads to. |
| `Serializer.AttributeRoundTrip` | src/object/object_deserializer.cpp:34-56 | Decoding an encoded attribute in front of any other bytes gives the attribute and leaves those bytes. |
| `Serializer.SmallInFront` | src/object/object_serializer.cpp:23-42 | Numbers are saved least significant byte first: the bytes of a small one stand in front and zeros behind them. |
| `Serializer.EncodedSize` | src/object/object_serializer.cpp:15-42 | A scalar takes its own width, a string eight bytes more than its length, a date four and a time twelve. |
| `Serializer.ObjectRoundTrip` | src/object/object_serializer.cpp:23-42 | The same for every list of attributes. |
| `Serializer.Write` | src/object/object_serializer.cpp:15-42 | An attribute is appended behind what the buffer holds, in the width its kind fixes. |
| `Serializer.Read` | src/object/object_deserializer.cpp:26-56 | Reading takes exactly the encoding at the front of the buffer. |
| `Serializer.Backup` | include/matador/object/object_serializer.hpp:80-84 | All attributes of an object are appended in order. |
| `Serializer.Restore` | include/matador/object/object_deserializer.hpp:76-80 | All attributes are read back in order. |
| `Serializer.CharsComeBack` | src/object/object_serializer.cpp:15-21 | A character array, saved without its terminator, comes back if and only if the array holds a zero behind it at the time of restoring. |
| `UndoLogProofs.StepKeeps` | src/object/transaction.cpp:96-163 | Every insert, update and delete that finds its action keeps the invariant: the buffer is the in-order concatenation of the original states of exactly the update and delete actions, and the store with the actions determines the contents at the beginning. |
| `UndoLogProofs.AddContents` | src/object/transaction.cpp:96-118 | Adding an object adds exactly it, under an id that was not in use. |
| `UndoLogProofs.ModifyContents` | src/object/transaction.cpp:120-137 | Modifying an object gives exactly it the new attributes and leaves its type. |
| `UndoLogProofs.RemoveContents` | src/object/transaction.cpp:139-156 | Removing takes out exactly the object. |
| `UndoLogProofs.StepSeen` | src/object/transaction.cpp:96-156 | Until it is rolled back a transaction changes the contents as a store without any log would. |
| `UndoLogProofs.RunSeen` | src/object/transaction.cpp:96-156 | So does every run of operations that does not throw. |
| `UndoLogProofs.RunOneInsert` | src/object/transaction.cpp:96-118 | Through every run the log has at most one insert action for each type. |
| `UndoLogProofs.UndoRestores` | src/object/transaction.cpp:79-84 | Undoing the actions from the front, each reading its state from the front of the buffer, gives the contents at the beginning. |
| `UndoLogProofs.RollbackRestores` | src/object/transaction.cpp:64-94 | Rolling back any run restores the contents at the beginning if and only if every delete of the run found the action of its object at the recorded position. |
| `UndoLogProofs.RollbackWithoutGaps` | src/object/action_remover.cpp:26-59 | In particular after every run that never empties an insert action with actions behind it. |
| `UndoLogProofs.MissLoses` | src/object/action_remover.cpp:15-24 | A delete that does not find its action, and does not throw, loses an object of the beginning. |
| `UndoLogProofs.LostForGood` | src/object/transaction.cpp:139-156 | What is lost stays lost whatever the run does afterwards. |
| `UndoLogProofs.RollbackLosesObject` | src/object/action_remover.cpp:40-42 | A concrete run of five operations after which rollback throws nothing and silently loses an object. |
| `Transactions.StepReadable` | src/object/transaction.cpp:158-163 | After every step the buffer can still be read action by action. |
| `Transactions.Transaction.Add` | src/object/transaction.cpp:96-118 | The store holds exactly the object more, under a new id, and the log is that of the model after the step. |
| `Transactions.Transaction.Modify` | src/object/transaction.cpp:120-137 | The store holds the object with the new attributes and all others as they were; the old state is in the buffer unless the object already has an action; the log is that of the model. |
| `Transactions.Transaction.Remove` | src/object/transaction.cpp:139-156 | Fails exactly where the model does, at a recorded position that no longer exists; otherwise the store holds exactly the object less and the log is that of the model. |
| `Transactions.Transaction.Apply` | src/object/transaction.cpp:96-156 | Each operation has the effect of its step of the model, and one that does not apply has none. |
| `Transactions.Transaction.Restore` | src/object/transaction.cpp:165-168 | One action is undone as in the model. |
| `Transactions.Transaction.Rollback` | src/object/transaction.cpp:64-94 | The loop over the actions leaves the store the model computes, with an empty log and buffer; it fails exactly where the model does. |
| `Transactions.Transaction.RunAndRollback` | src/object/transaction.cpp:64-163 | Any run of operations on a transaction that has begun, followed by rollback, leaves the store with what it held if and only if every delete found the action of its object. |
| `Reactor.StepKeeps` | src/net/reactor.cpp:97-190 | Every step of every thread, of closing, removing and shutdown, and every registration or scheduling that switches nothing on that is being handled, keeps the invariant: at most one thread leads, and what a thread reads or writes is inactive and handled by nobody else. |
| `Reactor.StepExact` | src/net/reactor.cpp:26-68 | A step keeps the invariant if and only if it is not a registration or scheduling that switches on an event being handled, shares an open descriptor, or brings back a handler in use on a descriptor the leader waits for. |
| `Reactor.RegistryStep` | src/net/reactor.cpp:26-80 | The list of handlers behaves like a map: registering, scheduling, unregistering, closing and removing change the entry of their handler as they should, and no other. |
| `Reactor.HandledIsOn` | src/net/reactor.cpp:378-386 | When an event was handled its handler is active for it again, and nothing else in the list changes. |
| `Reactor.NeverForgotten` | src/net/reactor.cpp:97-190 | In every such run from a started pool a handler is, for each event it was registered for, active or in the hands of a thread until it is removed. |
| `Reactor.RemovedIsLeft` | src/net/reactor.cpp:44-80 | A handler that is removed, and in no thread's hands, is never chosen again unless it is registered or scheduled again. |
| `Reactor.ChooseFirst` | src/net/reactor.cpp:294-309 | The first handler of the list with something to do is chosen; it is written before it is read, and its timer comes last. |
| `Reactor.LeaderExactly` | src/net/leader_follower_thread_pool.cpp:28-40 | A thread leads from entering or waking while nobody leads until it promotes, whatever else happens. |
| `Reactor.SignalExactly` | src/net/leader_follower_thread_pool.cpp:81-93 | The promotion by a leader gives a signal, and the first waiting thread that wakes takes it. |
| `Reactor.FlagsExactly` | src/net/reactor.cpp:353-364 | Stopping ends running; an interrupt is asked for by registering or unregistering and taken back by the thread that sees it. |
| `Reactor.NothingTaken` | src/net/leader_follower_thread_pool.cpp:81-105 | A step that does not belong where its thread is changes nothing. |
| `Reactor.Finishes` | src/net/leader_follower_thread_pool.cpp:47-65 | After a shutdown every thread, wherever it is, can come to its end by at most four steps of its own. |
| `Reactor.FinishedStays` | src/net/leader_follower_thread_pool.cpp:81-105 | And it stays there. |
| `Reactor.RunKeeps` | src/net/leader_follower_thread_pool.cpp:81-105 | So does every interleaving of such steps. |
| `Reactor.ExclusiveHandling` | src/net/reactor.cpp:167-189 | Under every interleaving of such steps no two threads lead at once and no two dispatch the same handler for reading, or for writing. |
| `Reactor.OnceIsCareful` | src/net/reactor.cpp:26-68 | Whoever registers every handler at most once, with no open descriptor shared, never breaks the invariant, under any interleaving from a started pool; timers without a descriptor may be scheduled at any time. |
| `Reactor.OnceIsExclusive` | src/net/reactor.cpp:167-189 | For such a caller no two threads ever dispatch the same handler for reading, or for writing. |
| `Reactor.ReadHandledTwice` | src/net/reactor.cpp:34-40 | A run in which a handler is registered again while it is being read, the interrupt of each registration is answered, every other select returns with a ready descriptor, and two threads dispatch its reading at once. |
| `Reactor.TimerHandledTwice` | src/net/reactor.cpp:304-306 | For timeouts this is false even then: a run with a scheduled timer and a registered connection, in which the interrupt of the registration is answered first, every other select returns with a ready descriptor or with a timer armed, and two threads dispatch the timeout of the same handler. |
| `Reactor.TimerExact` | src/net/reactor.cpp:294-309 | If no timer is in the hands of two threads, a step keeps this if and only if it is not the choice of a due timer that a thread has in hand already. |
| `Reactor.TimerRunExact` | src/net/reactor.cpp:294-309 | So over every run: no timer is in two hands at any time if and only if no step is such a choice. |
| `Reactor.GiveUpAbandons` | src/net/reactor.cpp:127-143 | A thread that returns early from handling events keeps the leadership without using it. |
| `Reactor.AbandonedForever` | src/net/leader_follower_thread_pool.cpp:84-93 | After that no thread of the pool ever leads again. |
| `Reactor.LedExact` | src/net/reactor.cpp:127-161 | While the pool runs, a step leaves it with a leader, or a thread that can become one, if and only if it is not an early return of the leader. |
| `Reactor.InitiallyLed` | src/net/leader_follower_thread_pool.cpp:14-21 | A started pool with a thread is in this state. |
| `Reactor.LedStep` | src/net/leader_follower_thread_pool.cpp:28-40 | Every other step keeps a thread that leads, or one that can take the lead. |
| `Reactor.LedRun` | src/net/leader_follower_thread_pool.cpp:28-40 | So does every run without early returns, while the pool runs. |
| `Reactor.LeaderFound` | src/net/leader_follower_thread_pool.cpp:81-96 | Then some thread leads, or becomes leader within two steps. |
| `JsonExact.RoundTrip` | src/json/json.cpp:533-569 | For every value, compact or pretty: parsing its text returns the value if and only if every string and key is without quote and zero and has backslashes only in unicode escapes, and every real is finite, with a whole part of 64 bits, and the double nearest to its own six decimals. |
| `JsonExact.TextRead` | src/json/json.cpp:533-569 | The text is read as the value with every real rounded to its six decimals and to the nearest double, if and only if the strings and keys are such and the whole parts of the reals fit 64 bits. |
| `JsonExact.MillionthsReadBack` | src/json/json.cpp:556-558 | Every double that is nearest to a number of millionths below 2 to the 33 is among the reals that come back. |
| `JsonExact.NeedsClean` | include/matador/json/generic_json_parser.hpp:455-518 | A value that comes back, or comes back with its reals rounded, has only such strings, since the parser reads at least as many quotes and backslashes as the strings it returns hold. |
| `JsonRoundTrip.DocumentComesBack` | include/matador/json/generic_json_parser.hpp:224-254 | The text of a value with such strings is read as the value with its reals rounded, and refused if a real is not finite or its whole part does not fit 64 bits. |
| `JsonRoundTrip.ValueComesBack` | include/matador/json/generic_json_parser.hpp:625-670 | The same in front of any text that may follow a value. |
| `JsonRoundTrip.NumberComesBack` | include/matador/json/generic_json_parser.hpp:526-563 | Every 64-bit integer is read back from its digits. |
| `JsonRoundTrip.RealComesBack` | include/matador/json/generic_json_parser.hpp:526-563 | The text of every finite real is read as the double nearest to its six decimals, or refused if its whole part does not fit 64 bits. |
| `JsonExact.ValueCost` | include/matador/json/generic_json_parser.hpp:325-670 | For every accepted text, other than a string that ends with the text instead of a quote: what was read holds at least two quotes or backslashes for each string and one for each of those in it, and exactly as many only if the strings need no escape. |
| `JsonExact.BuildsParsed` | src/json/json_parser.cpp:26-37 | For every text that is accepted the builder ends with the value the text stands for and an empty stack. |
| `JsonBuilder.Builds` | src/json/json_parser.cpp:44-127 | The callbacks for a value put it where the next value belongs, with the last of several members of one key, and leave the stack as it was. |
| `JsonBuilder.RepresentableIsNormal` | src/json/json.cpp:492-501 | Building does not change a value whose members are in key order. |
| `JsonBuilder.LastValueStays` | src/json/json_parser.cpp:44-127 | An object is built with its keys in order, each key of the text once, and with the last value the text gives it. |
| `JsonLanguage.DocumentExact` | include/matador/json/generic_json_parser.hpp:224-670 | A text without zeros is accepted with a value if and only if the grammar of section 2 of RFC 8259, with the liberties listed above, writes it with that meaning. |
| `JsonLanguage.ParseExact` | src/json/json_parser.cpp:26-37 | The value that is returned is the one such a document says, with the members of its objects put in order. |
| `JsonLanguage.DocumentRead` | include/matador/json/generic_json_parser.hpp:224-254 | Whatever white space and escapes a document is written with, it is read as what it means. |
| `JsonLanguage.ValueWritten` | include/matador/json/generic_json_parser.hpp:325-670 | Everything that is accepted as a value is white space and a document with that meaning. |
| `JsonLanguage.NumberValue` | include/matador/json/generic_json_parser.hpp:526-563 | A number is read as its digits, decimals and exponent say, or refused if its whole part does not fit 64 bits or a double cannot hold it. |
| `JsonLanguage.EscapedDocument` | include/matador/json/generic_json_parser.hpp:455-518 | Every string without a zero comes back from the document in which all is escaped that can be. |
| `JsonGrammar.EscapedRead` | include/matador/json/generic_json_parser.hpp:475-512 | Every string without a zero comes back from its text escaped by the table of section 7 of RFC 8259, whatever follows it. |
| `JsonGrammar.ClosedRead` | include/matador/json/generic_json_parser.hpp:455-518 | The same for every mixture of plain characters, short escapes and unicode escapes, which stay as they are. |
| `Json.ItemsJoined` | include/matador/json/json_utils.hpp:47-63 | Between what is printed of an array stand a comma and a blank. |
| `Json.MembersJoined` | include/matador/json/json_utils.hpp:111-127 | The same for objects. |
| `Json.PrettyText` | src/json/json.cpp:533-569 | The pretty text of an object is the compact one with a line break behind the first brace; other values have one text. |
| `JsonParser.Parser.ReadValue` | include/matador/json/generic_json_parser.hpp:625-670 | Accepts exactly what the grammar of the parser accepts, leaves the cursor behind it and has made its callbacks. |
| `JsonParser.Parser.ReadObject` | include/matador/json/generic_json_parser.hpp:325-395 | The same for an object, with its loop over the members. |
| `JsonParser.Parser.ReadArray` | include/matador/json/generic_json_parser.hpp:406-452 | The same for an array, with its loop over the items. |
| `JsonParser.Parser.ReadString` | include/matador/json/generic_json_parser.hpp:455-518 | Reads a string up to the quote or the end of the text as the model does; `ClosedRead` and `EscapedRead` say what its escapes stand for. |
| `JsonParser.Parser.ReadWord` | include/matador/json/generic_json_parser.hpp:586-622 | Accepts exactly the given word. |
| `JsonParser.Parser.OnBegin` | src/json/json_parser.cpp:44-83 | An empty container is put into its place and becomes the top of the stack. |
| `JsonParser.Parser.OnScalar` | src/json/json_parser.cpp:115-127 | A value is put under the current key or behind the last item. |
| `JsonParser.Parser.Parse` | src/json/json_parser.cpp:26-37 | Accepts exactly the documents of the grammar; then the value is the one the document stands for and the stack is empty. |
| `JsonParser.Parser.ParsePrinted` | src/json/json.cpp:533-569 | Parsing a printed value succeeds with that value if and only if its strings and keys need no escape and its reals no more than six decimals. |
| `JsonPrinter.Str` | src/json/json.cpp:533-569 | Appending part by part gives the text of the value. |
| `JsonPrinter.JoinItems` | include/matador/json/json_utils.hpp:47-63 | Items are joined by a comma and a blank. |
| `JsonPrinter.JoinMembers` | include/matador/json/json_utils.hpp:111-127 | Members are written as quoted key, colon, blank and value, and joined. |
| `JsonOrder.OrderedUpTo` | src/json/json.cpp:134-161 | With integers up to a bound, with or without NaN, the order is a strict weak order over all nested and mixed values if and only if the bound is at most 2 to the 53 and NaN is excluded. |
| `JsonOrder.StrictWeak` | src/json/json.cpp:134-179 | Irreflexive, transitive, and transitive in incomparability, for all values up to that bound. |
| `JsonOrder.Between` | src/json/json.cpp:134-179 | If a is less than c, then a is less than b or b is less than c. |
| `JsonOrder.KindsOrdered` | src/json/json.cpp:162-176 | Values of different kinds are in the order null, booleans, numbers, objects, arrays, strings. |
| `JsonOrder.ByValue` | src/json/json.cpp:144-161 | False comes before true, and finite numbers up to that bound in the order of what they stand for, integers and reals alike. |
| `JsonOrder.TextByDifference` | src/json/json.cpp:146-147 | A string is less if and only if at the first difference it has ended or has the smaller character. |
| `JsonOrder.ItemsByDifference` | src/json/json.cpp:138-141 | An array is less if and only if at the first place where one of the elements is less it has ended or has the lesser one. |
| `JsonOrder.MembersByDifference` | src/json/json.cpp:136-137 | The same for objects, where a key decides and under one key the value. |
| `Doubles.WholeExact` | src/json/json.cpp:153-157 | Whole numbers up to 2 to the 53 are doubles, so comparing them with a real is exact. |
| `JsonOrder.NaNGoesRound` | src/json/json.cpp:148-149 | With NaN three arrays are less than each other in a circle. |
| `HttpPieces.PiecesFinish` | src/http/request_parser.cpp:23-151 | For every complete request or response and every way to cut it into pieces with a last one that is not empty: all calls but the last return PARTIAL and the last FINISH if and only if no piece begins behind a letter of `HTTP` and before the slash; then the record is that of the whole message. Otherwise a call returns INVALID. |
| `HttpPieces.CutBehindLetters` | src/http/response_parser.cpp:115-125 | A forbidden cut is right behind one to four letters of `HTTP`. |
| `HttpPieces.ScanSplit` | src/http/response_parser.cpp:37-87 | Reading two parts of a header one after the other is reading them at once. |
| `HttpPieces.FeedBroken` | src/http/request_parser.cpp:274-284 | A piece that begins inside the protocol name is refused. |
| `HttpPieces.FeedBody` | src/http/request_parser.cpp:110-131 | A body in pieces of any size is collected until its length is reached, and not finished before. |
| `HttpRoundTrip.ComesBack` | src/http/request_parser.cpp:153-425 | Parsing the text of a legal request or response finishes and recovers method and url, or status, and version, headers, content length and type, and body. |
| `HttpRoundTrip.RecoveredExactly` | src/http/request_parser.cpp:110-425 | A message with legal parts is recovered if and only if it has a header or a body, and a request with a body is a POST or PUT. |
| `HttpRoundTrip.ComesBackInPieces` | src/http/response_parser.cpp:21-113 | When the text of a legal message arrives in pieces it is recovered if and only if none begins inside the protocol name. |
| `HttpRoundTrip.NoHeaderRefused` | src/http/request_parser.cpp:324-333 | A message with neither a header nor a body, so without any header line, is refused. |
| `HttpRoundTrip.BodyDropped` | src/http/request_parser.cpp:104-131 | A body sent with another method than POST or PUT is dropped, and the request is finished without it. |
| `HttpRoundTrip.ScanLines` | src/http/request_parser.cpp:324-401 | Header lines with legal keys and values are inserted one after the other, with inner blanks kept. |
| `HttpRoundTrip.ScanStatusLine` | src/http/response_parser.cpp:115-180 | Each status line of the table is read as its status and version. |
| `HttpRoundTrip.ScanRequestLine` | src/http/request_parser.cpp:153-310 | The request line is read as method, url and version. |
| `HttpRoundTrip.HeadersArrive` | src/http/request_parser.cpp:413-425 | The map holds exactly the headers that were sent, with length and type if there is a body. |
| `HttpRoundTrip.ScanStatusText` | src/http/response_parser.cpp:115-180 | A status line of any version digits and with any words behind a known code is read as that code and version. |
| `HttpRoundTrip.UnknownStatus` | src/http/response_parser.cpp:155-166 | A code that is not known throws. |
| `HttpRoundTrip.StoulSigned` | src/http/request_parser.cpp:110-131 | A length is the number at its front: a minus turns it around at 64 bits, 2 to the 64 and more throw, and what follows the digits does not matter. |
| `HttpRoundTrip.StoulNeedsDigits` | src/http/request_parser.cpp:110-112 | A length without a digit behind its sign throws. |
| `HttpHeaders.HeaderRead` | src/http/request_parser.cpp:324-401 | Every header with a line is read: names lose their blanks, any number of blanks may follow a colon or a value, folded parts are put together without a blank, and each line is inserted with what it says. |
| `HttpHeaders.CopiedFromLast` | src/http/request_parser.cpp:413-425 | Content type, length and digest, and the host of a request, are those of the last line of that name in upper or lower case. |
| `HttpHeaders.FirstKept` | src/http/request_parser.cpp:413-416 | The map of headers holds of each name the first value, and no name that was not sent. |
| `HttpHeaders.AcceptedExactly` | src/http/request_parser.cpp:153-411 | In each state exactly the characters that may come there are taken; only an unknown status code throws. |
| `HttpHeaders.RequestRead` | src/http/request_parser.cpp:23-425 | A request with any method, url, query, fragment, version digits, header lines as above and a body that fits its length is read as what it says, in one call, and the parser is ready for the next. |
| `HttpHeaders.FormRead` | src/http/request_parser.cpp:441-476 | If it is a form, its parameters are those it was written from, but for a last one without a name. |
| `HttpHeaders.ResponseRead` | src/http/response_parser.cpp:21-268 | The same for a response; the parser is ready for the next one if and only if there was a body. |
| `HttpHeaders.BodyWithoutLength` | src/http/request_parser.cpp:110-131 | A body without a length is taken as it comes. |
| `HttpHeaders.BodyTooLong` | src/http/request_parser.cpp:110-131 | A body longer than its length is taken whole, is not read as a form, and ends the call as the header did. |
| `HttpHeaders.LengthThrows` | src/http/request_parser.cpp:110-112 | A length that is no number throws. |
| `HttpWriter.StatusWords` | src/http/http.cpp:27-65 | A status line carries the three digits and the words of its own code; codes without words are those the program does not know. |
| `HttpWriter.ToBuffers` | src/http/request.cpp:93-128 | The views that are pushed, one after the other, are the text of the message. |
| `HttpWriter.PushHeaders` | src/http/response.cpp:62-67 | One line for each header, in the order of the map. |
| `HttpReader.Reader.Parse` | src/http/request_parser.cpp:23-151 | The loop over the characters computes the outcome of the model and leaves the parser in its state. |
| `HttpReader.Reader.ReadBody` | src/http/response_parser.cpp:90-112 | Takes what is left of a piece for the body as in the model, with the 64-bit wrap-around of the missing length. |
| `HttpReader.Reader.ReadForm` | src/http/request_parser.cpp:441-476 | The loop reads the body as parameters as in the model, for which `FormRead`, `FormRecovered` and `FormStops` say what they are. |
| `Url.DecodeEncoded` | src/utils/url.cpp:39-76 | Decoding undoes encoding for every text. |
| `Url.EncodedForm` | src/utils/url.cpp:7-37 | Replaced are exactly the printable characters up to the closing brace other than letters, digits, circumflex, underscore and grave accent, each by a percent sign and the two upper-case digits of its code. |
| `Url.PairIsStrtol` | src/http/request_parser.cpp:207-221 | The two characters behind a percent sign are read as strtol reads them in base 16, cut to a byte. |
| `Url.UrlCharacters` | src/http/request_parser.cpp:403-406 | The characters of a url are the unreserved and the reserved ones of section 2 of RFC 3986. |
| `Url.Encode` | src/utils/url.cpp:39-52 | The loop computes the encoding. |
| `Url.Decode` | src/utils/url.cpp:54-76 | The loop computes the decoding and fails exactly at an escape that is cut off. |
| `Url.ValueRecovered` | src/http/request_parser.cpp:199-259 | The query parser takes an encoded value, and recovers it, if and only if each character is replaced by the encoder or is a url character. |
| `Url.QueryRecovered` | src/http/request_parser.cpp:186-259 | A query of any number of parameters, in whatever way its values are written, is read into the map of its pairs, of several values of one name the first, with a value that was left in the parser in front of the first one. |
| `Url.UnitsRecovered` | src/http/request_parser.cpp:199-259 | A value written in plain characters, escapes in upper or lower case and plus signs for blanks is read as the characters these stand for. |
| `Url.EncodedWrites` | src/utils/url.cpp:39-52 | The encoder, and the encoding of forms with a plus for a blank, are ways to write a value. |
| `Url.FragmentRecovered` | src/http/request_parser.cpp:231-272 | A query that is ended by a number sign and a fragment is read into the same map, and the fragment is recovered. |
| `Url.TargetRecovered` | src/http/request_parser.cpp:166-272 | Path, query and fragment of a request target are recovered. |
| `Url.FirstStays` | src/http/request_parser.cpp:224-230 | A parameter that was read once keeps its value. |
| `Url.QueryExact` | src/http/request_parser.cpp:186-259 | A query is read as it was sent if and only if no value was left in the parser. |
| `Url.FormRecovered` | src/http/request_parser.cpp:441-476 | A form of the same text is read into the same map, but without a last parameter that has no name; its last value is left in the parser. |
| `Url.FormStops` | src/http/request_parser.cpp:441-476 | A form is read up to a zero or up to a character that does not fit; in the second case the parameter it stands in is dropped. |
| `Base64.DecodeEncoded` | src/utils/base64.cpp:55-137 | Decoding an encoded text gives its bytes without the zeros. |
| `Base64.RoundTripExact` | src/utils/base64.cpp:131-136 | The text comes back whole if and only if it holds no zero byte. |
| `Base64.EncodedDigits` | src/utils/base64.cpp:55-119 | Every character of an encoded text is a digit, to the base 64, of the number its group of three bytes makes, or a dot where the bytes have ended. |
| `Base64.AlphabetPlaces` | src/utils/base64.cpp:5-30 | The digits are the places of the characters in the alphabet of section 5 of RFC 4648; the decode table agrees and gives 64 for the slash. |
| `Base64.PackBack` | src/utils/base64.cpp:110-129 | Four characters unpack to the three bytes they were made of, also where dots stand for zeros. |
| `Base64.EncodeUrl` | src/utils/base64.cpp:55-84 | The loop over packs of three computes the encoding. |
| `Base64.Decode` | src/utils/base64.cpp:91-108 | The loop over packs of four computes the decoding. |
| `Sha256.PaddingExact` | src/utils/sha256.cpp:119-125 | The program pads as section 5.1.1 of FIPS 180-4 demands if and only if the message is shorter than 2 to the 29 bytes. |
| `Sha256.ProcessSplit` | src/utils/sha256.cpp:46-73 | Processing whole blocks one part after the other is processing them at once. |
| `Sha256Standard.Constants` | src/utils/sha256.cpp:20-36 | The constants of the 64 rounds are the first 32 bits behind the point of the cube roots of the first 64 primes. |
| `Sha256Standard.Initials` | src/utils/sha256.cpp:76-88 | The words a digest starts from are those of the square roots of the first eight primes. |
| `Sha256Standard.ChBits` | include/matador/utils/sha256.hpp:93 | The choosing function takes a bit of the second word where the first has a one, and of the third elsewhere. |
| `Sha256Standard.MajBits` | include/matador/utils/sha256.hpp:94 | The majority function gives a one where at least two words have one. |
| `Sha256Standard.Abc` | src/utils/sha256.cpp:38-130 | The digest of the three letters abc is the one the standard gives. |
| `Sha256Stream.DigestOfPieces` | src/utils/sha256.cpp:90-130 | For every way to cut a message below 2 to the 29 bytes into pieces the digest is that of the standard. |
| `Sha256Stream.Stream.TransformBlock` | src/utils/sha256.cpp:46-72 | The in-place rounds compute the compression function of section 6.2.2. |
| `Sha256Stream.Stream.Expand` | src/utils/sha256.cpp:48-53 | The words are the message schedule. |
| `Sha256Stream.Stream.RoundInPlace` | src/utils/sha256.cpp:57-69 | Shifting the working variables in place is one round. |
| `Sha256Stream.Stream.Transform` | src/utils/sha256.cpp:38-74 | The loop over blocks folds the compression function. |
| `Sha256Stream.Stream.Update` | src/utils/sha256.cpp:90-111 | All full blocks of what came in so far are processed and the rest is in the block, however it was cut. |
| `Sha256Stream.Stream.Final` | src/utils/sha256.cpp:113-130 | The digest is the fold over the message padded with a 32-bit length, and below 2 to the 29 bytes the one of the standard. |
| `ChangeQueue.RunAgrees` | src/orm/persistence.cpp:109-154 | After every run in which proxies are inserted once, the database with the pending queue applied equals the store and what eager writes give, and a proxy has at most one entry. |
| `ChangeQueue.FlushAgrees` | src/orm/session.cpp:15-40 | After a flush the database is what eager writes give, and nothing waits. |
| `ChangeQueue.StepKeeps` | src/orm/persistence.cpp:109-154 | Every operation keeps the invariant of the queue. |
| `ChangeQueue.FlushWritesStore` | src/orm/session.cpp:18-36 | Writing the entries in order succeeds and brings the database to what is stored. |
| `ChangeQueue.InsertAgain` | src/orm/persistence.cpp:116-118 | Inserting a proxy that is not stored keeps this if and only if it does not wait to be removed. |
| `ChangeQueue.Persistence.RegisterInsert` | src/orm/persistence.cpp:109-121 | The queue after registering an insert; during a transaction it is unchanged. |
| `ChangeQueue.Persistence.RegisterUpdate` | src/orm/persistence.cpp:123-135 | The queue after registering an update. |
| `ChangeQueue.Persistence.RegisterDelete` | src/orm/persistence.cpp:137-154 | The queue after registering a delete: a pending insert is dropped, a pending update becomes a removal. |
| `ChangeQueue.Persistence.FlushQueue` | src/orm/session.cpp:15-40 | The loop leaves the database equal to the store and the queue empty. |
| `StoreIndex.StepExact` | src/object/object_store.cpp:161-295 | Insert, remove, restore and clear keep both maps exact, with distinct ids, if and only if a given key is not taken in its type and what is restored is not linked. |
| `StoreIndex.RunKeeps` | src/object/object_store.cpp:110-295 | So does every run of such calls. |
| `StoreIndex.InsertEffect` | src/object/object_store.cpp:192-242 | Inserting links exactly the proxy in addition, or changes nothing where its type is unknown or it was inserted before. |
| `StoreIndex.InsertInfo` | src/object/object_store.cpp:205-224 | It gets the next id, and the key that was given or is made of the id. |
| `StoreIndex.InsertPlace` | src/object/prototype_node.cpp:101-137 | It is the last but one of its type, and no other list changes. |
| `StoreIndex.RemoveEffect` | src/object/object_store.cpp:263-295 | Removing unlinks exactly the proxy; ids, keys and the rest of the lists stay. |
| `StoreIndex.RestoreEffect` | src/object/object_store.cpp:171-190 | Restoring links exactly the proxy again, with the id it had. |
| `StoreIndex.ClearEffect` | src/object/object_store.cpp:110-125 | After clearing nothing is linked, and ids are not used again. |
| `StoreIndex.RemoveAndRestore` | src/object/object_store.cpp:171-295 | Restoring what was just removed gives the links there were, and both maps exact. |
| `StoreIndex.LookupExact` | src/object/object_store.cpp:161-169 | The map of ids and the map of keys give a proxy if and only if it is linked and has that id, or that type and key. |
| `StoreIndex.OwnKeyIsFree` | src/object/object_store.cpp:213-224 | A key made from the id is never taken. |
| `StoreIndex.LinkKeys` | src/object/prototype_node.cpp:129-134 | The map of keys stays exact if and only if the key is free. |
| `StoreIndex.Store.Insert` | src/object/object_store.cpp:192-242 | The state is that of the model after the step: where the proxy may be inserted exactly it is linked in addition, elsewhere nothing changes. |
| `StoreIndex.Store.Remove` | src/object/object_store.cpp:263-295 | The state is that of the model: exactly the proxy is not linked any more, what it carries stays, and both maps stay exact. |
| `StoreIndex.Store.InsertProxy` | src/object/object_store.cpp:171-190 | A removed proxy is put back with its id, as in the model: exactly it is linked in addition. |
| `StoreIndex.Store.ClearObjects` | src/object/object_store.cpp:110-125 | Every type and both maps are empty. |

## Left out

- Relations, cascades, reference counts, has-many containers and deleting object trees: they rest on templates outside the modelled files.
- `object_store::clear(type)` and `detach`: they drop proxies without touching the id map.
- Sockets, `select`, address resolution and clocks: the reactor only sees which bits and due timers the environment reports; in general runs `select` may return for no reason, in the runs given as examples it may not.
- StepKeeps: in `Reactor`, `remove_deleted` is one step per handler although it runs without the lock, and a registered handler gets no new descriptor but can be closed.
- Release: as in the source, at most the bytes that are in the buffer are asked for.
- SyncDate: does not say whether dates before year 0 or after the last March year come back; a signed overflow, which is undefined in the source, is taken as wrap-around there.
- Daylight saving, local time and the formatting of dates.
- SQL: a table is a map of rows, in which an insert of an existing row fails and other writes do nothing to a missing one. A proxy of a type without a table, which a flush skips, is not modelled.
- `proxies_to_delete_` and `proxy_identifier_map_`, which release memory and remember keys.
- RoundTrip: a zero has no sign in `JsonExact`; the text of a negative zero differs by its minus.
- JSON text behind its end: the parser can step over the terminating zero of a text that is cut off, and the model reads zeros there.
- The global `errno` is taken to be clear when a JSON number is read.
- HTTP requests and responses share one record and one parser with a kind, as most of their states are the same. The request logger and path parameters are not modelled.
- RecoveredExactly: legal parts are keys of letters, digits and dashes, values of visible characters without blanks at their ends, a url of url characters without a question mark, and no header named like the two content lines.
- ToBuffers: the order of headers is that of the hash map, so any order of its keys is allowed; a status outside the table is not.
- RequestRead: a header has at least one line, and a fragment is only told from the path behind a query; names of parameters as in `QueryRecovered`.
- DocumentExact: only texts without zeros, at which the parser takes a text to end.
- QueryRecovered: names are url characters without question and equals sign, as the parser decodes values only.
- FormRecovered: has names of the same characters.
- Base64 with the standard alphabet, whose slash decodes to 64, and characters outside the decoding table, which are read outside of it.
- Update: one piece together with what waits in the block is below 2 to the 32 bytes, where its 32-bit sum does not wrap; the pieces together may be more, and the total wraps as in the source.
- DigestOfPieces: only below 2 to the 29 bytes, since from there on the padding differs from the standard, as `PaddingExact` shows.
- The hexadecimal output of SHA-256, and HMAC.
