# xframe: verified models of the framework's core components

xframe is a C++ message framework. This project models, in Dafny, the components whose correctness is
hard to see by reading: the transaction protocol that makes UDP requests reliable, the backtracking
regular-expression engine, stream framing, DES, two hand-written locks, the JSON, Base64, MQTT and URI
codecs, the XML child list, the overload limiter and the load balancer. Each algorithm of the source
that changes state is a method or a class whose contract ties it to a specification function; the
properties are lemmas about those functions, over all inputs, all runs or all interleavings.

Files, one module each:

- `TransState`, `TransSystem`: the client and server state machines, and whole runs of two machines over
  a network that loses, duplicates and reorders.
- `RegExp`, `RegExpParse`, `RegExpGrammar`: the matcher against "the text splits into pieces", the pattern
  parser, and the grammar of patterns with the language of each.
- `Framing`: the sender's frames and the receiver's resynchronising automaton, over any cutting of the stream.
- `DesSpec`, `DesTables`, `DesComplement`, `DesCriteria`, `DesAnswer`, `Des`: DES and two-key Triple DES on bit
  sequences, the FIPS 46-3 tables, the complementation property, two design criteria of the round function, a
  block followed through all sixteen rounds, and the in-place code with its global key schedule.
- `RWMutex`, `ConditionGate`, `ConditionAccount`: the reader-writer lock and the semaphore-built condition
  variable, in every interleaving of any number of threads, and whom the latter's signals wake.
- `Json`, `JsonCursor`, `JsonRoundTrip`, `JsonCharacters`, `JsonGrammar`: printer and parser on values, the
  cursor-moving code, the round trip and exactly when it holds, the printed form, and the accepted texts as a grammar.
- `MqttMsg`, `MqttLink`, `MqttPackets`: the packet codec, packets sent by the client link as the server link sees
  them, and what any bytes at all make the server link do.
- `Base64`, `Uric`: RFC 4648 encoding and URI escaping, in place where the source is.
- `XmlNode`, `Overflow`, `TaskSelector`: the child list on the heap, the limiter, the load balancer.
- `Bytes`, `Wrappers`: shared definitions.

Clocks, timer keys, queue lengths, cloning and memory behind a buffer are parameters. Sockets, semaphores and
mutexes appear as the atomic steps they perform.

## Where the code differs from what it promises

Each of these is kept as the code has it, with the failing input and the exact condition:

- For an empty transaction id `transID.str()` gives NULL, which the timer carries and its expiry passes to
  strlen; the guard `transid.size()` comes after that, and is never 0. `EmptyIdExpiresWithNull` has the input,
  `ExpiryDefinedIff` the condition.
- A repetition such as `\{20000,\}` gets the maximum 10000, below its minimum. The matcher then accepts texts
  it should not (`EmptyRangeIsAccepted`, `FaithfulIffRanged`); `RangedIff` says which patterns are affected.
- A negative `wchar_t` is printed as its low 16 bits, so a JSON tree that holds one does not come back
  (`StringReadBackIff`, `ParseStringifyIff`).
- The MQTT standard allows four bytes of Remaining Length; the code refuses the fourth, so bodies of 128^3 bytes
  and more are sent but not understood (`LengthBack`, `PublishDelivered`).
- `parseString` compares the string's length with what is left before taking off its own two length bytes, so
  a string can run one or two bytes past its packet: `OverrunAccepted` has a packet, `StringStaysInsideIff`,
  `UnsubscribeInsideIff` and `PublishOverrunsIff` the conditions.

- The condition variable loses signals. When a thread that timed out leaves while a released one is still on its
  way, m_blocked is lowered for the wrong thread, and the one that takes the signal then raises m_gone: a thread
  that waits afterwards sleeps through every signal and broadcast (`LateLeaverLosesSignals`). `AccountKeptIff` has
  the condition, and `SignalReleases` what signals do as long as it holds.
- The Base64 decoder counts its paddings down below zero, and with three or more of them can write bytes behind a
  buffer that is too small for them: `ThreePaddings` has a text, `WritesBehindIff` says which texts do it.
- The JSON parser does not look at the character that opens a member's name, lets a tab through in a string, and
  takes `true`, `false` and `null` in any case; `ParseIffGrammar` has all it accepts.
- The mean of the queues is rounded down before the threshold is added: with queues of 201 and 0 the first one
  counts as more than 100 above the mean (`MeanIsRoundedDown`, `BlockedIff`).

## Model

| member | source | states |
|---|---|---|
| TransState.TransEntry.ClientChange | xframe/transport/transstate.C:23-129 | the client machine's answer and new entry are those of the transition function, and its resend timer is started, kept or removed to match |
| TransState.TransEntry.ServerChange | xframe/transport/transstate.C:131-247 | the same for the server machine, including acknowledging, storing the final response and resending it |
| TransState.TransEntry.TsChange | xframe/transport/transstate.C:17-21 | a message goes to the machine of its entry's side |
| TransState.TransEntry.TimerChange | xframe/transport/transstate.C:249-281 | an expiry of the entry's own timer resends the stored message and starts the timer again; any other key is ignored |
| TransState.TransMachine.ProcessTM | xframe/transport/transstate.C:288-308 | a message changes at most the entry of its own transaction id, creating it only for a request, and timers follow; ids are compared up to their first 0, as the table's strcmp does |
| TransState.TransMachine.ProcessExpired | xframe/transport/transstate.C:310-330 | a timer expiry, whose parameter must not be NULL, changes at most the entry its parameter names |
| TransState.KeyIsPrefix | xframe/transport/transstate.C:288-308 | the key that ids are compared by is the text up to its first 0 |
| TransState.MovesForward | xframe/transport/transstate.C:17-247 | a message moves an entry only forward through its states, and tschange with tschange_from tells exactly what it did |
| TransState.AckGoesBack | xframe/transport/transstate.C:23-247 | an acknowledgement goes back where the message came from, with its id, sequence number and priority, status 100 and no body |
| TransSystem.StepKeeps | xframe/transport/transstate.C:17-281 | every step of either application, of the network or of a timer keeps the protocol invariant |
| TransSystem.AskKeeps | xframe/transport/transstate.C:23-129 | sending a request keeps the protocol invariant |
| TransSystem.AnswerKeeps | xframe/transport/transstate.C:161-247 | a server application's answer, also a repeated one, keeps the invariant |
| TransSystem.FirstDeliveryKeeps | xframe/transport/transstate.C:136-160 | the first arrival of a request keeps the invariant |
| TransSystem.LaterDeliveryKeeps | xframe/transport/transstate.C:161-247 | any later or reordered arrival at the server keeps the invariant |
| TransSystem.FinalDeliveryKeeps | xframe/transport/transstate.C:50-129 | a final response at the client keeps the invariant, also as a duplicate |
| TransSystem.AckDeliveryKeeps | xframe/transport/transstate.C:50-129 | a provisional acknowledgement at the client keeps the invariant in every client state |
| TransSystem.TimerKeeps | xframe/transport/transstate.C:249-281 | an expiry on either side keeps the invariant |
| TransSystem.RunKeeps | xframe/transport/transstate.C:17-330 | the invariant holds for every transaction after every run of all transactions together |
| TransSystem.NoStuckTransaction | xframe/transport/transstate.C:23-281 | in every reachable state an unfinished client that needs a response has its own resend timer running, or faces a server still awaiting its application, or one that resends the stored final response on a running timer |
| TransSystem.EndToEndAgreement | xframe/transport/transstate.C:17-281 | over whole runs: one delivery of the request, every final response on the wire is the first answer, at most one final response is handed up, and only after the answer |
| TransSystem.ResendCarriesStored | xframe/transport/transstate.C:249-281 | whenever a timer runs, its expiry is a resend, of the asked request on the client and of the first answer on the server |
| TransSystem.CanAlwaysFinish | xframe/transport/transstate.C:17-281 | from every reachable state at most four further steps end an unfinished transaction whose id is not empty, whatever was lost before |
| TransSystem.FinishByDelivery | xframe/transport/transstate.C:50-129 | a final response in flight ends the transaction |
| TransSystem.FinishByAnswer | xframe/transport/transstate.C:161-247 | an answer by the waiting server application ends the transaction |
| TransSystem.FinishByRequest | xframe/transport/transstate.C:131-247 | a request in flight ends the transaction, with the application's answer if it is still missing |
| TransSystem.CanAlwaysComeToRest | xframe/transport/transstate.C:17-281 | resending ends: from every reachable state of an asked transaction with an id that is not empty, response wanted or not, at most six further steps, three once the client was acknowledged, leave both sides in TERMINATED with no timer running |
| TransSystem.RestLasts | xframe/transport/transstate.C:17-281 | and no step whatever starts a timer again |
| TransSystem.AckSilencesServer | xframe/transport/transstate.C:237-242 | the client's acknowledgement leaves a terminated server with no timer running |
| TransSystem.AckSilencesClient | xframe/transport/transstate.C:62-80 | an acknowledgement ends the client's resending, and the transaction if no response is wanted |
| TransSystem.FinalIsAcked | xframe/transport/transstate.C:85-127 | a final response that reaches a client past FORWARD is acknowledged, be it the first or a repeated one |
| TransSystem.FinalInForward | xframe/transport/transstate.C:50-84 | one that finds the client in FORWARD ends the transaction and sends nothing |
| TransSystem.RepeatIsAnswered | xframe/transport/transstate.C:161-236 | a repeated request is acknowledged while the answer is due, and answered with the stored response afterwards, or acknowledged if none is wanted |
| TransSystem.AskedOnce | xframe/transport/transstate.C:50-129 | asking again neither sends nor starts anything |
| TransSystem.ExpiryDefinedIff | xframe/transport/transstate.C:310-313 | in every reachable state a running timer expires with a parameter that is not NULL iff the request's id is not empty |
| TransSystem.EmptyIdExpiresWithNull | xframe/comserv/comtypedef_vchar.C:2518-2540 | once a request with the empty id is lost, no possible further steps finish its transaction: only the expiry is left, and it takes the length of NULL |
| TransSystem.OnlyExpiryStays | xframe/transport/transstate.C:310-313 | no other step changes that |
| RegExp.MatchComponent | xframe/comserv/cregexpele.C:187-203 | a character belongs to a group iff it is in one of its ranges, or in none for a negated group |
| RegExp.MatchFront | xframe/comserv/cregexpele.C:81-185 | certain, certain_not and un_certain are answered, and the iterator set, as the piece from the start to the target requires, and which memory is read |
| RegExp.MatchImpl | xframe/comserv/cregexpele.C:359-404 | the loop with backtracking calls terminates, computes the search function, and bounds what it reads |
| RegExp.SearchFrom | xframe/comserv/cregexpele.C:359-404 | the search from any target succeeds iff some split with a first piece at least that long exists |
| RegExp.SearchAll | xframe/comserv/cregexpele.C:359-404 | for elements with non-empty ranges the search succeeds iff the text splits into pieces, whatever lies behind the text |
| RegExp.SplitsStep | xframe/comserv/cregexpele.C:359-404 | a text splits iff some first piece is accepted and the rest splits |
| RegExp.SplitsIsTextSplits | xframe/comserv/cregexpele.C:696-700 | cut positions in memory exist iff the text is a concatenation of pieces, piece i accepted by element i within its range |
| RegExp.CutsToPieces | xframe/comserv/cregexpele.C:696-700 | cut positions give pieces that concatenate to the text |
| RegExp.PiecesToCuts | xframe/comserv/cregexpele.C:696-700 | pieces that concatenate to the text give cut positions |
| RegExp.Match | xframe/comserv/cregexpele.C:696-700 | match returns true exactly when the text splits into pieces, and reads nothing behind the terminator if no element accepts the 0 character |
| RegExp.EmptyRangeIsAccepted | xframe/comserv/cregexpele.C:81-185 | with minimum above maximum a text is accepted although no split exists, once its first characters up to the maximum are |
| RegExp.NothingIsRejected | xframe/comserv/cregexpele.C:81-203 | an element that wants a character and accepts none is rejected in every context, as its meaning demands |
| RegExp.FaithfulIffRanged | xframe/comserv/cregexpele.C:81-203 | every element is matched rightly in every context iff its minimum is not above its maximum, or it wants a character and accepts none |
| RegExpParse.GetNextChar | xframe/comserv/cregexpele.C:49-76 | one character or escaped character is taken, and failure is reported at the end and for a lone backslash |
| RegExpParse.GroupParse | xframe/comserv/cregexpele.C:207-332 | the four-state loop yields the group, or an error for an unfinished or empty one |
| RegExpParse.ProduceModifierRange | xframe/comserv/cregexpele.C:566-683 | the two-state loop over flags and numbers reads a repetition range or fails |
| RegExpParse.ProduceElementModifier | xframe/comserv/cregexpele.C:492-562 | the repetition signs and ranges, and once for anything else, which is left unread |
| RegExpParse.ProduceElement | xframe/comserv/cregexpele.C:408-488 | body and modifier together make one element |
| RegExpParse.Parse | xframe/comserv/cregexpele.C:685-692 | the whole pattern becomes the element list, or an error |
| RegExpParse.ModifierRead | xframe/comserv/cregexpele.C:566-683 | every printed repetition is read back, whatever follows |
| RegExpParse.ItemsRead | xframe/comserv/cregexpele.C:207-332 | every printed list of ranges is read back in order |
| RegExpParse.AllRead | xframe/comserv/cregexpele.C:685-692 | every printed list of expressible elements is read back |
| RegExpParse.ParsedExpressible | xframe/comserv/cregexpele.C:408-692 | a parsed element has a non-empty group, and a range that is not empty unless it was left open |
| RegExpParse.PrintedDenotes | xframe/comserv/cregexpele.C:408-692 | every list of expressible elements has a pattern, its printed form |
| RegExpParse.PatternExistsIff | xframe/comserv/cregexpele.C:408-692 | patterns denote exactly the lists of expressible elements |
| RegExpParse.RangedIff | xframe/comserv/cregexpele.C:566-683 | a pattern yields an empty range exactly if it has an open range whose minimum is above MAX_COUNT |
| RegExpGrammar.ParsedIffSyntax | xframe/comserv/cregexpele.C:408-692 | a pattern is accepted iff it is written in the grammar (the signs ? + * and the three brace forms, plain and escaped characters, groups of single characters and ranges), and is then parsed to what its syntax says |
| RegExpGrammar.SyntaxRead | xframe/comserv/cregexpele.C:408-692 | everything written in the grammar is parsed, behind any elements read before |
| RegExpGrammar.SyntaxSound | xframe/comserv/cregexpele.C:408-692 | whatever is parsed is written in the grammar |
| RegExpGrammar.LanguageIsSplits | xframe/comserv/cregexpele.C:408-700 | the language of a syntax, given by the lengths each sign takes and the characters each atom has, is the set of texts that split into pieces of its elements |
| RegExpGrammar.RangedIffNoneTooHigh | xframe/comserv/cregexpele.C:566-683 | a pattern yields no empty range iff no open range in it starts above 10000 |
| RegExpGrammar.MatchPattern | xframe/comserv/cregexpele.C:685-700 | a pattern is rejected iff it is not in the grammar, and matches a text iff the text is in its language, provided no open range in it starts above 10000 |
| Framing.BigEndianRoundTrip | xframe/comserv/socket.C:1080-1095 | the length field is read back |
| Framing.PackLayout | xframe/comserv/socket.C:1070-1100 | a packed message is a 0, six bytes of 255, a 0, four bytes of length with the highest first, and the content |
| Framing.Socket.ReadFromBuff | xframe/comserv/socket.C:1464-1569 | the loop over state, position and length to read computes the automaton's result and what is consumed |
| Framing.Socket.RecvCodeByFindHead | xframe/comserv/socket.C:2066-2115 | one call appends what arrived, reads at most one frame, drops what was consumed and says whether more may be buffered |
| Framing.AutomatonStep | xframe/comserv/socket.C:1478-1535 | the state is always the length of the longest part of the delimiter that ends the input so far |
| Framing.NeverDropsAFrameStart | xframe/comserv/socket.C:1464-1569 | no byte at which a delimiter starts is consumed as garbage, however the stream continues |
| Framing.KeptFrom | xframe/comserv/socket.C:1464-1569 | the same from any state in the middle of the loop |
| Framing.ScanFrame | xframe/comserv/socket.C:1476-1568 | behind garbage without a delimiter a complete frame is read, and an incomplete one is left from its start |
| Framing.ScanGarbage | xframe/comserv/socket.C:1464-1569 | input without a delimiter yields no message |
| Framing.FirstDelimiterDecides | xframe/comserv/socket.C:1464-1569 | in any buffer at all the first delimiter decides, by the four bytes behind it: an illegal length, an incomplete frame kept from its start, or the message |
| Framing.CallKeeps | xframe/comserv/socket.C:2066-2115 | every call keeps delivered, buffered and unread bytes together equal to the stream, and makes progress |
| Framing.DeliversExactly | xframe/comserv/socket.C:2066-2115 | for every list of messages, every quiet garbage prefix and every cutting into chunks, the calls deliver exactly the packed messages in order, and all of them after enough calls |
| DesSpec.CompressExpand | xframe/comserv/des.C:202-216 | bytes survive expansion into bits and back |
| DesSpec.ExpandCompress | xframe/comserv/des.C:233-248 | bits survive compression into bytes and back |
| DesSpec.RoundsUndone | xframe/comserv/des.C:312-356 | the rounds with the schedule reversed and the halves swapped undo the rounds |
| DesSpec.CryptUndone | xframe/comserv/des.C:296-356 | the same with both permutations around them |
| DesSpec.DecryptEncrypt | xframe/comserv/des.C:367-395 | DES_1 undoes DES for every key and block |
| DesSpec.EncryptDecrypt | xframe/comserv/des.C:367-395 | DES undoes DES_1 for every key and block |
| DesSpec.TripleDecryptEncrypt | xframe/comserv/des.C:397-445 | TripleDES_1 undoes TripleDES |
| DesSpec.TripleEncryptDecrypt | xframe/comserv/des.C:397-445 | TripleDES undoes TripleDES_1 |
| DesSpec.EqualHalvesIsSingle | xframe/comserv/des.C:397-445 | with equal key halves Triple DES is single DES, both ways |
| DesSpec.FirstHalfIsOuter | xframe/comserv/des.C:397-445 | the first half of the key is that of the outer steps |
| DesTables.FipsShaped | xframe/comserv/des.C:5-125 | the tables of the source have the sizes and ranges that the theorems use |
| DesTables.FipsInverts | xframe/comserv/des.C:34-54 | the final permutation is the inverse of the initial one |
| DesTables.FipsSkipsParity | xframe/comserv/des.C:5-16 | the key selection never takes a parity bit |
| DesCriteria.OutputsDiffer | xframe/comserv/des.C:69-155 | in every box two inputs that differ in both of their first two bits and agree in their last two have different outputs |
| DesCriteria.OutputReachesSix | xframe/comserv/des.C:56-67 | the four output bits of a box go to six different boxes of the next round, and only there |
| DesCriteria.EachOfSixSees | xframe/comserv/des.C:56-67 | a change in the box's output that concerns one of the six is a change in that box's input |
| DesAnswer.KnownAnswer | xframe/comserv/des.C:367-380 | key 133457799BBCDFF1 and block 0123456789ABCDEF give 85E813540F0AB405, through all sixteen rounds |
| DesComplement.EncryptComplement | xframe/comserv/des.C:267-334 | complementing key and text complements the cipher text |
| DesComplement.DecryptComplement | xframe/comserv/des.C:336-356 | the same for decryption |
| DesComplement.TripleComplement | xframe/comserv/des.C:397-445 | the same for Triple DES, in encryption and in decryption |
| DesComplement.ScheduleNot | xframe/comserv/des.C:218-281 | the complemented key has the complemented schedule, through all shifts and selections |
| DesComplement.CipherNot | xframe/comserv/des.C:157-187 | the round function does not see complementing half and key together |
| DesComplement.RoundsNot | xframe/comserv/des.C:312-332 | complementing both halves and all keys complements the result of all rounds |
| DesComplement.ParityIrrelevant | xframe/comserv/des.C:267-281 | keys that differ only in the eight parity bits encrypt and decrypt alike |
| Des.Expand0 | xframe/comserv/des.C:202-216 | the loop fills the array with the bits of the bytes |
| Des.Compress0 | xframe/comserv/des.C:233-248 | the loop packs the array into bytes |
| Des.SBoxes0 | xframe/comserv/des.C:134-155 | the eight table look-ups give the specified 32 bits |
| Des.Engine.SetKeyStar | xframe/comserv/des.C:267-281 | the global schedule becomes that of the key, whatever it held before |
| Des.Engine.Son | xframe/comserv/des.C:218-230 | one round key is selected from C and D, and nothing else changes |
| Des.Engine.F | xframe/comserv/des.C:166-187 | one round in place |
| Des.Engine.SixteenRounds | xframe/comserv/des.C:312-356 | the round loops of encrypt0 and discrypt0, with the schedule forward or backward |
| Des.Engine.Crypt0 | xframe/comserv/des.C:312-356 | encrypt0 and discrypt0 on bytes |
| Des.Engine.DES | xframe/comserv/des.C:367-380 | DES computes the specified encryption whatever the global schedule held |
| Des.Engine.DES_1 | xframe/comserv/des.C:381-395 | DES_1 computes the specified decryption |
| Des.Engine.TripleDES | xframe/comserv/des.C:397-423 | two-key encryption, leaving key and text as they were |
| Des.Engine.TripleDES_1 | xframe/comserv/des.C:425-445 | two-key decryption |
| Des.FipsRoundTrip | xframe/comserv/des.C:367-445 | the round trips hold of the tables in the source |
| RWMutexModel.RWMutex.ReadPass | xframe/comserv/threadmutexRW.C:70-82 | one test of readlock's loop and what it does to the counters |
| RWMutexModel.RWMutex.WriteAnnounce | xframe/comserv/threadmutexRW.C:84-100 | a writer counts itself as pending |
| RWMutexModel.RWMutex.WritePass | xframe/comserv/threadmutexRW.C:84-100 | one test of writelock's loop |
| RWMutexModel.RWMutex.Unlock | xframe/comserv/threadmutexRW.C:109-150 | the counters behind unlock and whom it wakes |
| RWMutexModel.WakesIff | xframe/comserv/threadmutexRW.C:109-150 | unlock signals a writer iff the lock is free and one is pending, and wakes the readers only behind a writer with none pending |
| RWMutexModel.ReadTryKeeps | xframe/comserv/threadmutexRW.C:70-82 | a reader's step keeps the counts true and leaves no one unsignalled |
| RWMutexModel.WriteTryKeeps | xframe/comserv/threadmutexRW.C:84-100 | the same for a writer's step |
| RWMutexModel.ReleaseSignalled | xframe/comserv/threadmutexRW.C:109-150 | unlock wakes all that must be woken |
| RWMutexModel.LeaveCounted | xframe/comserv/threadmutexRW.C:109-150 | unlock keeps the counts true |
| RWMutexModel.RunKeeps | xframe/comserv/threadmutexRW.C:69-150 | both hold after every run |
| RWMutexModel.UnlockAsserts | xframe/comserv/threadmutexRW.C:109-150 | a holder finds the counters unlock asserts |
| RWMutexModel.WritersExcludeEveryone | xframe/comserv/threadmutexRW.C:69-150 | in every run writers exclude everyone and the counters equal the real holders and waiters |
| RWMutexModel.NoLostWakeUp | xframe/comserv/threadmutexRW.C:69-150 | a sleeping reader has a writer or pending writer before it; a free lock with sleeping writers has a signalled one |
| RWMutexModel.WaitersAreServed | xframe/comserv/threadmutexRW.C:69-150 | while anyone waits, someone holds the lock or is awake and gets it at its next step |
| RWMutexModel.ReaderEntersIff | xframe/comserv/threadmutexRW.C:70-82 | in every run a reader is let in iff no thread writes or waits to write |
| RWMutexModel.WriterEntersIff | xframe/comserv/threadmutexRW.C:84-100 | in every run a writer is let in iff no thread reads or writes |
| RWMutexModel.WriterPriority | xframe/comserv/threadmutexRW.C:70-82 | no step makes a thread a reader while a writer waits |
| RWMutexModel.ReadersDrain | xframe/comserv/threadmutexRW.C:69-150 | while a writer waits the set of readers only shrinks, by one with every release of a reader |
| RWMutexModel.WriterFollowsReaders | xframe/comserv/threadmutexRW.C:69-150 | once as many readers have left as there were, some writer has the lock or is awake and gets it at its next step |
| ConditionGate.MutexKept | xframe/comserv/threadcondition.C:109-510 | the internal mutex is held by exactly the thread inside it |
| ConditionGate.GateMove | xframe/comserv/threadcondition.C:109-510 | each step passes the gate on to the next owner |
| ConditionGate.SmallMove | xframe/comserv/threadcondition.C:109-510 | m_waiting never wraps round: while it is positive the gate is closed, so signals only move counts from m_blocked to it |
| ConditionGate.GateKept | xframe/comserv/threadcondition.C:109-510 | every step of every thread keeps the gate owned and the counters within their width |
| ConditionGate.GateHasOneOwner | xframe/comserv/threadcondition.C:109-510 | in every interleaving of any threads' steps the gate is free or has exactly one owner: a waiter entering, a signaller, a normaliser, a batch or a drainer; and the counters fit their width |
| ConditionGate.GateOpensFromZero | xframe/comserv/threadcondition.C:109-510 | every release of the gate takes it from 0 to 1 |
| ConditionGate.BlockedIsExclusive | xframe/comserv/threadcondition.C:109-510 | no two threads are about to touch m_blocked at once |
| ConditionAccount.AccountKeptIff | xframe/comserv/threadcondition.C:109-510 | a step keeps the counters in agreement with the threads that wait and the signals under way iff it is not a thread that timed out leaving while m_waiting is positive |
| ConditionAccount.AccountHolds | xframe/comserv/threadcondition.C:109-510 | in every run without such a step they agree, and every signal under way has a waiter it was meant for |
| ConditionAccount.SignalReleases | xframe/comserv/threadcondition.C:393-510 | in such a run a signal releases one of the waiting threads not yet released, if there is one, and a broadcast all of them |
| ConditionAccount.FoldsAt | xframe/comserv/threadcondition.C:159-170 | m_gone is folded into m_blocked iff it has reached ULONG_MAX / 2 |
| ConditionAccount.LeaverIsCounted | xframe/comserv/threadcondition.C:143-186 | every leaving thread lowers m_blocked and m_waiting less m_gone by one, and one that timed out while m_waiting is positive by two |
| ConditionAccount.QueueTally | xframe/comserv/threadcondition.C:121-510 | in every run m_queue holds the signals raised and not yet taken, by a woken thread or by the loop that makes up for time-outs |
| ConditionAccount.LateLeaverLosesSignals | xframe/comserv/threadcondition.C:262-312 | a run after which a waiting thread sleeps through any number of signals and broadcasts |
| JsonCursor.SkipWhitespace | xframe/comserv/json.C:133-139 | the cursor stops at the first character that is no white space |
| JsonCursor.ExtractString | xframe/comserv/json.C:152-240 | the string and the cursor behind its closing quote, or failure, without passing the terminator |
| JsonCursor.ExtractEscape | xframe/comserv/json.C:162-214 | one escape, of one letter or of four hexadecimal digits |
| JsonCursor.PassNumber | xframe/comserv/jsonvalue.C:77-138 | a number's text is passed as the grammar in the code has it |
| JsonCursor.ParseAt | xframe/comserv/jsonvalue.C:49-302 | on every text the recursive parser terminates, and a success moves the cursor forward and not past the terminator |
| JsonCursor.ParseElementsAt | xframe/comserv/jsonvalue.C:235-295 | the loop over array elements |
| JsonCursor.ParseMembersAt | xframe/comserv/jsonvalue.C:141-232 | the loop over object members, a repeated name replacing the earlier value |
| JsonCursor.ParseText | xframe/comserv/json.C:85-105 | a text is parsed iff it is one value with white space around it |
| JsonCursor.StringifyString | xframe/comserv/jsonvalue.C:746-803 | the loop prints the quoted and escaped string |
| JsonCursor.StringifyValue | xframe/comserv/jsonvalue.C:665-736 | a number-free tree is printed, arrays and objects by their loops |
| JsonRoundTrip.NarrowRead | xframe/comserv/jsonvalue.C:746-803 | a printed string is read back with negative characters cut to 16 bits |
| JsonRoundTrip.StringReadBackIff | xframe/comserv/jsonvalue.C:746-803 | a string comes back unchanged iff it holds no negative character |
| JsonRoundTrip.PutLast | xframe/comserv/jsonvalue.C:200-203 | members that arrive in key order are appended |
| JsonRoundTrip.ReadBack | xframe/comserv/jsonvalue.C:49-302 | a printed tree is read back whatever follows it |
| JsonRoundTrip.ParseStringify | xframe/comserv/jsonvalue.C:49-302 | Parse(Stringify(v)) equals v with any white space around |
| JsonCharacters.PrintedIsPlain | xframe/comserv/jsonvalue.C:665-803 | no 0 and no negative character is printed, whatever the strings hold |
| JsonCharacters.ParsedIsClean | xframe/comserv/json.C:85-240 | the parser makes no negative character out of such text |
| JsonCharacters.ParseStringifyIff | xframe/comserv/jsonvalue.C:49-302 | a number-free tree comes back iff none of its strings holds a negative character |
| JsonCharacters.ShortEscapes | xframe/comserv/jsonvalue.C:746-780 | which characters are printed as they are, and which by escapes of one letter |
| JsonCharacters.LongEscapes | xframe/comserv/jsonvalue.C:781-793 | all others are printed with four hexadecimal digits in upper case |
| JsonCharacters.PrintedArray | xframe/comserv/jsonvalue.C:690-712 | array elements are printed in brackets with commas between them and no spaces |
| JsonCharacters.PrintedObject | xframe/comserv/jsonvalue.C:713-732 | object members are printed in braces with commas between them, a quoted name, a colon and the value |
| JsonGrammar.ParseIffGrammar | xframe/comserv/jsonvalue.C:49-302 | a text is parsed iff it is in the grammar, with white space around it, and then has the value of its syntax |
| JsonGrammar.SynRead | xframe/comserv/jsonvalue.C:49-302 | every value in the grammar is parsed, whatever follows that does not go on with it |
| JsonGrammar.SynSound | xframe/comserv/jsonvalue.C:49-302 | whatever is parsed is in the grammar |
| JsonGrammar.NumeralSound | xframe/comserv/jsonvalue.C:77-138 | a number that is passed has the form of section 6 of RFC 8259 |
| JsonGrammar.LessIff | xframe/comserv/jsonvalue.C:200-203 | names are ordered by their first difference, and a prefix comes first |
| JsonGrammar.LastEntryWins | xframe/comserv/jsonvalue.C:200-203 | members are in order, and the last of several entries with one name gives its value |
| MqttMsg.AppendLength | xframe/facility/psamqtt/mqttmsg.C:14-26 | the loop appends the length in base 128 |
| MqttMsg.ParseLength | xframe/facility/psamqtt/mqttmsg.C:62-84 | the loop decodes, reporting a fourth byte and running out |
| MqttMsg.LengthBack | xframe/facility/psamqtt/mqttmsg.C:62-84 | an appended length is parsed back iff it is below 128^3 |
| MqttMsg.AppendStr | xframe/facility/psamqtt/mqttmsg.C:42-53 | length and bytes of the string up to its first 0 are appended |
| MqttMsg.StringBackIff | xframe/facility/psamqtt/mqttmsg.C:135-186 | an appended string is parsed back iff it is shorter than 65536 bytes |
| MqttMsg.StringStaysInsideIff | xframe/facility/psamqtt/mqttmsg.C:135-186 | when exactly parseString stays inside its message |
| MqttMsg.Pack | xframe/facility/psamqtt/mqttmsg.C:34-40 | head byte, length and body |
| MqttLink.ClientLink.SendConnect | xframe/facility/psamqtt/mqttlink.C:694-751 | the packet put on the wire and the keep-alive kept |
| MqttLink.ClientLink.SendPublish | xframe/facility/psamqtt/mqttlink.C:220-228 | the packet put on the wire |
| MqttLink.ClientLink.SendSubscribe | xframe/facility/psamqtt/mqttlink.C:753-770 | the packet put on the wire, by the loop over the topics |
| MqttLink.ClientLink.SendUnsubscribe | xframe/facility/psamqtt/mqttlink.C:787-799 | the packet put on the wire |
| MqttLink.ServerLink.ProcessConnect | xframe/facility/psamqtt/mqttlink.C:353-429 | link fields and invoked service behind every early return, the protocol name compared up to its first 0 |
| MqttLink.ServerLink.ProcessPublish | xframe/facility/psamqtt/mqttlink.C:431-449 | only quality 0 is accepted; topic and content are handed on |
| MqttLink.ServerLink.ParseTopics | xframe/facility/psamqtt/mqttlink.C:460-477 | the topic loops, all or nothing |
| MqttLink.ServerLink.ProcessSubscribe | xframe/facility/psamqtt/mqttlink.C:451-479 | the service is invoked iff all of the packet is parsed |
| MqttLink.ServerLink.ProcessUnsubscribe | xframe/facility/psamqtt/mqttlink.C:481-502 | the same without quality bytes |
| MqttLink.ServerLink.MsgParse | xframe/facility/psamqtt/mqttlink.C:85-121 | a packet is processed iff its decoded length is what is left |
| MqttLink.ConnectDelivered | xframe/facility/psamqtt/mqttlink.C:353-429 | every CONNECT packet sent is recovered field by field, the keep-alive to 16 bits |
| MqttLink.PublishDelivered | xframe/facility/psamqtt/mqttlink.C:431-449 | a PUBLISH packet sent is recovered iff its body is shorter than 128^3 |
| MqttLink.TopicsBack | xframe/facility/psamqtt/mqttlink.C:460-477 | any number of topics comes back in order |
| MqttLink.SubscribeDelivered | xframe/facility/psamqtt/mqttlink.C:451-479 | a SUBSCRIBE packet sent is recovered iff its body is shorter than 128^3 |
| MqttLink.UnsubscribeDelivered | xframe/facility/psamqtt/mqttlink.C:481-502 | the same for UNSUBSCRIBE |
| MqttLink.UnsubscribeInsideIff | xframe/facility/psamqtt/mqttlink.C:481-502 | what an UNSUBSCRIBE packet of the announced length makes the link hand on depends on the packet alone, iff no topic's length runs past it |
| MqttLink.OverrunAccepted | xframe/facility/psamqtt/mqttlink.C:481-502 | a packet of seven bytes that is accepted with a topic of three, two of them from behind it |
| MqttLink.PublishOverrunsIff | xframe/facility/psamqtt/mqttlink.C:431-449 | a PUBLISH packet makes the copy of negative length iff its topic runs past it |
| MqttPackets.StringIff | xframe/facility/psamqtt/mqttmsg.C:135-186 | parseString succeeds iff a written string lies there and its length is no more than all that was left |
| MqttPackets.LengthIs | xframe/facility/psamqtt/mqttmsg.C:62-84 | the Remaining Length in plain arithmetic on its first three bytes, and running out noticed one byte late |
| MqttPackets.PacketTypes | xframe/facility/psamqtt/mqttmsg.C:85-121 | what each value of the head byte makes the link do; a packet whose length does not fit only resets the idle time |
| MqttPackets.ConnectIff | xframe/facility/psamqtt/mqttlink.C:353-429 | CONNECT invokes the service or refuses iff its bytes are a packet that fits, with will, user name and password as its flags say; it is accepted iff the protocol name up to its first 0 is MQTT and the level 4 |
| MqttPackets.ConnectLeaves | xframe/facility/psamqtt/mqttlink.C:353-429 | the keep-alive and client name that a refused or broken-off packet leaves behind |
| MqttPackets.PublishIff | xframe/facility/psamqtt/mqttlink.C:431-449 | PUBLISH does something iff its flags are 0 and its topic fits; the bytes behind the topic are the content |
| MqttPackets.SubscribedIff | xframe/facility/psamqtt/mqttlink.C:451-479 | SUBSCRIBE invokes the service iff an identifier and topics, each with one byte behind it, fill the packet |
| MqttPackets.UnsubscribedIff | xframe/facility/psamqtt/mqttlink.C:481-502 | UNSUBSCRIBE iff an identifier and topics, each of which fits, fill the packet or reach behind it |
| MqttPackets.ConnectAnswer | xframe/facility/psamqtt/mqttlink.C:694-751 | the bytes of a CONNECT packet of client a, user b and password c |
| MqttPackets.OtherAnswers | xframe/facility/psamqtt/mqttlink.C:753-799 | the bytes of a SUBSCRIBE and an UNSUBSCRIBE packet |
| MqttPackets.LengthAnswers | xframe/facility/psamqtt/mqttmsg.C:14-26 | the encodings in table 2.4 of MQTT 3.1.1 |
| Base64.Encode | xframe/comserv/base64.C:89-125 | the string overload gives the RFC 4648 encoding, 4*ceil(n/3) characters |
| Base64.EncodeInto | xframe/comserv/base64.C:48-87 | the buffer overload gives the same characters and a 0, succeeds iff there is room, and touches nothing else |
| Base64.ShiftsAreDigits | xframe/comserv/base64.C:65-68 | the shifts and masks are the base-64 digits of the 24-bit group |
| Base64.EncodedLength | xframe/comserv/base64.C:58-59 | the length is exactly 4*ceil(n/3) |
| Base64.Decode | xframe/comserv/base64.C:127-155 | the loop over t, y, z and g computes the decoder function on every ASCII text |
| Base64.FeedEncoded | xframe/comserv/base64.C:127-155 | encoded text behind any whole groups is decoded, or refused for lack of room |
| Base64.DecodeEncoded | xframe/comserv/base64.C:127-155 | what was encoded comes back iff the capacity suffices, with characters outside the alphabet inserted anywhere |
| Base64.EncodedIsKept | xframe/comserv/base64.C:127-139 | the decoder skips nothing that the encoder wrote |
| Base64.DecodeInBuffer | xframe/comserv/base64.C:145-148 | text with at most two paddings is decoded within the capacity |
| Base64.WritesBehindIff | xframe/comserv/base64.C:127-155 | the decoder can write behind a buffer of some capacity iff the first group that ends with three or more paddings so far stands behind at least three bytes fewer than there are paddings |
| Base64.ThreePaddings | xframe/comserv/base64.C:127-155 | A=== writes a byte where there is room for none; ==== is refused |
| Base64.KnownAnswers | xframe/comserv/base64.C:89-125 | test vectors of section 10 of RFC 4648 |
| Base64.AlphabetOrder | xframe/comserv/base64.C:11-14 | the code is table 1 of RFC 4648 |
| Base64.SkippedIffForeign | xframe/comserv/base64.C:16-38 | a character is skipped iff it is neither in the alphabet nor the padding |
| Base64.DecodeWithForeign | xframe/comserv/base64.C:127-155 | encoded text is decoded with any characters inserted that are not in the alphabet and not the padding, line breaks for one |
| Uric.CStr.UricEncode | xframe/comserv/comtypedef_vchar.C:2210-2240 | the text up to its first 0 is escaped within a buffer of 3n+1 bytes |
| Uric.CStr.UricDecode | xframe/comserv/comtypedef_vchar.C:2242-2279 | decoding in place, the write cursor never passing the read cursor |
| Uric.CStr.Resize | xframe/comserv/comtypedef_vchar.C:2052-2072 | room is made and the text kept |
| Uric.DecodeUndoesEncode | xframe/comserv/comtypedef_vchar.C:2210-2279 | decoding restores every encoded text without a 0 |
| Uric.EscapeTable | xframe/comserv/comtypedef_vchar.C:2210-2240 | which characters are escaped, and how |
| Uric.EncodedIsSafe | xframe/comserv/comtypedef_vchar.C:2210-2240 | no ampersand, equals sign or space is left in encoded text |
| Uric.ByteEscapeDecodes | xframe/comserv/comtypedef_vchar.C:2242-2279 | an escape of two hexadecimal digits of either case stands for their byte |
| Uric.UnicodeEscapeDecodes | xframe/comserv/comtypedef_vchar.C:2242-2279 | an escape of u and four digits stands for the UTF-8 form of their code point |
| Uric.Utf8IsRight | xframe/comserv/comtypedef_vchar.C:2428-2453 | the bytes appended for a code point are its UTF-8 form as section 3 of RFC 3629 has it |
| Xml.XmlNode.LinkEndChild | xframe/comserv/tinyxml.C:177-203 | a node in no list, with no parent or this one, becomes the last child of a well-formed list |
| Xml.XmlNode.InsertEndChild | xframe/comserv/tinyxml.C:205-219 | a clone is appended, or null is returned and nothing changes |
| Xml.XmlNode.InsertBeforeChild | xframe/comserv/tinyxml.C:221-254 | a clone is inserted before the given child, or nothing changes |
| Xml.XmlNode.InsertAfterChild | xframe/comserv/tinyxml.C:256-289 | a clone is inserted behind the given child, or nothing changes |
| Xml.XmlNode.ReplaceChild | xframe/comserv/tinyxml.C:291-317 | the child is exchanged for a clone at the same place, or nothing changes |
| Xml.XmlNode.RemoveChild | xframe/comserv/tinyxml.C:319-339 | the child leaves the list, or nothing changes |
| Xml.XmlNode.WalkForward | xframe/comserv/tinyxml.C:161-175 | following the next pointers visits exactly the abstract sequence |
| Xml.XmlNode.WalkBackward | xframe/comserv/tinyxml.C:177-203 | following the prev pointers visits its reverse |
| Xml.XmlNode.SplicedIsList | xframe/comserv/tinyxml.C:221-289 | the pointer updates of an insertion give a well-formed list |
| Xml.XmlNode.BridgedIsList | xframe/comserv/tinyxml.C:319-339 | the pointer updates of a removal give a well-formed list |
| Overflow.Counter.CheckOverflow | xframe/comserv/ofcounter.C:3-87 | answer and all fields after a call, with a time given or taken from the clock |
| Overflow.Counter.CountInSecond | xframe/comserv/ofcounter.C:15-33 | a further call within the second |
| Overflow.Counter.NextStage | xframe/comserv/ofcounter.C:45-83 | the recovery stage after a gap |
| Overflow.RunKeeps | xframe/comserv/ofcounter.C:3-87 | in stage 0 the limit is the configured one, and no stage has a higher one |
| Overflow.GapIsOnePerSecond | xframe/comserv/ofcounter.C:45-84 | a call after a gap of any length leaves the state that one call a second would have left, but for the record |
| Overflow.SettlesInThree | xframe/comserv/ofcounter.C:45-84 | after three quiet seconds the limiter is back to normal |
| Overflow.SlowStart | xframe/comserv/ofcounter.C:45-83 | the seconds after a tripped one accept what limits of 30, 60 and 100 percent of the configured limit allow |
| Overflow.NewLimitInSlowStart | xframe/comserv/ofcounter.C:45-83 | a new limit does not end the slow start |
| Overflow.TrippedRefuses | xframe/comserv/ofcounter.C:18-33 | a second that reaches 120 percent refuses all further calls |
| Overflow.ClockSetBack | xframe/comserv/ofcounter.C:45-83 | a clock that goes back changes neither stage nor limit |
| Overflow.BurstFrom | xframe/comserv/ofcounter.C:15-33 | how many calls of a second are accepted, in closed form, and the state after them |
| Overflow.SecondIsBounded | xframe/comserv/ofcounter.C:15-33 | after every history no second accepts more than (L-1) + ceil((P-L)/2) calls, where L = max(limit, 2) is never above P |
| Overflow.FirstSecondIsBounded | xframe/include/comserv/ofcounter.h:55-70 | the same for the second in which the limiter is created |
| Overflow.BoundIsReached | xframe/comserv/ofcounter.C:22-26 | the bound is tight |
| Overflow.LimitOfOne | xframe/comserv/ofcounter.C:15-33 | with a limit of one each second accepts one call |
| Overflow.NoLimit | xframe/comserv/ofcounter.C:18-18 | without a positive limit nothing is refused |
| Overflow.RecordIsPeak | xframe/comserv/ofcounter.C:36-40 | the record holds the first of the busiest completed seconds since the last report |
| TaskSelector.BalanceCheck | xframe/kernel/taskselector.C:288-314 | exactly the instances with queues above mean plus threshold are blocked |
| TaskSelector.Selector.RegisterTask | xframe/kernel/taskselector.C:93-137 | the instance joins the task's ring, creating it if it is the first |
| TaskSelector.Selector.ShutdownTask | xframe/kernel/taskselector.C:154-168 | every instance of the task is marked, and nothing else changes |
| TaskSelector.Selector.Select | xframe/kernel/taskselector.C:245-282 | the next eligible instance is picked, and the balance checked when it is due |
| TaskSelector.Selector.GetTask | xframe/kernel/taskselector.C:228-284 | the container asked for, or the one picked |
| TaskSelector.SumExceeds | xframe/kernel/taskselector.C:288-314 | queues all above a bound have a sum above it |
| TaskSelector.BalanceLeavesOne | xframe/kernel/taskselector.C:288-314 | a balance check of running instances leaves some of them eligible, whatever the queues |
| TaskSelector.BlockedIff | xframe/kernel/taskselector.C:288-314 | after a check of more than one instance, instance i is blocked iff n * (waits[i] - 100) exceeds the sum of the n queues |
| TaskSelector.MeanIsRoundedDown | xframe/kernel/taskselector.C:304-311 | of two instances with queues 201 and 0 the first is blocked, with 200 and 0 it is not |
| TaskSelector.LongQueuesAreSpared | xframe/kernel/taskselector.C:258-314 | in every history, until the next check no selection picks an instance whose queue was too long |
| TaskSelector.ShortQueuesAreServed | xframe/kernel/taskselector.C:258-314 | in the round after a check the selections pick exactly the instances whose queue was short enough, each once, blocked before or not |
| TaskSelector.ChecksAreRegular | xframe/kernel/taskselector.C:263-276 | a check comes with the selection after every 100 for each instance |
| TaskSelector.SearchFinds | xframe/kernel/taskselector.C:258-281 | going once round the ring finds an eligible instance if there is one |
| TaskSelector.AfterKeeps | xframe/kernel/taskselector.C:93-314 | every history of registrations and selections leaves one eligible |
| TaskSelector.RegisteredTaskIsServed | xframe/kernel/taskselector.C:228-284 | getTask never fails on a registered task that is not shut down |
| TaskSelector.ShutDownServedIff | xframe/kernel/taskselector.C:228-284 | a task that is shut down is served iff it has one instance |
| TaskSelector.ShutDownForGood | xframe/kernel/taskselector.C:154-281 | whatever follows a shutdown, only instances registered afterwards are picked |
| TaskSelector.PicksRank | xframe/kernel/taskselector.C:258-281 | the k-th pick is the k-th eligible instance behind the position, cyclically |
| TaskSelector.NoOneTwice | xframe/kernel/taskselector.C:258-281 | within a round no instance is picked twice |
| TaskSelector.EveryoneOnce | xframe/kernel/taskselector.C:258-281 | within a round every eligible instance is picked |
| TaskSelector.FairTurns | xframe/kernel/taskselector.C:228-284 | between balance checks each eligible instance is picked exactly once per round |
| TaskSelector.CountsTell | xframe/kernel/taskselector.C:263-270 | each instance's counter counts the selections that picked it |

## Left out

- Transaction expiry and the 408 reply: entries live for ever in the model.
- TransState.TransMachine.ProcessTM: does not model the logging and the message objects' ownership; messages are values.
- TransSystem.CanAlwaysFinish: requests with the empty id are excluded, as their timers cannot expire.
- TransSystem.StepKeeps: the two applications are restricted to asking with requests and answering with final responses. setResendTimer is taken to return a key that is not 0 and not in use.
- RegExpParse.ProduceModifierRange: does not model 32-bit wrap-around of a very long number in a repetition range.
- RegExp.Match: the guarantee on memory reads needs that no element accepts the 0 character, as the text's end is found by it.
- The wrapper class around the regular-expression root.
- Framing.DeliversExactly: says nothing about frames with an illegal length field, after which the automaton stays where it is.
- Framing.Socket.RecvCodeByFindHead: the ring buffer is a byte sequence; wrapping and clipping inside it are not modelled.
- The send backlog, connection lists and socket calls.
- RWMutexModel.RunKeeps: threads are a step relation; the section of the RWMutex between taking its internal mutex and releasing it, or waiting, is one step.
- ConditionAccount.AccountHolds: fewer than 2^31 threads are assumed, so that m_blocked does not wrap round. After a late leaver the account is off for good, and what later signals do is stated for one run only.
- ConditionGate.GateKept: timed and untimed waits differ only in whether they may time out; the clock is not modelled.
- JsonCursor.ParseAt: the value of a number is left as its text; number printing and floating point are not modelled.
- MqttLink.ServerLink.MsgParse: reassembly of packets from a stream and the CONNACK, SUBACK and PING replies' parsing are not modelled; the socket's close is not either.
- MqttLink.ServerLink.ProcessPublish: a content of negative length, which the code copies with undefined effect, is an event of its own.
- MqttLink.ConnectDelivered: strings of 65536 bytes and more are excluded; `StringBackIff` says what happens to one.
- Base64.Decode: characters above 127 index the table with a negative number in C and are excluded; what is written is a sequence, so a write behind the buffer is seen only as its length.
- Uric.CStr.UricDecode: an escape that is not of hexadecimal digits is handed to sscanf unchecked; decoding stops there in the model.
- Xml.XmlNode.LinkEndChild: a node that already is in the list is excluded, though the source's assert lets it pass; linking it again would break the list.
- The XML nodes: those handed in otherwise are fresh clones; deleting nodes and the reuse of disabled ones are not modelled.
- Overflow.SecondIsBounded: assumes the threshold is not changed within the second, and a limit of at least two; `LimitOfOne` and `NoLimit` cover the rest.
- Overflow.Counter.CheckOverflow: the percentages are exact decimals, which truncated doubles agree with for int limits; times and counts are unbounded.
- TaskSelector.Selector.ShutdownTask: the source has shutdownTask in a comment only, while getTask honours its flag; unregistering, in the same comment, is not modelled.
- TaskSelector.Selector.Select: counters do not wrap round; session stickiness and multicast are not modelled.
- HTTP, XML text, configuration, database access and logging.
