# A verified model of httperf's core

httperf is an event-driven generator of HTTP load. Its hard logic sits in a few
self-contained state machines and in-place algorithms, and this project models
those, in the form the C code has: classes with the source's fields, arrays and
linked lists worked on in place, loops with invariants. Input and output enter
only as "these bytes were read", "this many bytes were written", "the
connection is up" or "the time is now". Every method is proved against a
specification function or relation, and the promises of the code are proved
about that.

`dafny verify dfyconfig.toml` checks the project.

| file | component |
|---|---|
| `Shared.dfy` | the option type, the smaller of two numbers, and the concatenation of pieces |
| `CString.dfy` | the C library's `strtoul`, `sscanf` and case-insensitive comparison as far as the parser uses them |
| `ReplyAutomaton.dfy` | the reply parser as an automaton that takes one byte at a time: the specification |
| `ReplyParser.dfy` | the block- and line-oriented parser of `src/http.c`, driven by `do_recv`; refines the automaton for every way of cutting the stream |
| `ReplyFraming.dfy` | replies as they are written, and the proof that they are read back |
| `ReplyEdges.dfy` | what becomes of a stream of replies at its edges: failure statuses, closes, bytes nobody waits for, odd lines |
| `Orbits.dfy` | the gcd and the walk x -> x + b mod n, shared by the next two and the working set |
| `ArgumentRotation.dfy` | `permute_args`, the in-place exchange of two blocks by cycles |
| `Getopt.dfy` | a whole permuting `getopt_long` scan |
| `ArgumentSpelling.dfy` | command lines as they are written, mistakes included, and the proof that a scan reads them back |
| `SessionProtocol.dfy` | sessions, connections, pipelining and reference counts as steps of a protocol, and its invariants over every run |
| `SessionHistory.dfy` | what the events of a run have issued and completed on each slot |
| `SessionFates.dfy` | how far each connection has got and what ends a session, told from its events |
| `SessionRings.dfy` | the ring arrays, queues and handlers that perform those steps |
| `Objects.dfy` | reference counts and the free list |
| `SessionObjects.dfy` | the references a run of the session protocol takes and drops, and the objects its calls are kept in |
| `RequestWriter.dfy` | partial writes over the iovec array |
| `Bits.dfy`, `Ports.dfy` | the bitmap of free local ports |
| `AddressTable.dfy` | the hash of server names and the linear-probing index |
| `LinkedList.dfy`, `TimerProtocol.dfy`, `TimerHistory.dfy`, `TimerQueue.dfy` | the linked list, what timers owe their users, the same told from what was asked for, and the timer module on two linked lists |
| `Bursts.dfy` | burst sequencing of wsesslog sessions |
| `QuotedContents.dfy` | the scanner of quoted contents in a wsesslog configuration |
| `QuotedSpelling.dfy` | contents as they are written, and the proof that the scanner reads them back |
| `WorkingSet.dfy` | the working-set URI generator |
| `Rate.dfy` | catch-up scheduling and the variable rate |
| `Lifetimes.dfy` | the lifetime histogram and its median |

Two specifications carry most of the weight. The byte automaton has a sticky
flag `bad` for the streams on which the C code's result depends on how the
stream was cut, or is not determined by the language: a NUL byte inside a line
(`src/http.c:69`), a line of more than 1023 bytes (`src/http.c:77-84`), a
status line that does not match the `sscanf` (the branch for it goes on to use
an uninitialised status, `src/http.c:131-154`) and a sum of chunk sizes past
the largest size. Safety is proved for those too, equality with the automaton
for all others. The session protocol states every event's whole effect,
reference counts included, so an invariant proved of its steps holds of the
handlers that refine them.

Where a property turned out to hold only sometimes, the exact condition is
stated: `Ports.NarrowLffs`, `Ports.LocalAddr.PortGet` and `Ports.DueInReached`
(the search for the lowest set bit without the branch that `SIZEOF_LONG`
guards, which the build never defines; `Ports.HandOut` is a run on which it
fails), `RequestWriter.ResentWhole` (a call that failed in mid-write, with
`RequestWriter.ResentCut`), `Getopt.FoundInFull` (a long option in full behind
two that begin with its name, with `Getopt.FullNameAmbiguous`),
`ReplyFraming.ChunkedReadIfHeeded` (a chunked reply with a Content-Length of 0,
or with white space behind "chunked"), `QuotedContents.DoubleQuoted` and
`QuotedContents.SingleQuoted` (NUL bytes, and line feeds in single quotes),
`AddressTable.HashCodeSign` (an empty name with a negative port),
`WorkingSet.MissesAreExact` (a rate outside 0 to 1), `WorkingSet.WalkIsModular`
and `WorkingSet.LoopEnds` (working sets so large that an unsigned int wraps
around), `Lifetimes.Histogram.Median` (fewer than half of the lifetimes below
the limit) and `ReplyParser.LinesThatSurvive` (a header line longer than the
buffer). `ReplyFraming.FinalBehindContinue` says what becomes of a reply behind
a 100 (Continue).

## Model

| member | source | states |
|---|---|---|
| `CString.StrtoulOfNumeral` | `src/http.c:238` | a numeral in front of a non-digit reads as its value, or as ULONG_MAX with ERANGE if it is too large, and what follows is left |
| `CString.NumeralOf` | `src/http.c:238` | every number is the value of some decimal and of some hexadecimal numeral, so round trips cover all lengths |
| `CString.SameBehindBlanks` | `src/http.c:238` | white space in front does not change the number read |
| `ReplyAutomaton.RunConcat` | `src/http.c:361-412` | reading two pieces one after the other is reading them joined |
| `ReplyAutomaton.RunSettled` | `src/core.c:726-747` | finishing a completed reply may wait until the next byte without changing what the bytes lead to |
| `ReplyAutomaton.GoodPrefix` | `src/http.c:68-84` | a stream that stays clear of the segmentation-dependent cases does so from the start |
| `ReplyAutomaton.RunStuck` | `src/http.c:405-408` | a closed or aborted connection stays as it is |
| `ReplyAutomaton.RunLineSegment` | `src/http.c:75-104` | a segment with at most one line feed, taken byte by byte, appends to the line and ends it at its line feed |
| `ReplyAutomaton.RunBodySegment` | `src/http.c:305-319` | body bytes up to what is still expected, taken one at a time, are delivered in order and counted |
| `ReplyAutomaton.StepSound` | `src/http.c:305-358` | one byte of a good stream keeps the invariant: the line stays below 1023 bytes, content_bytes <= content_length once the headers are over |
| `ReplyAutomaton.RunSound` | `src/http.c:305-358` | any good stream keeps that invariant |
| `ReplyParser.LinesThatSurvive` | `src/http.c:77-84` | a header line is read alike however reads cut it if and only if it has at most 1023 bytes |
| `ReplyParser.LongLineDoesNot` | `src/http.c:77-84` | a read that ends after the first 1023 bytes of a longer line makes a second line of what is left |
| `ReplyParser.NulDependsOnCut` | `src/http.c:68-73` | a line with a NUL swallows the line behind it in the same read, and does not if a read ends with it |
| `ReplyParser.Conn.HeaderSegment` | `src/http.c:208-263` | what one round of the header loop does with a segment of any stream, good or bad: the step the three results above are about |
| `ReplyParser.Conn.FindEol` | `src/http.c:69-73` | strchr for a line feed in the NUL-terminated buffer: the segment found has a line feed only at its end, and otherwise reaches to the end of the buffer |
| `ReplyParser.Conn.AppendToLine` | `src/http.c:85-86` | the bytes go behind the line and nothing else in the buffer counts |
| `ReplyParser.Conn.FinishLine` | `src/http.c:88-106` | a line is complete at its line feed or when the buffer is full; LF and CRLF are chopped |
| `ReplyParser.Conn.GetLine` | `src/http.c:56-107` | the block-wise line reader takes exactly one segment and leaves the line the byte automaton has, cut at 1023 bytes |
| `ReplyParser.Conn.ParseStatusLine` | `src/http.c:109-198` | follows the byte automaton over the bytes it uses |
| `ReplyParser.Conn.ParseHeaders` | `src/http.c:200-265` | follows the byte automaton over any number of header lines, complete or not |
| `ReplyParser.Conn.ParseFooters` | `src/http.c:267-294` | follows the byte automaton over any number of footer lines |
| `ReplyParser.Conn.ParseData` | `src/http.c:296-320` | delivers as many bytes as are wanted and there, and says whether the body is complete |
| `ReplyParser.Conn.XferChunked` | `src/http.c:322-359` | follows the byte automaton over chunk lines and chunk data, bad and empty chunk lines included; on any stream content_bytes <= content_length until the chunk sizes overflow |
| `ReplyParser.Conn.TakeChunkSize` | `src/http.c:339-355` | the size of the next chunk is added, and only a sum past the largest size can break content_bytes <= content_length |
| `ReplyParser.Conn.HttpProcessReplyBytes` | `src/http.c:361-412` | every round uses bytes; it stops at the end of the buffer or of the reply, where the byte automaton is |
| `ReplyParser.Conn.RecvDone` | `src/core.c:631-649` | RECV_STOP for the head of the queue, the queue advances; the failure status closes the connection |
| `ReplyParser.Conn.ReadEof` | `src/core.c:687-693` | a read of 0 bytes completes a body read until close and fails any other state |
| `ReplyParser.Conn.DoRecv` | `src/core.c:720-747` | one read of any bytes: it ends where the byte automaton ends, all bytes used unless the connection closed or no call was waiting |
| `ReplyParser.Conn.ReceiveReads` | `src/core.c:651-751` | segmentation independence: however a stream is cut into non-empty reads, the connection ends in the state, and has given the signals, of the byte automaton on the whole stream |
| `ReplyFraming.StatusTextScans` | `src/http.c:126` | the sscanf reads version and status of every status line of any version |
| `ReplyFraming.RunStatusLine` | `src/http.c:109-198` | a status line of any version is read as its version and status, and decides whether a body follows |
| `ReplyFraming.StatusDecidesBody` | `src/http.c:145-197` | a body is to follow if and only if the request was no HEAD and the status is none of 100 to 199, 204, 205 and 304; another reply to the same request is to come only behind a 100 |
| `ReplyEdges.VersionRead` | `src/http.c:126-129` | the version is the major number times 65536 plus the minor one, as an unsigned int |
| `ReplyFraming.SizeFieldSays` | `src/http.c:234-241` | a Content-Length field in any case, with any white space around its value, sets the length |
| `ReplyFraming.ChunkedFieldSays` | `src/http.c:244-256` | a Transfer-Encoding field in any case, with any white space in front of its value, says chunked if and only if there is no white space behind the value; otherwise it is as if it were not there |
| `ReplyFraming.FieldsFrame` | `src/http.c:213-263` | header lines are signalled in order and the empty line ends them |
| `ReplyFraming.FramingFieldDecides` | `src/http.c:231-257` | one framing field among others that do not frame decides alone |
| `ReplyFraming.ChunkedHeeded` | `src/http.c:244-256` | a field that says chunked is heeded wherever it stands |
| `ReplyFraming.ZeroTakesBody` | `src/http.c:234-241` | of a reply that may have a body there is one after its fields if and only if no Content-Length reads as 0 |
| `ReplyFraming.RunChunks` | `src/http.c:329-358` | any split of a body into chunks is read back as the concatenated data |
| `ReplyFraming.RunTrailer` | `src/http.c:349-354` | the last chunk, with any number of zeros, and any footers complete the reply |
| `ReplyFraming.RunReply` | `src/http.c:361-412` | one reply of any version, with no framing field and no body where the request is a HEAD or the status one of 1xx, 204, 205 and 304, and else one Content-Length, or chunked and seen to be so (Heeded), is read back: status, fields, body and footers in order |
| `ReplyFraming.ChunkedReadIfHeeded` | `src/http.c:213-258` | a chunked reply with any other framing fields (section 3.3.3 of RFC 7230: chunked overrides) is read right if and only if some field says chunked with no white space behind it and no Content-Length reads as 0 |
| `ReplyFraming.ChunkedReadUnlessPadded` | `src/http.c:244-256` | without other framing fields, if and only if there is no white space behind the value, which section 3.2.4 of RFC 7230 allows |
| `ReplyFraming.PaddedFieldIgnored` | `src/http.c:251` | the field "Transfer-Encoding: chunked " with a blank at its end is not seen |
| `ReplyFraming.ZeroFieldHeeded` | `src/http.c:238-240` | the field "Content-Length: 0" takes the body away |
| `ReplyFraming.StreamRoundTrip` | `src/core.c:726-747` | a stream of such replies for that many calls is read back to exactly those replies, leaving S_REPLY_STATUS and an empty line (sections 3.3.3 and 4.1 of RFC 7230) |
| `ReplyFraming.CloseDelimitedRoundTrip` | `src/core.c:687-693` | a reply without framing field is read until the server closes |
| `ReplyEdges.FailureStatusCloses` | `src/core.c:631-649` | a reply with the failure status is signalled to its end and is the last: the calls behind it are dropped and no further byte is looked at |
| `ReplyEdges.FailureStatusAtClose` | `src/core.c:687-693` | so is one whose body the close of the server ends |
| `ReplyEdges.CloseDropsCalls` | `src/core.c:687-693` | a close anywhere but in a body drops the calls that wait and signals nothing |
| `ReplyEdges.NobodyWaiting` | `src/core.c:726-731` | bytes that come without a waiting call end in the failed assertion |
| `ReplyEdges.BareLineFeed` | `src/http.c:93-104` | a line feed without a carriage return ends a line as one with it does |
| `ReplyEdges.BadSizeSkipped` | `src/http.c:333-347` | a chunk line without a size, or with one that no unsigned long holds, is skipped |
| `ReplyFraming.RunInterim` | `src/http.c:224-225` | a 100 reply leads back to the header state |
| `ReplyFraming.FinalBehindContinue` | `src/http.c:208-226` | the status line of the reply behind it is then signalled as a header line, the status stays 100, and the reply is over at its empty line |
| `ReplyFraming.BodyBehindContinue` | `src/http.c:208-226` | and its body is taken for the next reply |
| `ReplyFraming.ReceiveStream` | `src/core.c:651-751` | the two main results together: whatever the reads, the signals are those of the replies written |
| `Orbits.ComputeGcd` | `src/lib/getopt.c:98-111` | Euclid's loop computes the gcd |
| `Orbits.GcdDivides` | `src/lib/getopt.c:98-111` | the gcd divides both numbers |
| `Orbits.GcdIsGreatest` | `src/lib/getopt.c:98-111` | every common divisor divides it |
| `Orbits.Bezout` | `src/lib/getopt.c:130` | it is an integer combination of the two |
| `Orbits.CircleOf` | `src/lib/getopt.c:130-131` | n places walked in steps of b split into gcd lanes of n / gcd places |
| `Orbits.StepAges` | `src/lib/getopt.c:136-140` | a step stays in its lane and visits the next place of it |
| `Orbits.SamePlace` | `src/lib/getopt.c:133-147` | the lanes together visit every place once |
| `ArgumentRotation.RunCycle` | `src/lib/getopt.c:134-146` | one cycle of swaps through the slot it started from puts every word of its lane where it belongs and touches no other |
| `ArgumentRotation.PermuteArgs` | `src/lib/getopt.c:118-148` | argv[start..end) becomes old[mid..end) ++ old[start..mid), in place, and nothing else changes |
| `Getopt.OutcomeAdvances` | `src/lib/getopt.c:387-466` | every option takes at least a letter, and never reaches past the vector |
| `Getopt.OutcomeLooksAhead` | `src/lib/getopt.c:387-466` | an option depends only on the words from optind on, so earlier permutation does not matter |
| `Getopt.PartitionKeepsWords` | `src/lib/getopt.c:311-385` | options, non-options and the rest are together a permutation of the words |
| `Getopt.FoundInFull` | `src/lib/getopt.c:175-204` | a name in full finds its option if and only if there are no two longer names in front of that one that begin with it; otherwise it is ambiguous |
| `Getopt.FoundAbbreviated` | `src/lib/getopt.c:175-204` | a name that no option has in full finds an option if and only if that is the only one whose name begins with it, nothing if and only if none does, and is ambiguous if and only if two do |
| `Getopt.FullNameAmbiguous` | `src/lib/getopt.c:175-204` | with foobar and foobaz in front of foo, foo in full is ambiguous; between them it is found |
| `Getopt.FindLongIs` | `src/lib/getopt.c:175-204` | for every name and table: which entry the name stands for, and that it stands for none, in terms of the names in the table alone |
| `Getopt.Scanner.FindLongOption` | `src/lib/getopt.c:175-204` | the loop finds what the name stands for: ambiguity if it abbreviates two options in front of the first it names in full, else that one, else the only one it abbreviates |
| `Getopt.Scanner.ParseLongOptions` | `src/lib/getopt.c:155-271` | the result, argument and new optind of a long option, error cases included |
| `Getopt.Scanner.TakeLongAfterW` | `src/lib/getopt.c:426-443` | the result of a long option given behind -W, in the same word or the next |
| `Getopt.Scanner.TakeLetter` | `src/lib/getopt.c:444-466` | the result, argument and new position of an option letter with no, a required or an optional argument, a missing one included |
| `Getopt.Scanner.TakeOption` | `src/lib/getopt.c:387-466` | the outcome of the option at the scanning pointer, long, short, behind -W or unknown |
| `Getopt.Scanner.SkipNonOption` | `src/lib/getopt.c:350-362` | a non-option is skipped, and the skipped block brought up to it, without disturbing the order of either block |
| `Getopt.Scanner.AtEnd` | `src/lib/getopt.c:314-331` | at the end of the vector the words are sorted out and optind is at the first non-option |
| `Getopt.Scanner.EndOfOptions` | `src/lib/getopt.c:370-384` | at the word -- the words are sorted out, with everything behind it after the non-options |
| `Getopt.Scanner.UpdatePlace` | `src/lib/getopt.c:312-385` | brings the scanning pointer to the next option, or ends the scan |
| `Getopt.Scanner.GetoptLong` | `src/lib/getopt.c:278-467` | one call gives the next result of the scan and keeps the books on which words are where |
| `Getopt.ScanArguments` | `src/lib/getopt.c:278-467` | a whole scan: the results, and argv sorted into options with their arguments, non-options and the words behind --, each in original order, optind at the first non-option |
| `ArgumentSpelling.LongRead` | `src/lib/getopt.c:155-271` | a long option, by its name or a part that stands for it, its argument behind = or in the next word, is reported with that argument and takes up just its words; a name that stands for none, or a value that is not wanted, is reported as a mistake and takes up one word |
| `ArgumentSpelling.FlagsInFront` | `src/lib/getopt.c:397-466` | letters without argument, unknown ones among them, in front of the rest of a word are reported one by one |
| `ArgumentSpelling.FlagWordRead` | `src/lib/getopt.c:355-466` | a word of letters is read as just those, the unknown ones as ? |
| `ArgumentSpelling.ArgumentWordRead` | `src/lib/getopt.c:355-466` | the last of them with its argument, from the word or the next |
| `ArgumentSpelling.JoinedWordRead` | `src/lib/getopt.c:426-443` | or a W with a long option behind it in the same word |
| `ArgumentSpelling.SeparateWordRead` | `src/lib/getopt.c:426-443` | or in the next |
| `ArgumentSpelling.DashRead` | `src/lib/getopt.c:405-466` | - as an option letter, a word to itself |
| `ArgumentSpelling.LackRead` | `src/lib/getopt.c:234-253` | an option that lacks its argument at the end of the line, long, a letter, behind a W, a W without a name, or -, is reported as : or ? |
| `ArgumentSpelling.UnknownLong` | `src/lib/getopt.c:175-262` | over any scan: a long option, with a value or not, whose name begins that of no entry, or those of two, is reported as ?, and the scan goes on behind its word |
| `ArgumentSpelling.ValueRefused` | `src/lib/getopt.c:206-221` | over any scan: a value for an option that takes none is reported as ?, or as : if the option string begins with one |
| `ArgumentSpelling.ArgumentMissing` | `src/lib/getopt.c:234-253` | over any scan: so is a last word that is a long option without the argument it requires |
| `ArgumentSpelling.UnknownLetters` | `src/lib/getopt.c:409-425` | over any scan: a letter that is not in the option string is reported as ? |
| `ArgumentSpelling.LineDealt` | `src/lib/getopt.c:278-467` | a reader that takes each kind of item by itself takes whole lines apart |
| `ArgumentSpelling.LineRead` | `src/lib/getopt.c:278-467` | round trip: options in any legal spelling, -W and the letter - included, mistakes, operands in any place among them, and behind them "--" with words, or an option that lacks its argument, are taken apart into just those |
| `ArgumentSpelling.ScanLine` | `src/lib/getopt.c:278-467` | a whole scan of such a line reports every option with its argument and every mistake in order and leaves the operands in theirs, with optind at the first |
| `SessionProtocol.DoneHeadsRing` | `src/gen/session.c:308` | the call a reply completes is the first of its ring, and was sent: the assertion of call_done cannot fail |
| `SessionProtocol.NewConnSound` | `src/gen/session.c:130-164` | a new connection starts the ring over and keeps the invariant |
| `SessionProtocol.SendAllSound` | `src/gen/session.c:166-190` | sending the unsent calls keeps queues and ring in step |
| `SessionProtocol.IssueSound` | `src/gen/session.c:406-436` | issuing a call keeps the invariant, queue limits included |
| `SessionProtocol.SentSound` | `src/core.c:587-619` | a fully sent request moves from sendq to recvq with its reference |
| `SessionProtocol.DoneSound` | `src/gen/session.c:289-334` | a completed reply keeps the invariant, reissue on the failure status included |
| `SessionProtocol.FailedSound` | `src/gen/session.c:250-272` | a failed connection keeps the invariant, whether it is replaced or the session ends |
| `SessionProtocol.SessGoneSound` | `src/gen/session.c:192-218` | the end of a session gives up every reference it held |
| `SessionProtocol.NextSound` | `src/gen/session.c:129-430` | every event keeps the invariant: the first num_sent calls of a ring are recvq ++ sendq, counts are exact, nothing pending is destroyed |
| `SessionProtocol.NextKeeps` | `src/gen/session.c:129-430` | issued and completed calls are only ever appended to |
| `SessionProtocol.RunSound` | `src/gen/session.c:129-430` | the invariant holds after every run, and neither the assertion of call_done nor that of object_dec_ref fails |
| `SessionProtocol.RunIsFifo` | `src/gen/session.c:166-190` | over every run issued = completed ++ pending on each slot, and recvq ++ sendq are exactly the pending calls of a connected slot |
| `SessionHistory.NextAdds` | `src/gen/session.c:289-436` | the record of a slot grows by exactly the calls that an event issues, tries again or completes there |
| `SessionHistory.RunAdds` | `src/gen/session.c:289-436` | over any run it grows by the calls its events issued and completed, in order |
| `SessionHistory.CallsAreFifo` | `src/gen/session.c:289-436` | told from the events alone: the calls issued on a slot are those completed on it, in order, and then those pending, whatever connections failed |
| `SessionFates.SlotToldByEvents` | `src/gen/session.c:130-334` | told from the events alone, over any run that leaves the session alive: a slot is connected if it has been since its connection was last replaced, waits for as many replies as requests went out since, and counts as successful if and only if one has come since |
| `SessionFates.EndsExactly` | `src/gen/session.c:129-430` | told from the events: a session ends exactly with a call that needs a connection that is not to be had, a reply with the failure status where there is no retry, a connection that cannot be replaced or has had no reply and is not retried, a timeout, or the end |
| `SessionFates.SurvivesFailure` | `src/gen/session.c:250-272` | told from the events: a session that is alive survives a failed connection that can be replaced if and only if it retries or a reply has come since that connection was made |
| `SessionFates.ExitsExactly` | `src/gen/session.c:419-435` | the program ends exactly with a call issued when every connection has as many calls pending as it may have |
| `SessionFates.IssuedPends` | `src/gen/session.c:406-436` | any other issued call pends, behind the others, on the first slot with room, and no other slot changes |
| `SessionFates.RetriedPends` | `src/gen/session.c:307-324` | an answer with the failure status, where there is a retry: its call leaves the head of its ring and is the last of the first one with room, its own at the latest, and no session ends for it |
| `SessionProtocol.PendingAreAlive` | `src/object.c:171-178` | a call that is pending or queued has references and has not been destroyed |
| `SessionProtocol.NothingLeaks` | `src/object.c:68-106` | once the session and the creators have let go every call has been destroyed exactly once |
| `SessionProtocol.DecSound` | `src/object.c:171-178` | dropping a reference keeps counts exact and destroys a call only at zero |
| `SessionProtocol.ReconnectResendsAll` | `src/gen/session.c:148-150` | after a failure and a reconnect all pending calls, and only they, are queued again in order |
| `SessionProtocol.DoneIsFree` | `src/gen/session.c:307-324` | an answered call pends nowhere and may be issued again |
| `SessionRings.RingAt` | `src/gen/session.c:182-189` | walking the ring array from rd modulo its size meets the pending calls in order |
| `SessionRings.RingAppend` | `src/gen/session.c:424-427` | storing at wr appends to the pending calls |
| `SessionRings.ConnInfo.Insert` | `src/gen/session.c:424-427` | the ring of 32 gets the call as its last pending one |
| `SessionRings.ConnInfo.RemoveFirst` | `src/gen/session.c:309-312` | the ring loses its first pending call |
| `SessionRings.Session.CountDown` | `src/object.c:171-178` | the counter of the call goes down by one, the call is destroyed when it reaches zero, and a counter that is zero already is the failed assertion |
| `SessionRings.Session.CountUp` | `src/object.h:72` | the counter of the call goes up by one |
| `SessionRings.BagCounts` | `src/object.c:171-178` | the counters of all calls as one multiset |
| `SessionRings.Session.CoreSendNext` | `src/core.c:1378-1392` | the next unsent call of the ring goes to the end of sendq, with a new reference |
| `SessionRings.Session.SendPending` | `src/gen/session.c:182-189` | the loop of send_calls over the ring array queues exactly the pending calls not yet sent, in order |
| `SessionRings.Session.CreateConnFor` | `src/gen/session.c:130-164` | a new connection, not connected, not successful, nothing sent; without one the session ends |
| `SessionRings.Session.SessionIssueCall` | `src/gen/session.c:406-436` | the call goes to the first slot with room, with a reference, and is sent if that slot is connected; too many calls end the program |
| `SessionRings.Session.SessDestroyed` | `src/gen/session.c:192-218` | all slots are emptied and every reference their queues and rings held is dropped |
| `SessionRings.Session.DoSend` | `src/core.c:587-619` | the head of sendq goes to the end of recvq, its reference with it |
| `SessionRings.Session.RecvDone` | `src/core.c:631-649` | the head of recvq leaves queue and ring, both references are dropped, and its status decides about reissue or failure; the assertion is checked |
| `SessionRings.Session.ConnFailure` | `src/core.c:327-336` | a new connection for a successful slot, and the old queues given up; the end of the session for any other |
| `SessionRings.Session.ConnConnected` | `src/gen/session.c:220-248` | the slot becomes connected and all its unsent calls are queued |
| `SessionRings.Session.Handle` | `src/gen/session.c:129-430` | every event handler on arrays and queues makes exactly the protocol's step |
| `SessionRings.HandleAll` | `src/gen/session.c:129-430` | over any run the code is where the protocol is, sound, and neither assertion has failed |
| `Objects.DestroyedOnce` | `src/object.c:68-106` | between two destructions of an object it was made anew: every object made is destroyed at most once |
| `Objects.LastDrop` | `src/object.c:171-178` | an object is destroyed when, and only when, its last reference is dropped |
| `Objects.ChainPopped` | `src/object.c:127-132` | the list without its head is linked from where the head points |
| `Objects.ChainPushed` | `src/object.c:103-105` | an object linked in front heads the list |
| `Objects.Store.New` | `src/object.c:116-169` | object_new hands out an object nobody holds, from the free list if that is not empty, with one reference |
| `Objects.Store.IncRef` | `src/object.h:72` | one more reference, as the log says |
| `Objects.Store.DecRef` | `src/object.c:68-178` | object_dec_ref with object_destroy: its assertion holds, and every object is on the free list, once, or has exactly its references |
| `Objects.AliveMore` | `src/object.c:68-178` | making a call, or dropping its last reference, changes the number of calls that are referenced by one; nothing else does |
| `Objects.PlacedMade` | `src/object.c:116-169` | an object from the free list, or a new one, is nobody else's |
| `Objects.PlacedDropped` | `src/object.c:171-178` | the last drop frees the object of this call and no other |
| `Objects.Perform` | `src/object.c:68-178` | one operation keeps every referenced call in an object of its own with the right count |
| `Objects.Keep` | `src/object.c:68-178` | any legal run: calls that are referenced have objects of their own with the counts of the session protocol, they are destroyed in its order, and there are just as many objects as there have been calls at a time |
| `SessionObjects.ToldNext` | `src/gen/session.c:167-435` | behind legal operations those of one event (OpsOf: the references it takes and drops, in order) are legal, and leave the counts the event leaves |
| `SessionObjects.RunIsLegal` | `src/object.c:171-178` | the operations of a whole run are legal, no call being shared or dropped once it is destroyed, and at every event those so far give the counts of the session there |
| `SessionObjects.PendingHoused` | `src/object.c:68-178` | every pending call has an object to itself, with its count |
| `SessionObjects.KeepCalls` | `src/object.c:68-178` | after any run pending calls have objects of their own, there are as many objects as the run ever has referenced at a time, and when the session is gone and its creators have let go every object is free |
| `RequestWriter.WrittenAndRest` | `src/core.c:557-575` | what has been written and what is left in the iovec array make up the request |
| `RequestWriter.AfterWriteRests` | `src/core.c:557-575` | a write of n bytes leaves the rest but for those n, with finished elements restored |
| `RequestWriter.OfferedTwice` | `src/core.c:1323-1373` | a request that core_send has made once it makes again |
| `RequestWriter.WireText` | `src/core.c:130-140` | the bytes of every request of either version, with a host or without: the given elements, the version, the agent, the wish to keep a 1.0 connection, and the host, the connection's own if none was given |
| `RequestWriter.ProtocolSays` | `src/core.c:1323-1373` | the protocol element begins with the line of 1.1 or 1.0 just as the version says, asks to keep the connection if and only if that is 1.0, ends in front of a host if and only if there is to be one, and no element but it and the host is touched |
| `RequestWriter.ResentWhole` | `src/core.c:1323-1373` | a call that stopped in mid-write is offered whole again if and only if it stopped in the protocol element, which core_send sets afresh, or in one that is still untouched |
| `RequestWriter.ResentCut` | `src/core.c:1323-1373` | a request that lost the first byte of its URI |
| `RequestWriter.NeverEmpty` | `src/core.c:1341-1371` | a request that core_send offers is never empty |
| `RequestWriter.CallRequest.Start` | `src/core.c:1323-1373` | the request core_send makes of the array: protocol element set afresh, host element if it is to be empty or was never set; an unknown version ends the program |
| `RequestWriter.CallRequest.Advance` | `src/core.c:557-575` | the loop over the iovec array restores finished elements, moves on in the first unfinished one, and counts the bytes |
| `RequestWriter.CallRequest.Wrote` | `src/core.c:555-585` | one writev: the rest shrinks by what it took, and the request is done when nothing is left |
| `RequestWriter.CallRequest.WriteOnce` | `src/core.c:506-585` | one writev takes the lesser of the room and what is left |
| `RequestWriter.CallRequest.Send` | `src/core.c:506-585` | however much room the socket has each time: it gets the request from its first byte, as much as there has been room for, req.size counts that, and the request is done if and only if that is all, and is then the one core_send would offer again |
| `RequestWriter.CallRequest.WriteAll` | `src/core.c:506-585` | the writev calls alone: how much they take together, and when they are done |
| `Bits.MaskAbove` | `src/core.c:321` | the mask ~((1 << (bit + 1)) - 1) leaves exactly the bits above |
| `Bits.ZeroWord` | `src/core.c:299` | a word is zero if and only if no bit is set |
| `Ports.LffsIsLowest` | `src/core.c:258-280` | with both halves searched, the number of the lowest set bit of the whole word, 0 for none |
| `Ports.NarrowLffs` | `src/core.c:266-277` | with only the low half searched the result is right if and only if the word is zero or its low half is not |
| `Ports.MaskedLowest` | `src/core.c:317` | lffs of a word under the mask is its lowest set bit from the mask on, and 0 if and only if there is none |
| `Ports.FoundHere` | `src/core.c:298-323` | a bit found in the current word is the least free port from the cursor on |
| `Ports.FoundLater` | `src/core.c:300-313` | a bit found in a later word is the least free port from the cursor on, or after wrap-around the least of all |
| `Ports.NoneLeft` | `src/core.c:304-310` | running out means that no port is free outside the searched part of the current word |
| `Ports.LocalAddr.constructor` | `src/core.c:808-810` | every port from 1024 to 65535 is free at first |
| `Ports.LocalAddr.PortPut` | `src/core.c:282-291` | the free ports gain exactly this one |
| `Ports.MaskedLow` | `src/core.c:317` | the narrow lffs reads a word under the mask right if and only if a bit of its low half is set there |
| `Ports.DueInReached` | `src/core.c:293-325` | the port that is due is in the word port_get comes to, and the narrow lffs can read that word if and only if the port is in its low half |
| `Ports.MissedIsNotHanded` | `src/core.c:317-324` | what comes of a word it cannot read is never the port that should be handed out |
| `Ports.LocalAddr.PortGet` | `src/core.c:293-325` | with the wide lffs hands out the least free port from the cursor on, else the least below the current word, else -1 if and only if there is neither, and exactly that port stops being free; with the narrow one so if and only if the low half of the word it comes to has a bit under the mask, or it comes to none |
| `Ports.DueIsProper` | `src/core.c:293-325` | the port that is due is not out, higher than the last one unless all higher ones are out, and none only if all are out but some of one word |
| `Ports.MissedIsImproper` | `src/core.c:317-324` | the port in front of the word of a due port is not a proper answer |
| `Ports.Serve` | `src/core.c:282-325` | over any run: with the wide lffs every answer is the port that is due; with the narrow one all are, in low halves, up to the first request whose due port is in a high half, and that is answered with the port in front of its word |
| `Ports.ServedProperly` | `src/core.c:282-325` | so no port is handed out that is still out, ports ascend until all higher ones are out, and the first answer of the narrow form that is not the due port is not a proper one |
| `Ports.HandOut` | `src/core.c:258-325` | a fresh address gives out 1024 to 1055, and then 1056 with the wide lffs and 1023, which is no free port, with the narrow one |
| `AddressTable.HashCodeSign` | `src/core.c:194-214` | the hash is negative if and only if the name is empty and the port negative; otherwise it is below 2^28 |
| `AddressTable.ComputeHashCode` | `src/core.c:194-214` | the loop of hash_code, in 64-bit words narrowed to an int |
| `AddressTable.FreeSlot` | `src/core.c:225-229` | fewer entries than slots leave a free slot, so hash_enter ends |
| `AddressTable.EntryLaid` | `src/core.c:225-233` | an entry put in the first free slot behind its home keeps every entry reachable over earlier ones |
| `AddressTable.FoundFirst` | `src/core.c:244-247` | a search meets the first entry of a name before any other of it |
| `AddressTable.FoundNone` | `src/core.c:244-255` | a search that meets an empty slot proves the name absent |
| `AddressTable.FoundNowhere` | `src/core.c:252-253` | a search that has been all round a full table proves the name absent |
| `AddressTable.HashTable.HashEnter` | `src/core.c:216-235` | the entry is added and nothing is lost |
| `AddressTable.HashTable.Search` | `src/core.c:242-254` | the probe loop ends even on a full table |
| `AddressTable.HashTable.HashLookup` | `src/core.c:237-256` | the address first entered for this name and port, none if there is none |
| `LinkedList.List.Push` | `src/lib/list.c:83-101` | the list gets a new first element |
| `LinkedList.List.Top` | `src/lib/list.c:103-107` | the first element, left in place |
| `LinkedList.List.Pop` | `src/lib/list.c:109-126` | the list loses its first element and gives it back |
| `LinkedList.List.RemoveAfter` | `src/lib/list.c:134-137` | one node is taken out of the chain, the others keep their order |
| `TimerProtocol.SchedulingPlaced` | `src/timer.c:231-248` | scheduling keeps every record in exactly one list, once |
| `TimerProtocol.SweepCounts` | `src/timer.c:194-204` | the sweep moves records and neither loses nor doubles one |
| `TimerProtocol.SchedulingSound` | `src/timer.c:225-263` | scheduling puts a waiting timer in front, changes no active record, and keeps the books |
| `TimerProtocol.CancellingSound` | `src/timer.c:265-277` | cancelling marks that record, changes no other and no list, and keeps the books |
| `TimerProtocol.ActsSince` | `src/timer.c:186` | whatever a callback schedules and cancels, active timers stay themselves and nothing fires |
| `TimerProtocol.VisitSince` | `src/timer.c:175-192` | a visited timer fires if and only if it is waiting and past its time |
| `TimerProtocol.VisitFromSwept` | `src/lib/list.c:145-153` | the traversal handles every record that was active when it began |
| `TimerProtocol.TickSound` | `src/timer.c:211-217` | a due timer fires in the tick or was cancelled in it; timers scheduled in its course do not; what stays active is waiting |
| `TimerProtocol.RunSound` | `src/timer.c:175-277` | the books are right after every run |
| `TimerProtocol.TimerDiscipline` | `src/timer.c:175-277` | over any run a timer fires at most once, never after its cancellation, never before the start and delay it was logged with have passed |
| `TimerHistory.ActSays` | `src/timer.c:225-277` | timer_schedule arms a passive record, or a new one, with the time and delay of the call; timer_cancel marks its record |
| `TimerHistory.RunTold` | `src/timer.c:175-277` | over any run the tickets are numbered in the order of the calls to timer_schedule, those made by callbacks that ran included, and carry their times and delays |
| `TimerHistory.RunKept` | `src/timer.c:175-277` | over any run a timer that has neither fired nor been cancelled is in the active list and waiting |
| `TimerHistory.FiresPastDelay` | `src/timer.c:182-184` | over any run: a timer fires only when the clock is past the time of its timer_schedule call plus the delay asked for in that call |
| `TimerHistory.FiresInTick` | `src/timer.c:211-217` | over any run: a timer not yet fired or cancelled has a place in the active list when a tick begins, and if the clock is past its time plus delay when that place is visited it has fired or been cancelled when the tick ends |
| `TimerHistory.FiresNewestFirst` | `src/timer.c:175-217` | in one tick timers fire in the reverse order of the calls that scheduled them |
| `TimerQueue.Queue.constructor` | `src/timer.c:110-142` | 25 passive records, none used |
| `TimerQueue.Queue.Schedule` | `src/timer.c:225-263` | the first passive record, or a new one, is armed and pushed in front of the active list |
| `TimerQueue.Queue.Cancel` | `src/timer.c:265-277` | the record is marked and nothing moves, even in the middle of a traversal |
| `TimerQueue.Queue.HasExpired` | `src/timer.c:175-192` | a waiting timer past its deadline is marked and its callback run, any other left alone |
| `TimerQueue.Queue.ForEachActive` | `src/lib/list.c:144-153` | list_for_each visits every node that was there, in order, though callbacks push in front of it |
| `TimerQueue.Queue.RemoveExpired` | `src/lib/list.c:128-142` | expired records go over to the passive list, the others stay in order |
| `TimerQueue.Queue.TimerTick` | `src/timer.c:211-217` | timer_tick makes the protocol's tick |
| `TimerQueue.RunTimers` | `src/timer.c:110-277` | from timer_init on, the linked lists go through the states of the protocol, soundly |
| `Bursts.RequestsInOrder` | `src/gen/wsesslog.c:193-250` | what has been issued is the beginning of the script, every request once and in order |
| `Bursts.AllIssued` | `src/gen/wsesslog.c:322-346` | a session that has been released has issued its whole script |
| `Bursts.CallsSound` | `src/gen/wsesslog.c:213-249` | calls issued one after the other keep every event in its place and stay within the burst |
| `Bursts.DestroyedSound` | `src/gen/wsesslog.c:322-346` | when a call is destroyed either the session is over, or there is room for more of its burst, or it waits |
| `Bursts.CourseOutcome` | `src/gen/wsesslog.c:193-346` | over any run: the session fails if and only if an answer that was asked for fails it, it destroys as many calls as were pending when they went, and it is released if and only if that is the whole script |
| `Bursts.RunsToItsEnd` | `src/gen/wsesslog.c:252-346` | with every call taken, the session always waits for a call or for a pause and not both, and it is released with the input that makes one for every request and one for every pause between bursts |
| `Bursts.Session.constructor` | `src/gen/wsesslog.c:265-293` | a session begins with the first call of the first burst |
| `Bursts.Session.IssueMany` | `src/gen/wsesslog.c:213-249` | the loop issues the calls wanted, up to the first for which there is no memory, and the session fails if and only if an answer fails it; it then takes the others all the same |
| `Bursts.Session.IssueCalls` | `src/gen/wsesslog.c:193-250` | one call at the start of a burst, else as many as are left and the queue has room for; the history grows by just these |
| `Bursts.Session.PrepareForNextBurst` | `src/gen/wsesslog.c:295-320` | the timer, of which there is none pending, is set for the think time of the burst that is over |
| `Bursts.Session.UserThinkTimeExpired` | `src/gen/wsesslog.c:252-263` | when the pause is over the first call of the next burst is issued |
| `Bursts.Session.CallDestroyed` | `src/gen/wsesslog.c:322-346` | one destruction is counted unless the session has failed; the last one releases the session, any other issues what is left of the burst and fits, or begins the pause when no call is pending |
| `Bursts.Play` | `src/gen/wsesslog.c:193-346` | any session, any queue limit, any order of inputs: fails if and only if an answer fails it, one destruction for every pending call that goes, released if and only if all are destroyed, and a prefix of the script issued, all of it then |
| `QuotedContents.ScanEscaped` | `src/gen/wsesslog.c:480-554` | escaped text inside double quotes is read back character by character |
| `QuotedContents.LineGoesOn` | `src/gen/wsesslog.c:411` | text without a line feed in front of a file lengthens its first line only |
| `QuotedContents.DoubleQuoted` | `src/gen/wsesslog.c:411-557` | contents written in double quotes with escapes are read back from the file, with the next argument behind the blank, if and only if there is no NUL in them |
| `QuotedContents.SingleQuoted` | `src/gen/wsesslog.c:411-557` | contents without quotes and backslashes are read back from single quotes if and only if they have neither a NUL nor a line feed in them |
| `QuotedSpelling.StretchesReadBack` | `src/gen/wsesslog.c:474-557` | any writing, in stretches without quotes, in single or in double quotes, with escapes in all of them, is read back up to the blank, tab, line feed or end behind it |
| `QuotedSpelling.LineContinued` | `src/gen/wsesslog.c:495-506` | an escaped line end is kept, and the contents go on in the next line within the same quotes |
| `QuotedSpelling.NothingToContinue` | `src/gen/wsesslog.c:499-504` | or end the program if there is none |
| `QuotedContents.ScanContents` | `src/gen/wsesslog.c:474-557` | the loop that writes the contents into a buffer and reads on behind an escaped line end, or finds the file at its end |
| `WorkingSet.MissesAreExact` | `src/gen/uri_wset.c:67-75` | after every number k of calls floor(start + k * rate) misses have occurred, if and only if 0 <= rate <= 1 |
| `WorkingSet.MovedRight` | `src/gen/uri_wset.c:72-74` | one step goes where it should if and only if the sum does not wrap around |
| `WorkingSet.Visited` | `src/gen/uri_wset.c:72-74` | the walk comes to every file that is congruent to id modulo the gcd |
| `WorkingSet.WalkIsModular` | `src/gen/uri_wset.c:72-74` | after every number m of misses the file is (id + m * num_clients) mod num_files, if and only if no file the walk comes to is so far up that the next sum wraps around |
| `WorkingSet.Recurrence` | `src/gen/uri_wset.c:72-74` | two numbers of misses lead to the same file if and only if they differ by a multiple of num_files / gcd |
| `WorkingSet.PathRoundTrip` | `src/gen/uri_wset.c:83-88` | the digits of a path read back as the number |
| `WorkingSet.CounterIs` | `src/gen/uri_wset.c:84` | the loop counter, an unsigned int that is multiplied by 10, after any number of rounds |
| `WorkingSet.LoopEnds` | `src/gen/uri_wset.c:84` | the loop comes to an end if and only if the working set has at most 4135583744 files |
| `WorkingSet.PathNames` | `src/gen/uri_wset.c:83-88` | the path of a file names that file and no other, wrap-around of the counter included |
| `WorkingSet.Generator.PickFile` | `src/gen/uri_wset.c:67-75` | the accumulator grows by the rate; at 1 it gives 1 back and the file moves on by num_clients, as unsigned ints do |
| `WorkingSet.Generator.Spell` | `src/gen/uri_wset.c:83-88` | the loop that fills the buffer backwards writes the path |
| `WorkingSet.Generator.BuildUri` | `src/gen/uri_wset.c:77-99` | prefix, path and .html, or the exit for want of room if and only if they do not fit |
| `WorkingSet.Generate` | `src/gen/uri_wset.c:59-103` | the URIs of any number of calls, and in closed form unless a sum wraps around |
| `Rate.Generator.constructor` | `src/gen/rate.c:165-177` | the first callback comes at once, the first schedule point one delay later |
| `Rate.Generator.Tick` | `src/gen/rate.c:101-122` | a late timer makes up for all schedule points strictly before now; the next one stays where it was |
| `Rate.Drive` | `src/gen/rate.c:101-177` | any late firings: one callback at the start and one for every schedule point that has passed, without drift, until one asks for an end |
| `Rate.PointsRegular` | `src/gen/rate.c:111-117` | at a constant rate the k-th point is k intervals behind the first, which is one interval behind the start |
| `Rate.LastOfPhase` | `src/gen/rate.c:91` | max(1, ceil(duration / iat)) is the first number of arrivals that uses up a phase |
| `Rate.PhaseRuns` | `src/gen/rate.c:83-99` | a phase gives that many arrivals at its own spacing and hands over to the next with nothing spent |
| `Rate.PassRuns` | `src/gen/rate.c:83-99` | a pass gives every phase its arrivals and ends where the next pass begins |
| `Rate.VariableRate.NextArrivalTime` | `src/gen/rate.c:83-99` | the spacing of the current phase, which ends when its duration is used up |
| `Rate.Passes` | `src/gen/rate.c:83-99` | pass after pass the arrivals are those of the phases, with nothing carried over |
| `Lifetimes.LowerMedianExists` | `src/stat/basic.c:411-418` | every non-empty record has a lower median |
| `Lifetimes.LowerMedianUnique` | `src/stat/basic.c:411-418` | a record has no more than one lower median |
| `Lifetimes.MedianBin` | `src/stat/basic.c:412-416` | the bin in which half of the lifetimes is reached holds the lower median |
| `Lifetimes.MiddleIsNear` | `src/stat/basic.c:415` | the middle of a bin is within half a bin width of every lifetime in it |
| `Lifetimes.Histogram.Record` | `src/stat/basic.c:241-244` | the bins count the lifetimes recorded |
| `Lifetimes.Histogram.Median` | `src/stat/basic.c:411-418` | within half a millisecond of the lower median if at least half of the lifetimes are below 100 seconds, and left at 0 otherwise |

## Left out

General:

- Sockets, select, epoll and kevent loops, DNS, SSL, mmap: their results are parameters (bytes read, bytes written, connect results, clock readings).
- Watchdog timers on connections and the time-outs of calls: `do_send` and `do_recv` return on EAGAIN without re-arming, so there is no liveness to claim.
- Time is a real number and integers are unbounded except where a module says otherwise (64-bit sizes in the parser, 64-bit words in the bitmap and the hash); floating-point rounding and the random numbers behind the uniform and exponential rates are inputs.
- `src/lib/heap.c` and `src/lib/queue.c`: nothing uses them, and the heap compares an element with itself (`src/lib/heap.c:123-125`).
- `src/gen/call_seq.c`, `src/gen/wsess.c`, `src/gen/conn_rate.c`: simple counters, of which wsesslog is the stronger version.
- The HTML scanner of wsesspage, cookies, reply printing, command-line tables and usage texts: string handling that would only add easy members.

Replies:

- ReplyParser.Conn.RecvDone: the call behind it is taken to be fresh (`content_bytes` 0); a resent call that was already partly answered keeps its counters in the original.
- ReplyParser.Conn.DoRecv: a byte that comes without a waiting call, where the original stops at an assertion (`src/core.c:728`), leads to the state Aborted.
- `header_bytes` and `footer_bytes`, the counts of header and footer bytes: the first misses a status line split over reads (`src/http.c:122-123`). A bare line feed as a whole line makes the original look one byte in front of its buffer for a carriage return (`src/http.c:100`); the model takes that byte not to be one.
- Handlers that close the connection in the middle of a reply; the only close modelled is that on the failure status.
- ReplyFraming.StreamRoundTrip: does not cover 1xx replies: behind a 100 the reply is misread (`ReplyFraming.FinalBehindContinue`). Status lines have one blank in front of the status, and version numbers fit an unsigned int.

Arguments:

- Getopt.ScanArguments: covers `getopt_long` in its permuting mode with a table of long options, on which httperf relies; POSIXLY_CORRECT, option strings that begin with + or -, `getopt_long_only`, restarting by `optreset` and options whose value is -1 are left out, as are the error messages and `optopt`. Long options with a flag return 0; the store through the flag pointer is not modelled.

Sessions:

- HTTP/1.0 mode, which closes connections pro-actively (`src/gen/session.c:326-333`), synchronous connects and SSL session reuse. A connect that fails at once or a failed allocation is the flag connOk of the event.
- Queues are sequences, not links through the calls, and a call has a number of its own even if its memory was used before: `Objects.dfy` and `SessionObjects.dfy` are about the memory, with one type of object where the original has three.
- Objects.Store.New: memory does not run out.
- Handlers run to their end: a creator that issues a call from inside a handler is an event of its own after it.

Requests, ports, addresses:

- RequestWriter.CallRequest.Send: a writev that fails takes nothing; what becomes of the call then is `RequestWriter.ResentWhole`.
- RequestWriter.CallRequest.Advance: the original copies the element behind the last one into `iov_saved` when the request is done (`src/core.c:572`); the model leaves `iov_saved` alone then. An iovec is the text it points to, and a flag says whether the host element has one.
- Ports.LocalAddr.PortGet: a word that the narrow `lffs` cannot read is shifted by -1 in the original, which C does not define; an arbitrary word stands for the result. `core_connect` can put a port back twice (`src/core.c:1303`, `src/core.c:1466`); the model is the allocator alone.
- AddressTable.HashTable.HashEnter: needs a free slot, without which the original's loop does not end, and a hash that is not negative, without which it indexes in front of the table. Socket addresses are numbers.

Timers:

- TimerProtocol.TickSound: a timer is due if its start plus its delay is before the clock reading taken when it is visited, so with the cached clock, before the start of the tick. `timer_now` without the cache is a reading of its own for every visit and every schedule.
- A Timer pointer is the number of its record, and a callback is what it does to timers. Freeing lists and the never-used list of persistent timers are left out.

Generators and statistics:

- Bursts.Session.CallDestroyed: the session module's queue length is the number of calls issued and not destroyed. Of a session that has failed only its log is kept. Bursts and requests are sequences, a pointer into them an index, and of the parser of the configuration file only the scanner of quoted contents is modelled.
- QuotedContents.ScanContents: the buffer must be large enough for all lines, which the original does not check, and lines are taken to fit the line buffer of 500000 bytes; the end of a line stands for its NUL byte.
- WorkingSet.Generator.BuildUri: for working sets on which the digit loop ends (`WorkingSet.LoopEnds`); beyond them the original writes in front of its buffer. The prefix is copied as a whole.
- Rate.Generator.Tick: the schedule must get past now at some point, without which the original's loop does not end. `rate_generator_stop` and the sequential mode without a rate are left out.
- Lifetimes.Histogram.Record: the overflow bin is an extra slot of the array, which in the original lies behind its end (`src/stat/basic.c:106`, `src/stat/basic.c:242-244`). Sums, averages and the other counters of the module are left out.
