# A verified model of the Vstr example programs

The `examples/` directory of the Vstr repository holds a web server, its event engine and control protocol, a
configuration language, and a few small tools, all written over the Vstr string library. This project models the
parts of them that are easy to get wrong and proves what they promise, for all inputs and all runs.

To verify the project: `dafny verify --resource-limit 2000000 --verification-time-limit 0 dfyconfig.toml`.

| modules | source | what is proved |
|---|---|---|
| `ConfLexer`, `ConfParse`, `ConfStructure`, `ConfQuote`, `ConfPrint` | `conf.c` | the 17-state lexer ends on every text; what it accepts is a forest of lists that mirrors the brackets of the text; it reads every printed forest back, whatever whitespace is in it and whichever way its strings are quoted |
| `ConfWalk`, `ConfUnescape`, `ConfUser`, `ConfRoundTrip` | `conf.h`, `conf.c` | the token walker rebuilds the nesting from the flat array; print, lex, walk and unescape give what the forest says, raw strings byte for byte |
| `EvntList`, `EvntConn`, `EvntEngine`, `EvntTimer` | `evnt.c` | queues, lists, flags and counters of all events agree after every operation; after every run of a connection its queue is known; the scan that requeues calls every event once; a timeout is never early and at most a second late |
| `HttpText`, `MultiHdr`, `HttpRange`, `HttpSects`, `HttpParts`, `HttpSend`, `HttpLanguage`, `HttpLanguageText` | `httpd.c` | repeated headers are joined right; byte ranges mean what RFC 2616 says and stay in the file; every response is delivered whole whatever the kernel does, and a client reads each part back with its place in the file; qualities mean what they say, and one pass finds the best language |
| `CntlModel`, `Cntl` | `cntl.c` | terminators are conserved, commands complete in order, and exactly when a reply reaches the one who asked |
| `UriEq`, `Csv`, `CsvParse`, `Dns`, `Phone` | `httpd_policy.h`, `ex_csv.c`, `dns.c`, `ex_phone_names.c` | comparison without decoding agrees with decoding but for three escapes; rows of RFC 4180 are read whatever the node cuts; DNS questions are read back; every word of a phone number is printed once |

Where the source updates things in place the model does too: a class with the source's fields, an array, or a loop,
each proved equal to a function on values; the properties are lemmas about that function. `Vstr` holds the few
library operations that are used. A Vstr string is a sequence of characters numbered from 1, and a section is a
position and a length. `Number` is the library's number parser, with the flags that the modelled code passes to it.
Results of system calls are parameters: what the kernel takes, how a string is cut into nodes, what a callback answers.

Some properties that one might expect do not hold. For each there is a lemma that says when it does, and one that
names an input on which it does not:

- A printed text that begins with `#!` loses its first line (`ConfPrint.LexPrinted`; `ConfPrint.ScriptLost`).
- After `conf_parse_end_token` the depth reported for the token it stops on leaves out the lists that began since and
  end there too; the token after it always has its true depth (`ConfWalk.EndDepth`, `ConfWalk.EndFollows`;
  `ConfWalk.EndDepthWrong`).
- The depth stack can exceed 64: `conf_parse_end_token` on an empty list enters the list once more without leaving
  it, each time it is called, and on a full stack it writes behind the array. Nothing else makes the stack exceed 64
  (`ConfWalk.EndFitsIff`, `ConfWalk.EndGrows`; `ConfWalk.EndOverruns`).
- A connection on which packets were put while it was still connecting becomes idle all the same
  (`EvntConn.ConnectedSettled`; `EvntConn.ConnectedUnsettled`). When its last packet comes then, it is deleted from
  the receive queue, where it is not: that does no harm unless it is the head of the idle queue, which becomes its
  own successor (`EvntEngine.Engine.GotPkt`, `EvntEngine.Engine.Misplace`).
- A timeout asked for long after the last activity is late by that activity (`EvntTimer.AskedLate`;
  `EvntTimer.AskedFiveLate`).
- The comment on `http_parse_quality` promises at most 1000; qualities of 1.0 and 1.00 are scaled twice
  (`HttpLanguage.QualityScaled`; `HttpLanguage.QualityOne`).
- Skipping whitespace twice can skip more than skipping it once: two line ends in a row stop the first skip between
  them (`HttpText.LwsTwice`; `HttpText.LwsGoesOn`).
- A Range header with no range after the equals sign is accepted, with no sections (`HttpRange.RangesInside`;
  `HttpRange.NothingAsked`).
- A number in a Range header that does not fit 64 bits wraps round, though the parser is asked to notice; the client
  gets other bytes than it asked for when what is left is small enough for the file (`HttpRange.WrapMeans`;
  `HttpRange.WrapServesLess`).
- A repeated header whose first value is empty fails the request, or is put in the middle of another header, when it
  comes again after the switch of stores and its place in the store is not clear (`MultiHdr.Multi.App`,
  `MultiHdr.ParseHdrs`; `MultiHdr.EmptyThenValue`).
- For a language tag that begins with a dash, empty ranges are related, and the scan takes note of them only by the
  way (`HttpLanguage.ScanAnswers`; `HttpLanguage.EmptyRangeMissed`).
- A URL that means a pattern does not match it when it has an escape `%00`, `%0b` or `%0B`: the number parser refuses
  these (`UriEq.FoundIfClean`; `UriEq.RefusedEscapes`).
- The count of bytes that `vcsv_row_parse` returns does not lead to the next row when a quote was deleted
  (`Csv.NextRow`; `Csv.NextRowMissed`).
- With several commands outstanding a reply may reach the wrong connection (`CntlModel.Routing`;
  `CntlModel.RaceMisroutes`); `examples/README` notes the race.

## Model

| member | source | states |
|---|---|---|
| ConfLexer.Step | examples/conf.c:397-615 | every step from a well-shaped state either fails or stays inside the text and leaves a well-shaped state, and one that consumes nothing lowers the rank of the state |
| ConfStructure.StepsAreFew | examples/conf.c:410-605 | on every text the loop takes at most two steps a byte and a few more |
| ConfStructure.OpenKeeps | examples/conf.c:145-157 | opening a list or a string keeps the invariant: extents nest, types are not yet given, no token goes further than the text read |
| ConfStructure.CloseKeeps | examples/conf.c:159-190 | closing a list gives it the number of tokens inside it and the type of both its brackets, the closing one being the byte just read, and keeps the invariant for every list around it |
| ConfStructure.EditKeeps | examples/conf.c:216-243 | a string that moves its start, gets its length or turns out to have escapes changes no list |
| ConfStructure.DropKeeps | examples/conf.c:113-143 | taking a comment mark off the tokens leaves every enclosing list's count right |
| ConfStructure.StepKeeps | examples/conf.c:410-605 | every step of the lexer keeps the invariant, with the closing bracket of a list the one at which it left the stack of open lists |
| ConfStructure.RunKeeps | examples/conf.c:397-615 | so does every run, with the closing brackets it has met, and one that accepts has closed every list |
| ConfStructure.TokensNest | examples/conf.c:159-190 | with no list left open the extents are laminar and mirror the brackets: what is inside a list, closing brackets and ends of strings included, comes before its closing bracket, and everything else behind |
| ConfStructure.LexStructure | examples/conf.c:397-615 | whatever is accepted is a laminar family of lists inside the tokens, nested at most 64 deep, with no token left without a type; each list's type names its opening bracket and the closing one the run met for it; a token is in a list exactly when it is between these, all of it, and the closing brackets nest as the lists do |
| ConfParse.Conf.BeginList | examples/conf.c:145-157 | the list is opened as in the specification, or refused at 64 open ones |
| ConfParse.Conf.EndList | examples/conf.c:159-190 | the innermost list is closed as in the specification, or the bracket is refused |
| ConfParse.Conf.Comment | examples/conf.c:113-143 | a symbol of nothing but comment marks goes away with the rest of its line |
| ConfParse.Conf.BeginQuoteXxx | examples/conf.c:216-243 | the start of a string moves behind one or three quotes |
| ConfParse.Conf.BeginUnquote | examples/conf.c:245-301 | the start of a raw string, with an escaped line end at its start skipped |
| ConfParse.Conf.FinishQuote | examples/conf.c:303-318 | a string gets its length |
| ConfParse.Conf.Escape | examples/conf.c:320-342 | an escape makes a string an escaped one, once |
| ConfParse.Conf.InsideQuote | examples/conf.c:344-384 | the bytes of a string up to its end or its next escape |
| ConfParse.Conf.InsideUnquote | examples/conf.c:386-395 | a raw string ends at its first closing quote, if there is one |
| ConfParse.Conf.ChooseToken | examples/conf.c:456-510 | the start of any token |
| ConfParse.Conf.AfterSymbol | examples/conf.c:557-597 | what a delimiter does after a symbol, which may be a comment |
| ConfParse.Conf.Turn | examples/conf.c:410-605 | one turn of the loop is one step of the specification |
| ConfParse.Conf.Lex | examples/conf.c:397-615 | the loop accepts exactly when the specification does, with its tokens and types |
| ConfPrint.CommentRun | examples/conf.c:113-143 | a comment mark and the rest of its line, be it a bracket right behind the mark or nothing, leave no trace in the tokens |
| ConfPrint.SymRun | examples/conf.c:495-593 | a printed symbol is read as one token, up to whitespace, a bracket or the end of the text |
| ConfPrint.TouchRun | examples/conf.c:433-470 | a bracket right after a symbol or a string does what it does after whitespace |
| ConfQuote.LinesRun | examples/conf.c:320-336 | escaped line ends at the start of a string move its start and are not escapes |
| ConfQuote.BodyRun | examples/conf.c:344-384 | the bytes and escapes of a string are passed, a quote that is not one of three too, and it becomes an escaped one exactly when it has an escape |
| ConfQuote.QuotedRun | examples/conf.c:192-243 | a string in one or three quotes of either kind is one token over its body, of the type of its quotes |
| ConfQuote.RawRun | examples/conf.c:245-301 | so is a raw string: an `r` or an `@`, one or three quotes of either kind, at most one escaped line end, and then all bytes up to its first closing quotes of the same kind, none of them an escape |
| ConfPrint.StrRun | examples/conf.c:303-395 | a printed string, quoted or raw, is read as one token, and what may stand behind it as ever |
| ConfPrint.NodeRun | examples/conf.c:397-615 | a printed node is read as its tokens and nothing else, or refused when it is too deep |
| ConfPrint.ForestRun | examples/conf.c:397-615 | so is a printed forest, with every list's length |
| ConfPrint.LexPrinted | examples/conf.c:397-615 | lexing a printed forest, each place with its own whitespace and none where none is needed, after whitespace or the first line of a script or nothing, gives its tokens when it is at most 64 deep and fails otherwise, exactly unless the forest itself begins like a script |
| ConfPrint.SpoiledRefused | examples/conf.c:433-455 | wherever a token may begin, a string with anything behind it but whitespace, a closing bracket or the end, and a symbol with a quote behind it, make the lexer refuse the text |
| ConfPrint.ScriptLost | examples/conf.c:416-423 | a forest of the one symbol `#!x` is not read back |
| Number.DigitsInOrder | src/vstr_parse.c:266-344 | the sixteen digits have their values, in either case |
| Number.NoOtherDigits | src/vstr_parse.c:266-344 | there are no others, and a smaller base has the first of them |
| Number.DecimalParsed | src/vstr_parse.c:32-379 | in base 10 the parser reads as many digits as there are, and their value as far as the integer type holds it: it wraps round |
| ConfUnescape.LetterEscape | examples/conf.c:738-765 | an escaped line end is nothing, `\t`, `\n`, `\v`, `\r` and `\b` are the bytes 9, 10, 11, 13 and 8, and any other character but a zero is itself |
| ConfUnescape.HexEscape | examples/conf.c:766-778 | a byte written as a zero, an x and two hexadecimal digits stands for itself |
| ConfUnescape.OctEscape | examples/conf.c:766-778 | so does one written as a zero and two octal digits |
| ConfUnescape.Base.ReplaceEscape | examples/conf.c:750-785 | one escape is replaced in place by what it stands for |
| ConfUnescape.Base.ConvUnesc | examples/conf.c:738-792 | the section is replaced in place by what it means, the rest of the string stays, and the returned length is that of the result |
| ConfWalk.InsideIff | examples/conf.c:159-190 | a token is in a list exactly when the list begins before it and its extent reaches it |
| ConfWalk.InsideIsNesting | examples/conf.h:323-335 | the number of lists around a token is its nesting |
| ConfWalk.StackFits | examples/conf.h:243-276 | the stack of an accepted lex never holds more than 64 lists |
| ConfWalk.StackFollows | examples/conf.h:243-276 | leaving the lists that end at a token leaves exactly those around the next |
| ConfWalk.NextFollows | examples/conf.h:243-276 | from a path that follows the lists, one step gives exactly the stack of the next token |
| ConfWalk.EndFollows | examples/conf.h:278-289 | after going to the end of a list the next token has exactly the lists around it |
| ConfWalk.EndDepth | examples/conf.h:278-289 | when the depth reported for the last token of the list is itself right |
| ConfWalk.EndDepthWrong | examples/conf.h:278-289 | in a list in a list, the last token is reported with a depth of one and is inside two |
| ConfWalk.EndAgain | examples/conf.h:278-289 | going to the end of the current token's own empty list pushes that list again |
| ConfWalk.EndGrows | examples/conf.h:278-289 | doing that any number of times grows the stack by as many entries, from any depth |
| ConfWalk.EndFitsIff | examples/conf.h:243-289 | the stack stays within 64 exactly when the current token is not a list that ends at the target, or there is room for one more |
| ConfWalk.EndOverruns | examples/conf.h:243-289 | 64 lists in one another, the last one empty, and the stack that has no room for its end |
| ConfWalk.Token.LeaveLists | examples/conf.h:250-258 | the lists that have ended come off the stack, and no others |
| ConfWalk.Token.Describe | examples/conf.h:260-275 | the type and value of the token; a list goes on the stack with its end |
| ConfWalk.Token.ParseToken | examples/conf.h:243-276 | the next token, with the stack that belongs to it; the stack neither underflows nor overflows |
| ConfWalk.Token.NextToken | examples/conf.h:243-276 | the reported depth is the number of lists around the token |
| ConfWalk.Token.ListNum | examples/conf.h:529-540 | what remains in the d-th open list is its end less the current number; all that remains for depth 0; nothing for a depth not open, and nothing for any depth before the first token |
| ConfWalk.Token.EndToken | examples/conf.h:278-289 | the walk is at the last token of the d-th open list and goes on right from there; on a walk that has not begun the number wraps; on an empty list that is the current token of a full stack it writes behind the stack, and only there |
| ConfWalk.Token.NumToken | examples/conf.h:291-321 | the walk goes on to token n, never back, and is exactly there; asked for token 0 before the first one, and only then, it reads before the array |
| ConfWalk.Walk | examples/conf.h:243-276 | tokens 1 to num are visited once each in order, each with its depth, type and section |
| ConfUser.Store.constructor | examples/conf.c:795-843 | a lexed array has no values of the user's |
| ConfUser.Store.Set | examples/conf.c:795-843 | a token that is not a list gets its value and type; every other token keeps its value; no list length changes; the room doubles without wrapping |
| ConfUser.SetKeepsEnclosing | examples/conf.c:795-843 | values on tokens leave every token in the lists it was in |
| ConfRoundTrip.ValueMeans | examples/conf.c:738-792 | what the reader of a string makes of its body is what its bytes and escapes mean one after the other |
| ConfRoundTrip.ChunksMean | examples/conf.c:738-792 | any bytes can be written in quotes of any kind |
| ConfRoundTrip.RebuildOutline | examples/conf.h:243-276 | the items of a walk with their depths determine the forest |
| ConfRoundTrip.ReportPrinted | examples/conf.h:243-276 | the walk over a printed forest, wherever it is in the text, reports its outline |
| ConfRoundTrip.RoundTrip | examples/conf.c:397-615 | printing any valid forest at most 64 deep with whatever whitespace in it and before it, then lexing, walking and unescaping it, gives back what it says: lists and symbols as they are, strings with their kind and their bytes, raw ones byte for byte |
| ConfRoundTrip.ReadConf | examples/opt_serv.h:229-248 | a configuration is read as lexing, walking and decoding say, strings unescaped in a copy as the readers of options do, or refused when the lexer does |
| ConfRoundTrip.DecodeItem | examples/opt_serv.h:229-240 | a token's value: its bytes, unescaped in a copy when it has escapes |
| EvntList.Add | examples/evnt.c:164-173 | the queue is the event followed by what it was, linked both ways |
| EvntList.Del | examples/evnt.c:175-187 | the queue is what it was without the event, linked both ways |
| EvntList.SendDel | examples/evnt.c:969-984 | the loop takes the event out of the singly linked list wherever it is |
| EvntList.Unlink | examples/evnt.c:1540-1550 | the step of a scan through a link takes out the event the link holds |
| EvntList.KeepAt | examples/evnt.c:175-187 | what a list without duplicates is when one member leaves |
| EvntEngine.Engine.constructor | examples/evnt.c:113-126 | an engine with no events satisfies the invariant |
| EvntEngine.Engine.Enqueue | examples/evnt.c:206-221 | an event goes on one queue with that queue's flag only; all other queues stay as they are |
| EvntEngine.Engine.Unqueue | examples/evnt.c:189-204 | an event leaves the queue its flag names; all other queues stay as they are |
| EvntEngine.Engine.Placed | examples/evnt.c:255-336 | the flag of every live event names the queue it is on |
| EvntEngine.Engine.Move | examples/evnt.c:879-912 | an event goes from its queue to the head of another and the whole invariant holds |
| EvntEngine.PartitionAdd | examples/evnt.c:164-173 | one more event keeps every event on exactly one queue, and the sum of the lengths grows by one |
| EvntEngine.PartitionPurge | examples/evnt.c:175-187 | one event less keeps every event on exactly one queue, and the sum of the lengths drops by one |
| EvntEngine.Engine.MakeEnd | examples/evnt.c:576-587 | a new event is live and on its first queue, and is counted |
| EvntEngine.Engine.SendDelete | examples/evnt.c:969-984 | the event is off the send-now list, and its flag says so |
| EvntEngine.Engine.Free | examples/evnt.c:497-548 | a freed event is on no queue and no list; everything else keeps its order |
| EvntEngine.Engine.Close | examples/evnt.c:858-877 | the event is on the closed list once, however often it is closed |
| EvntEngine.Engine.CloseNow | examples/evnt.c:1266-1272 | the event is freed, unless it waits to be |
| EvntEngine.Engine.ScanQClose | examples/evnt.c:1251-1264 | exactly the events on the closed list are freed, and it is empty |
| EvntEngine.Engine.AcptCloseAll | examples/evnt.c:1275-1285 | every accepting event is put on the closed list once |
| EvntEngine.Engine.PutPkt | examples/evnt.c:879-894 | the counter and the queue change as for one connection, the rest of the engine does not |
| EvntEngine.Engine.GotPkt | examples/evnt.c:896-912 | the same for a packet that has come; if it was the last one outstanding, the engine is well formed after it exactly when the event was on the receive queue, or on the idle queue but not its head |
| EvntEngine.Engine.Back | examples/evnt.c:906-908 | an event that is idle already, but not the head of its queue, goes to the head |
| EvntEngine.Engine.Misplace | examples/evnt.c:906-908 | any other event breaks the engine: the head of the idle queue becomes its own successor, an event that accepts or connects gets two queue flags |
| EvntEngine.Engine.SendFin | examples/evnt.c:1012-1042 | an established event waits to send exactly when it has output; when its output has ended it is idle if it moves with its packets and none is outstanding, and receives otherwise; its place in the queues follows |
| EvntEngine.Engine.ShutdownW | examples/evnt.c:1044-1072 | output is dropped once and the event does not wait to send, or nothing changes |
| EvntEngine.Engine.ConnectDone | examples/evnt.c:1302-1334 | a connection goes idle, is freed, or was already closed and is passed over, and which |
| EvntEngine.Engine.SendAdd | examples/evnt.c:930-965 | when the event is put on the send-now list, in front, and when it is not |
| EvntEngine.Engine.CallSend | examples/evnt.c:385-395 | a send callback that touches only its own event keeps the invariant, whatever packets it puts and gets and whatever it writes |
| EvntEngine.Engine.PopNow | examples/evnt.c:1543-1548 | the event the scan's link holds leaves the list |
| EvntEngine.Engine.ScanOne | examples/evnt.c:1543-1559 | one turn of the scan: the link still holds the next event that has not been called |
| EvntEngine.Engine.ScanSendFds | examples/evnt.c:1536-1562 | the scan ends, calls each event queued at its start and not to be closed exactly once and in order, frees those that fail, and leaves exactly those that requeued themselves, the last one first |
| EvntConn.RunSettled | examples/evnt.c:879-912 | after every run of put, got and send-finish steps a packet-moving connection is idle exactly when it is not waiting to send and all packets put have come, though the counters wrap |
| EvntConn.RunQueue | examples/evnt.c:879-1042 | after every such run the queue is the one the run says: waiting to send exactly when there was output at the last send-finish; otherwise idle or receiving by the packets outstanding, or, for a connection that does not move with its packets, where it began until it has had to wait for output and receiving from then on |
| EvntConn.SendFinMoves | examples/evnt.c:1012-1042 | where one send-finish step leads from, and that it changes nothing but the queue |
| EvntConn.StepSettled | examples/evnt.c:1012-1042 | every such step keeps that |
| EvntConn.SameWrapped | examples/evnt.c:896-912 | counters less than 2^32 apart are equal when their wrapped values are |
| EvntConn.PutSettled | examples/evnt.c:879-894 | a packet put settles the connection exactly unless the counter wraps round onto the other one |
| EvntConn.ConnectedSettled | examples/evnt.c:1325-1333 | becoming established settles the connection exactly when all packets put while connecting have come |
| EvntConn.ConnectedUnsettled | examples/evnt.c:1323-1327 | one packet put while connecting, and the connection is idle with it outstanding |
| EvntConn.LastPacket | examples/evnt.c:902-910 | what evnt_got_pkt asks of its event holds of every settled one |
| EvntTimer.DueSoon | examples/evnt.c:1784-1861 | in every run the timer is due at most a second after the timeout would be up |
| EvntTimer.TimeoutInTime | examples/evnt.c:1784-1861 | for every timeout and every pattern of activity: timed out never early, and at most a second late by the last activity or the request, whichever is later |
| EvntTimer.Expiry | examples/evnt.c:1815-1861 | an idle event is timed out in the end, when it has been idle long enough |
| EvntTimer.IdleExpires | examples/evnt.c:1898-1910 | an event idle from the start is timed out within a second of its timeout |
| EvntTimer.FewRuns | examples/evnt.c:1784-1813 | the three coarse queues need at most 20 runs and one for every 100 seconds |
| EvntTimer.AskedLate | examples/evnt.c:1898-1910 | exactly when a timeout asked for late is late by the last activity |
| EvntTimer.AskedFiveLate | examples/evnt.c:1784-1861 | a timeout of one second, asked for after five, is up after six |
| EvntTimer.Idle.TimerCb | examples/evnt.c:1815-1861 | the callback sets the timer again, shuts the output down and starts over, or closes |
| HttpText.SkipLwsLoop | examples/httpd.c:319-339 | the loop skips what the specification says |
| HttpText.SkipLws | examples/httpd.h:213-223 | the test before the call changes nothing |
| HttpText.SkipBlanks | examples/httpd.c:2683-2698 | whitespace and commas are skipped |
| HttpText.FoldedLws | examples/httpd.c:319-339 | blanks and folded lines before solid text are skipped in one go, and nothing more |
| HttpText.LwsTwice | examples/httpd.c:319-339 | a second skip goes on where the first one stopped exactly when the text is folded whitespace and then two line ends in a row |
| HttpText.FoldedSkip | examples/httpd.c:319-339 | one skip stops between the two line ends |
| HttpText.LwsGoesOn | examples/httpd.c:319-339 | a text of which the second skip takes more |
| MultiHdr.InsertHolds | examples/httpd.c:2156-2166 | a section that is fixed up holds the same values after an insertion |
| MultiHdr.InsertJoins | examples/httpd.c:2234-2241 | a value put before a header's section makes it the section of one value more |
| MultiHdr.Multi.Cp | examples/httpd.c:2168-2183 | one header is copied to the combined store |
| MultiHdr.Multi.Combine | examples/httpd.c:2210-2225 | after the switch every header is in the store with the values it had, one behind the other, and no two overlap; one of no bytes keeps its old place |
| MultiHdr.Multi.Fixup | examples/httpd.c:2156-2166 | one header moves when it is behind the insertion |
| MultiHdr.Multi.Insert | examples/httpd.c:2234-2254 | the value and a comma go before the header's values, and all headers still hold theirs apart, exactly when the place is not behind the store and not in another header |
| MultiHdr.OverlapStays | examples/httpd.c:2234-2254 | once two headers overlap, two always do |
| MultiHdr.Multi.App | examples/httpd.c:2185-2255 | the value is added to its header and to no other, in the input or in the store, exactly when its header has none yet, or one that is not empty, or an empty one whose place is clear; otherwise it fails or two headers overlap |
| MultiHdr.ParseHdrs | examples/httpd.c:2329-2363 | for any values of any headers in any order, each header's section is its values joined by commas, the latest first, and no two sections overlap, exactly when every line finds room where the lines before it have put the headers; it does unless a header comes again after an empty first value |
| MultiHdr.EmptyThenValue | examples/httpd.c:2168-2254 | requests in which such a header makes the request fail, or overlaps another one |
| MultiHdr.SplitJoined | examples/httpd.c:2234-2241 | values without commas can be told apart again |
| HttpRange.ItemInside | examples/httpd.c:2787-2843 | a range that is taken is not empty, is inside the file and is not all of it |
| HttpRange.RangesInside | examples/httpd.c:2787-2851 | so is every range of an accepted header; there are no more than allowed; there are none only when nothing follows the equals sign |
| HttpRange.HeaderInside | examples/httpd.c:2764-2852 | every range of an accepted header is inside the file, and there are at most max(1, limit) |
| HttpRange.ItemWritten | examples/httpd.c:2787-2843 | a range written as in section 14.35.1 of RFC 2616, with any whitespace between its tokens and whitespace and commas after it, means the bytes that section says of what its numbers wrap round to |
| HttpRange.WrapMeans | src/vstr_parse.c:283-293 | these are the bytes of the numbers themselves exactly when the numbers fit 64 bits or wrap round to something that asks for the same |
| HttpRange.HeaderWritten | examples/httpd.c:2755-2852 | a header of such ranges is accepted with exactly those bytes in order, or gets the code of its first range that cannot be used or is one too many; this is what its decimal numbers mean if they all fit, and for one range only if |
| HttpRange.BadStops | examples/httpd.c:2787-2827 | a range without a dash, a dash without a number before or behind it, and something else than a number behind a number and a dash, are no ranges, and the header is ignored |
| HttpRange.HeaderRefused | examples/httpd.c:2771-2852 | a header that is not of bytes is ignored; one in which such a thing follows some ranges gets the code of the first of them that cannot be used, and is ignored when all can or there are too many |
| Number.NumeralMeans | examples/httpd.c:2771-2772 | every number can be written |
| HttpRange.WrapServesLess | examples/httpd.c:2799-2810 | asked for the last 2^64 + 1 bytes of a file of 100, the code serves the last one |
| HttpRange.NothingAsked | examples/httpd.c:2775-2852 | the header `bytes=` is accepted with no ranges |
| HttpSects.Con.Grow | examples/httpd.c:2717-2743 | a larger array holds the same sections |
| HttpSects.Con.FileSectAdd | examples/httpd.c:2700-2753 | the section is added behind all earlier ones, which stay, in the file of the first one; whether more may come |
| HttpSects.ParseItem | examples/httpd.c:2787-2843 | one range is parsed as specified |
| HttpSects.Con.ParseRanges | examples/httpd.c:2787-2851 | the loop records exactly the specified ranges in order, or returns the specified code |
| HttpSects.Con.ParseRange | examples/httpd.c:2764-2852 | 200 exactly when the header is accepted, with a section for each range, all of the one open file |
| HttpParts.PartTaken | examples/httpd.c:1237-1254 | a client reads a part back: the separator line, the content type, the numbers of its first and last byte and the size of the file in decimal, and then exactly those bytes of the file |
| HttpParts.PartsTaken | examples/httpd.c:4009-4034 | it reads all parts in order so, up to the closing separator |
| HttpSend.ResponseRead | examples/httpd.c:2939-2946 | it reads the whole response so, or just the bytes of the only section |
| HttpSend.Drains | examples/evnt.c:1145-1184 | sending from the front of a section keeps its end and leaves the rest of its bytes |
| HttpSend.Con.constructor | examples/httpd.c:2939-2946 | what is to be delivered is the whole response |
| HttpSend.Con.EvntSend | examples/evnt.c:1123-1139 | a partial write moves bytes from the output to the client and changes nothing of the whole |
| HttpSend.Con.EvntSendfile | examples/evnt.c:1145-1184 | a partial sendfile moves bytes from the file to the client |
| HttpSend.Con.ServSendLim | examples/httpd.c:3902-3919 | all output is written, or the calls allowed have been made |
| HttpSend.Con.SendSection | examples/httpd.c:3953-3979 | all of the section is sent, or the calls allowed have been made |
| HttpSend.Con.FdNext | examples/httpd.c:660-697 | the next section, or none and everything reset |
| HttpSend.Con.NextPart | examples/httpd.c:4009-4034 | the header of the next part or the last separator follows the section |
| HttpSend.Con.ServSend | examples/httpd.c:3921-4035 | one go leaves what the client will have got in the end unchanged, and says truly whether it is all out |
| HttpSend.Deliver | examples/httpd.c:3921-4035 | however partial writes, EAGAIN and limits split the run, what has been sent is a beginning of the response, and all of it when sending ends, from which a client reads back every part with its place in the file; a willing kernel needs no more calls than bytes |
| HttpLanguage.QualityEnds | examples/httpd.c:831-897 | a quality ends the text or stands before a comma, and is never the mark for none |
| HttpLanguage.FractionScaled | examples/httpd.c:884-891 | the digits after the point give at most 1000 exactly when a 0 comes before it or there are three of them |
| HttpLanguage.QualityScaled | examples/httpd.c:831-896 | a quality is at most 1000 exactly unless it is a 1, a point and one or two digits |
| HttpLanguage.QualityOne | examples/httpd.c:874-891 | `;q=1.0` comes out as 100000 |
| HttpLanguage.ParseQuality | examples/httpd.c:831-897 | the function takes the quality the specification says |
| HttpLanguage.ParseFraction | examples/httpd.c:880-891 | the digits after the point, scaled |
| HttpLanguage.ScanReturns | examples/httpd.c:3117-3170 | what one pass over the ranges returns, for any ranges and any tag |
| HttpLanguage.ScanAnswers | examples/httpd.c:3117-3170 | this is the declared answer (the first equal range, else the best of the longest related ranges, else the last star, else 0) exactly unless related ranges of no length are all there is and the best of them is not what the stars and their order leave |
| HttpLanguage.LoopScans | examples/httpd.c:3117-3170 | the loop over the text is that pass, when the header can be read |
| HttpLanguage.LanguageAnswers | examples/httpd.c:3097-3180 | for every header that can be read, with no more ranges than allowed, and every tag, the answer is the declared one exactly so; always, if no range is empty or the tag begins with no dash |
| HttpLanguage.EmptyRangeMissed | examples/httpd.c:3133-3151 | an empty range and a tag that begins with a dash, where the pass misses the range |
| HttpLanguage.LoopRefuses | examples/httpd.c:3117-3170 | for every header with an error or too many ranges the answer is the quality of the first equal range before that, otherwise 1 |
| HttpLanguage.ParseAcceptLanguage | examples/httpd.c:3097-3180 | the function returns the declared answer or that one, and 1000 for no header |
| HttpLanguage.LowerIs | examples/httpd.c:3122 | the letters of the alphabet are compared without their case, other characters as they are |
| HttpLanguage.RelatedIs | examples/httpd.c:3080-3095 | a range and a tag are related exactly when one is the other with a dash and more behind it, without case |
| HttpLanguageText.WeightRead | examples/httpd.c:831-897 | a quality written with any whitespace between its tokens is read whole: left out it is 1000, a 1 is 1000, a 0 is 0, and after a point one to three digits count for 100, 10 or 1 each |
| HttpLanguageText.GotIsMeant | examples/httpd.c:874-891 | that is what it says exactly unless it is a 1 with one or two digits after the point |
| HttpLanguageText.ListRead | examples/httpd.c:3117-3170 | a written list of ranges is read as exactly its ranges with those qualities in order, or refused exactly when more than the limit are announced, after the first of them |
| HttpLanguageText.LanguageWritten | examples/httpd.c:3097-3180 | the answer to a written list within the limit is the declared one from exactly those ranges |
| HttpLanguageText.LanguageTooLong | examples/httpd.c:3165-3169 | the answer to a longer list is that of an equal range among the first, otherwise 1 |
| CntlModel.FirstLive | examples/cntl.c:54-70 | the first waiter that is owed something: all before it are owed nothing |
| CntlModel.AskInv | examples/cntl.c:72-132 | a broadcast keeps the invariant |
| CntlModel.WorkInv | examples/cntl.c:78-84 | a child's answer, data and one terminator, keeps it |
| CntlModel.SomeLive | examples/cntl.c:581-583 | while any message is unread there is a waiter that is owed something |
| CntlModel.DataInv | examples/cntl.c:627-634 | passing data on keeps it |
| CntlModel.FinInv | examples/cntl.c:134-153 | counting a terminator keeps it |
| CntlModel.CountTurns | examples/cntl.c:134-153 | the waiters owed less are still served in turn, and the bag is emptied only when nothing is owed |
| CntlModel.RunInv | examples/cntl.c:54-153 | every run keeps the invariant |
| CntlModel.Accounting | examples/cntl.c:54-153 | in every run the waiters are owed exactly the terminators still to come, commands complete in the order asked, and each is answered by exactly one terminator |
| CntlModel.Routing | examples/cntl.c:579-634 | where a message goes, and that this is the one that asked exactly when the same connection asked for the oldest incomplete command and for the one this child answers; if no connection asks twice, exactly when the child has answered as many commands as are complete |
| CntlModel.AloneRouting | examples/cntl.c:579-634 | with one command outstanding at a time every message goes to the connection that asked |
| CntlModel.OnlyChildRouting | examples/cntl.c:579-634 | with one child it always does |
| CntlModel.RaceMisroutes | examples/cntl.c:579-634 | a run with two children and two commands in which a message goes wrong |
| Cntl.Parent.constructor | examples/cntl.c:563-571 | the parent starts with no waiters |
| Cntl.Parent.WaiterGetFirst | examples/cntl.c:54-70 | the loop finds the first waiter that is owed something |
| Cntl.Parent.WaiterAdd | examples/cntl.c:72-132 | the command goes to every child with a waiter for all of them, or nothing changes when the bag of four is full |
| Cntl.Parent.WaiterDel | examples/cntl.c:134-153 | one terminator is counted |
| Cntl.Parent.ChildRecv | examples/cntl.c:579-634 | all messages of a child are handled one after the other as in the protocol, and the waiter the code asserts is there |
| UriEq.EscapeIs | src/vstr_parse.c:32-379 | the two bytes of an escape are read as a number of base 16 exactly when both are hexadecimal digits and they are not `00`, `0b` or `0B` |
| UriEq.RestDecodes | examples/httpd_policy.h:369-409 | a match means that the raw bytes before the rest decode to the text, two hexadecimal digits for an escape, and that none of the three escapes is in them |
| UriEq.DecodesRest | examples/httpd_policy.h:369-409 | a prefix that decodes to the text without those escapes is matched, with exactly the rest behind it |
| UriEq.OnePrefix | examples/httpd_policy.h:369-409 | there is only one such prefix |
| UriEq.FoundIfClean | examples/httpd_policy.h:369-409 | when a prefix decodes to the text, it is matched if and only if none of those escapes is in it |
| UriEq.RefusedEscapes | examples/httpd_policy.h:379-402 | `%00`, `%0b` and `%0B` mean a byte and do not match it |
| UriEq.UriRest | examples/httpd_policy.h:369-409 | the loop over runs and escapes is the comparison a byte at a time |
| UriEq.Eq | examples/httpd_policy.h:411-417 | equal exactly when the URL decodes to the text and has none of the three escapes |
| UriEq.BegEq | examples/httpd_policy.h:420-431 | whether a beginning without those escapes decodes to the text, and its raw length |
| UriEq.DecodeLength | examples/httpd_policy.h:451-455 | a URL is one to three times as long as what it decodes to |
| UriEq.EndEq | examples/httpd_policy.h:434-467 | whether an end without those escapes decodes to the text, and the longest such end |
| Csv.QuotedRun | examples/ex_csv.c:152-211 | a field in quotes is recorded as its value, with one of each two quotes gone, and what stands behind its quotes is passed over |
| Csv.TrashRun | examples/ex_csv.c:87-97 | that goes up to the next comma, over line ends too |
| Csv.Unclosed | examples/ex_csv.c:152-205 | a field whose quotes are not closed goes up to the end of the data; if it ends in a doubled quote the program aborts |
| Csv.PlainRun | examples/ex_csv.c:213-233 | a plain field is recorded as it is |
| Csv.CellsRun | examples/ex_csv.c:62-244 | a row is recorded field by field |
| Csv.RowParsed | examples/ex_csv.c:62-244 | for every row of section 2 of RFC 4180 but that of one empty field there is a section for each field, and after the deletions each is the value of its field |
| Csv.RowsParsed | examples/ex_csv.c:62-244 | so it is for all rows of a text in one go, with any line ends before, between and behind them |
| Csv.EmptyRow | examples/ex_csv.c:117-130 | for a row of one empty field there is none |
| Csv.NextRow | examples/ex_csv.c:191-205 | the returned count leads to the end of the row exactly when no quote was deleted |
| Csv.NextRowMissed | examples/ex_csv.c:191-205 | a row of one quote in quotes, after which the count is one too many |
| CsvParse.RowParser.StepTrash | examples/ex_csv.c:87-97 | what follows a quoted field by mistake is skipped to the comma |
| CsvParse.RowParser.StepPre | examples/ex_csv.c:107-115 | an empty field at the end of a line |
| CsvParse.RowParser.StepInit | examples/ex_csv.c:117-130 | line ends before a row are skipped, across nodes |
| CsvParse.RowParser.StepBeg | examples/ex_csv.c:132-150 | the start of a field |
| CsvParse.RowParser.StepInQuote | examples/ex_csv.c:152-166 | the next quote is found, in this node or a later one |
| CsvParse.RowParser.StepEndQuote | examples/ex_csv.c:168-211 | the field ends, or one of two quotes is deleted from the text; at the end of the data the program aborts |
| CsvParse.RowParser.DeleteOne | examples/ex_csv.c:191-205 | the deletion leaves the rest of the text and all offsets right |
| CsvParse.RowParser.StepNorm | examples/ex_csv.c:213-233 | a plain field ends at a comma or a line end, in this node or a later one |
| CsvParse.RowParser.AtEnd | examples/ex_csv.c:240-243 | what is recorded when the data ends |
| CsvParse.RowParse | examples/ex_csv.c:62-244 | for every text, well formed or not, the result does not depend on how it is cut into nodes |
| Dns.NameDecodes | examples/dns.c:230-255 | a written name is shown as its labels, each with one dot |
| Dns.HeaderBytes | examples/dns.c:594-600 | the twelve bytes of the header: the number, the flags, the count of questions and no answers |
| Dns.QuestionBytes | examples/dns.c:653-678 | a question ends with an empty label, its type and its class |
| Dns.PacketDecodes | examples/dns.c:576-687 | a packet read back has the number it was given, asks for recursion or not, and has its questions, each name with single dots and one at the end, its class and its type; the length before it is right exactly when it fits |
| Dns.ShownAgain | examples/dns.c:653-675 | asking for a name as it is shown asks for the same labels |
| Dns.Out.AppLabels | examples/dns.c:653-675 | the loop writes the labels of the name and nothing for its other dots |
| Dns.Out.AppQuestion | examples/dns.c:603-679 | one question is written |
| Dns.Out.RecqPkt | examples/dns.c:576-687 | the packet is appended to what is there, with its length filled in; the length read back is that of the packet exactly when it fits |
| Dns.AppLabel | examples/dns.c:230-255 | the loop shows the name the specification says and stops where it does |
| Dns.AppClassType | examples/dns.c:159-206 | the class and type, or the end of a message that is too short |
| Dns.PrintQuestions | examples/dns.c:510-546 | all questions of a message are shown |
| Phone.KeyLetters | examples/ex_phone_names.c:7-48 | the keys have the letters of the alphabet in order, all but q |
| Phone.KeySizes | examples/ex_phone_names.c:7-48 | three on each key, four on the last, and none on anything else |
| Phone.NextInCycle | examples/ex_phone_names.c:7-48 | the table goes round the characters of each key and meets a digit only at the start |
| Phone.TurnCounts | examples/ex_phone_names.c:53-77 | a turn counts by one, and comes back to the start after the last combination only |
| Phone.PlaceValue | examples/ex_phone_names.c:53-77 | every number below the product of the cycle lengths is the number of a combination |
| Phone.NamesAll | examples/ex_phone_names.c:96-122 | the names are all combinations except the line itself, none twice, and there are the product of the cycle lengths less one |
| Phone.SplitNum | examples/ex_phone_names.c:79-94 | the sections are exactly the keys of the line in order |
| Phone.Line.Prnt | examples/ex_phone_names.c:53-77 | the recursion over the sections turns the wheels in place, and restores the line in the end |
| Phone.Loop | examples/ex_phone_names.c:96-122 | one call puts out the next names in order, until there is too much output or none are left |
| Phone.PrintNames | examples/ex_phone_names.c:124-151 | however the calls pause, the output is a beginning of all names in order; when it ends it is all of them and the line is as it was |

## Left out

- Poll indicators, sockets, signals, fork, mmap, logging, file opening and reference counts: system calls and bookkeeping whose results are parameters where they matter.
- Growth of the lexer's own arrays and every failure of an allocation.
- The order of callbacks in `evnt_scan_fds` beyond what one connect does; the operations its callbacks use are modelled one by one.
- EvntEngine.Engine.ScanSendFds: callbacks are assumed to queue at most their own event and not to call `evnt_close`, as the scan itself needs; a packet that comes, or a write that ends, in a callback is taken only where those functions allow it (EvntEngine.Engine.Do).
- EvntTimer.Idle.TimerCb: times are whole milliseconds; the timer library's conversion of its own times is not part of this model.
- EvntConn.RunSettled: fewer than 2^32 packets are outstanding at any time; beyond that the 32-bit counters cannot tell.
- HttpSend.Con.ServSend: only the sendfile path, with a file that is not cut short and calls that do not fail; the path that reads does not seek before a later section at offset 0.
- ConfRoundTrip.ValueMeans: of numbers in escapes those with two hexadecimal digits, or two octal ones, are given their meaning; any other is what the number parser makes of it.
- HttpSend.Deliver: the head of a response, with the Content-Range of a single range in it, is a text given to the model.
- Number.DecimalParsed: signs, leading spaces and the local character set of the number parser are not modelled; no modelled caller can reach them.
- CntlModel.Accounting: broadcasts that the event engine refuses and peers that go away are not covered; a fifth command while four are waiting is refused.
- Csv.RowParsed: the row of a single empty field is not covered, as its text is empty and the line end after it is skipped (Csv.EmptyRow).
- Dns.Out.RecqPkt: a name of nothing but dots is not covered; what a pointer question's address is changed to is a parameter.
- Pointer chasing in `dns_app_name`, resource records, and the names of classes and types.
- `conf_sc_token_*`, the comparison functions and the backtrace of `conf.h` and `conf.c`: thin.
- The splitters `httpd_policy_path_mod_*` and `httpd_policy_uri_mod_*`, policy tables, MIME types, filters and HTML: thin, and two of the splitters fail when no escape is present.
- Several phone lines that share one array of sections: the source does not clear it between lines.
