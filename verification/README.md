# Verified models: jsmin, the mevent server, jquery.md5.js and the word splitter

This project models five parts of the repository in Dafny and proves what they compute.

* **The JavaScript minifier** (`maketool/jsmin.c`). `JsminLexer` is the reference: a text is cut
  into lexemes (single characters, whole strings, whole regular expressions) and the gaps between
  them, and written back with one separator for each gap. `JsminReading` says, without an
  algorithm, when a list of lexemes and gaps *is* a text, and proves the lexer finds exactly that.
  `JsminMachine` is the C program: two registers, one character of lookahead, an output stream.
  `JsminMeaning` says what minifying keeps, and when minifying twice is minifying once;
  `JsminOutput` says, character by character, what stands in the output.
* **The event server** (`event/daemon`). `TcpFraming` and `TcpSocket` are the reassembly of
  messages from a TCP stream; `Requests` and `Dispatch` read a message and judge it;
  `LinkedQueue` is the queue of a plugin; `Server`, `ServerInvariant` and `ServerResults` are the
  whole server as a state machine over the steps of the network thread, one worker per plugin and
  the shutdown, in every interleaving; `Daemon` runs real queues and workers through those steps;
  `Replies` is the way back and `Conversation` puts the parts together, from the bytes of the
  requests to the replies the client reads; `DriverTable` is the hash index
  of plugins; `Timers` the per-second timers; `Explode` the in-place splitter.
* **MD5** (`lib/js/jquery.md5.js`). `Md5Reference` follows sections 3.1 to 3.5 of RFC 1321;
  `Md5` and `Md5Digest` are the unrolled program, on 32-bit words as numbers with bitwise
  operations defined on their digits (`Bits`).
* **The word splitter** (`lib/eii/ediv.c`). `EdivBitmap`, `EdivDictionary` and `EdivSplit`.

Functions of the source that change things in place are methods of classes or methods over
arrays, each proved against a function of the old state; the lemmas are about those functions.

## What the proofs found

* `event/daemon/tcp.c:453` passes the length of the message just parsed to the recursive call; the
  comment above it and line 448 mean the length of the leftovers. Both are modelled. The intended
  call gives exactly the frames of the stream, however it is cut. The call as written does so
  exactly when nothing follows the first accepted message (`TcpFraming.WrittenHandlesExactly`);
  in a single buffer it does the same as the intended one exactly when the leftovers are always as
  long as the message before them (`TcpFraming.SameCallsExactly`).
* `explode` (`event/daemon/common.c:60-81`) does not keep to a limit of 1 if the text begins with
  a separator that starts a field, and loses the text if it begins with another separator
  (`Explode.OverrunsExactly`, `Explode.WrittenExactly`).
* Minifying loses part of the program, and is not idempotent, exactly when a division sign is
  followed by something beginning with `/` or `*` (`JsminMeaning.MinifyKeepsProgram`,
  `JsminMeaning.IdempotentExactly`).
* A message of another protocol version is answered with its id bytes reversed, because the id is
  put in network order only later (`Dispatch.MismatchReplies`).
* The status request is recognised by every prefix of its name (`Requests.StatusNames`), the
  empty one among them (`Requests.StatusNameExample`).
* A synchronous request enqueued between a worker's last look at its queue and its stop test is
  freed without a reply, and no other (`ServerResults.LostRequest`,
  `ServerResults.UnansweredExactly`).
* A timer that does not repeat stops, once it has fired, every timer behind it
  (`Timers.EverySecondCounts`, `Timers.UndisturbedExactly`).
* `lib/eii/ediv.h:43` promises the longest match; the stray semicolon at `lib/eii/ediv.c:210`
  makes the scan end at the first stretch found, the shortest, under every option
  (`EdivSplit.ShortestWord`). It is the longest one exactly when there is only one to choose from
  (`EdivSplit.LongestExactly`); with a word and an extension of it in the dictionary it is not
  (`EdivSplit.ShorterWordTaken`). Words of the full 45 bytes may be set but are never looked up
  (`EdivSplit.FullLengthNeverFound`).
* With `EDIV_SOPT_SKIP_NUTF` but without `EDIV_SOPT_ONLY_MAXMATCH`, `lib/eii/ediv.c:230-235` sets
  `es` to NULL and lines 236-237 subtract it. A dictionary and options are safe from that on every
  text exactly without that combination or with the bit at position 0 set
  (`EdivSplit.DefinedExactly`; the text `a` is one that is not, `EdivSplit.NullExample`), and a text
  is safe under that combination, whatever is found in it but the empty stretch, exactly if it
  consists of three-byte characters (`EdivSplit.SafeTexts`).
* With `EDIV_SOPT_SKIP_NUTF` a word that ends in or with its second run of other bytes is never
  found, because the step over that run is measured from the beginning of the first one
  (`EdivSplit.SecondRunNotFound`).
* The position of a word is the same before every text exactly when the word's own bytes settle
  where its characters begin (`EdivBitmap.SamePositionExactly`).
* A full chain of the plugin table refuses the newcomer; the comment at
  `event/daemon/mevent.c:137` says that the last entry is evicted.

## Model

| member | source | states |
|---|---|---|
| JsminMachine.Minifier.Run | maketool/jsmin.c:192-260 | For every input the program ends, and either fails for the reason the reference reading fails or has written exactly the lexemes of the input joined by their separators. |
| JsminMachine.Minifier.Turn | maketool/jsmin.c:197-258 | One turn of the main loop keeps the final output the state leads to, and shrinks the measure that makes the loop end. |
| JsminMachine.TurnLeads | maketool/jsmin.c:197-258 | Whatever the registers hold, the branch the table chooses keeps the final output the state leads to. |
| JsminMachine.TurnShrinks | maketool/jsmin.c:197-258 | Every choice of the branch table leaves less to do, so the minifier terminates. |
| JsminMachine.Minifier.Get | maketool/jsmin.c:53-68 | The next character of the translated input, lookahead first, is consumed and nothing else. |
| JsminMachine.Minifier.Peek | maketool/jsmin.c:74-79 | The next character is shown and the characters to come stay the same. |
| JsminMachine.Minifier.Next | maketool/jsmin.c:86-119 | The next symbol with a comment replaced: a newline for a line comment, a space for a block comment, failure for an unclosed one. |
| JsminMachine.Minifier.CopyString | maketool/jsmin.c:137-154 | The string's text is written verbatim up to its closing quote, backslashes protecting the next character, or the end of input is reported. |
| JsminMachine.Minifier.CopyRegex | maketool/jsmin.c:157-181 | The regular expression's text is written verbatim up to its closing slash, or the end of input is reported. |
| JsminMachine.Minifier.Action | maketool/jsmin.c:130-183 | The three actions change registers, input and output exactly as the abstract step says, or fail for the same reason. |
| JsminReading.LexIsTheReading | maketool/jsmin.c:53-260 | The lexer returns a list of lexemes and gaps if and only if that list spells the text and each part is what jsmin takes it for; so the reading exists or not, and is unique. |
| JsminReading.LexFindsReading | maketool/jsmin.c:86-260 | What the lexer returns spells the text again, character for character, and is a sound reading of it. |
| JsminReading.ReadingIsLexed | maketool/jsmin.c:86-260 | Every sound reading of a text is the one the lexer returns. |
| JsminMeaning.MinifyKeepsProgram | maketool/jsmin.c:192-260 | The output read again has the same lexemes in the same order, and between two words a gap exactly where there was one, with a newline exactly where there was one, if and only if no division sign is followed, over any gap, by a lexeme beginning with `/` or `*`. |
| JsminMeaning.SlashPairLoses | maketool/jsmin.c:86-119 | With such a pair the second reading finds fewer non-blank characters in lexemes than were written. |
| JsminMeaning.ShrinkKeepsProgram | maketool/jsmin.c:192-260 | Replacing each gap by its separator changes no lexeme and neither joins nor parts words. |
| JsminMeaning.IdempotentExactly | maketool/jsmin.c:130-260 | Minifying the output again returns it unchanged if and only if no division sign is followed, over any gap, by a lexeme beginning with `/` or `*`. |
| JsminMeaning.SlashPairShrinks | maketool/jsmin.c:86-119 | With such a pair the second pass takes it for a comment and its output is strictly shorter. |
| JsminMeaning.SlashPairExample | maketool/jsmin.c:86-119 | The text `a/ /` is a concrete input on which a second pass loses text. |
| JsminOutput.OutputIs | maketool/jsmin.c:192-260 | For every reading of every text the output is its lexemes with, before the first and between any two, a newline exactly if the text begins there or the gap holds one and a name character or one of `} ] ) + - " '` stands before it, and the lexeme is a regular expression or begins with a name character or one of `{ [ ( + -`; else a space exactly if there is a gap between two name characters; else nothing. |
| JsminOutput.LexemesAre | maketool/jsmin.c:130-183 | A quote begins a string up to the quote that closes it; a slash begins a regular expression exactly at the start, on a new line that can matter or after one of the twelve characters of the source; everything else is one character. |
| JsminOutput.LiteralEndIs | maketool/jsmin.c:137-181 | A literal runs to the first closing character with an even number of backslashes before it. |
| JsminOutput.TranslatedIs | maketool/jsmin.c:53-68 | Newlines and carriage returns are read as newlines, other control characters as spaces, and nothing else is changed. |
| JsminOutput.BraceExample | maketool/jsmin.c:235-247 | A newline between `}` and `b` is kept. |
| TcpFraming.ReceivingIsFraming | event/daemon/tcp.c:330-477 | However the network cuts a stream, the messages parsed are its length-prefixed frames in order up to the first bad length or rejected message, and what is saved is the unconsumed end, for the call with the leftover length. |
| TcpFraming.FramesOfEncoded | event/daemon/tcp.c:380-427 | Messages written as frames, followed by the beginning of another frame, are cut into the same messages and leave that beginning. |
| TcpFraming.FramesLoseNothing | event/daemon/tcp.c:380-456 | An open stream is exactly its accepted messages, framed, and the saved part of a frame. |
| TcpFraming.FramesInTwo | event/daemon/tcp.c:399-427 | Cutting a stream anywhere and going on from the saved part changes nothing. |
| TcpFraming.SizesExactly | event/daemon/tcp.c:380-427 | A stream is given up at its first frame exactly if its first four bytes, high byte first, do not make a number from 9 to 65536; else that many bytes are the frame, and what follows the four is its message. |
| TcpFraming.RecvLimits | event/daemon/tcp.c:330-362 | The first recv is given 68 KiB, a later one what is missing of the size field or of the frame. |
| TcpFraming.ProcessIntended | event/daemon/tcp.c:439-456 | The leftover recursion with the leftover length ends and parses all frames of the buffer. |
| TcpFraming.WrittenHandlesExactly | event/daemon/tcp.c:439-456 | The recursion as written is right at every moment of every run on a stream if and only if nothing follows the first accepted message. |
| TcpFraming.LoneMessageIsSafe | event/daemon/tcp.c:380-469 | On such a stream every possible way of receiving it, as written, agrees with the frames. |
| TcpFraming.WrittenParsesTwice | event/daemon/tcp.c:447-454 | If the first byte of the next frame arrives with an accepted message, the code as written parses that message twice and loses the byte. |
| TcpFraming.SameCallsExactly | event/daemon/tcp.c:439-456 | The recursion as written is called with the same bytes as the intended one if and only if each buffer ends with its message or its leftovers are as long as the message. |
| TcpFraming.WrittenRunIsFraming | event/daemon/tcp.c:330-477 | A run all of whose buffers are like that parses the messages of the stream, as written. |
| TcpSocket.Socket.constructor | event/daemon/tcp.c:308-313 | A new connection is at rest with nothing saved. |
| TcpSocket.Socket.Recv | event/daemon/tcp.c:330-376 | One event takes the connection from rest to rest and does to messages and saved bytes what receiving a chunk does; a would-block changes nothing; an error closes; the buffer it is left with is the old one, a new one or none. |
| TcpSocket.Socket.RecvAll | event/daemon/tcp.c:330-477 | The events of a new connection, whatever chunks the network gives, leave it with what receiving the chunks gives; with the leftover length that is the frames of the stream. |
| TcpSocket.Socket.ProcessBuf | event/daemon/tcp.c:380-477 | The in-place buffers, lengths and recursion compute the processing of the bytes, in the version chosen and with allocation that may fail. |
| TcpSocket.Socket.Finish | event/daemon/tcp.c:438-469 | After an accepted message the leftovers are moved to the front and processed, or the buffer is given up. |
| TcpSocket.Socket.SavePartial | event/daemon/tcp.c:399-420 | An incomplete frame is kept, copied out of the shared buffer if need be, with the number of bytes to wait for. |
| Requests.IdBytes | event/daemon/parse.c:233-259 | The id stored in network order is the message's own first four bytes with the version nibble cleared. |
| Requests.MismatchReplyId | event/daemon/parse.c:237-248 | The id reversed is the right id if and only if its bytes read the same both ways. |
| Requests.MismatchExample | event/daemon/parse.c:237-248 | A message of version 2 with the number 1 is answered with the bytes 1, 0, 0, 0. |
| Dispatch.MismatchReplies | event/daemon/parse.c:244-248 | A reply sent to a message of another version carries the right id if and only if its bytes read the same both ways. |
| Requests.StatusNames | event/daemon/parse.c:86-86 | A name passes for the status request if and only if it agrees with it as far as both go. |
| Requests.StatusNameExample | event/daemon/parse.c:86-86 | The empty name and the name `R` pass. |
| Requests.StatusBytes | event/daemon/parse.c:86-86 | Those names are what the fifteen bytes of `Reserve.Status` and its NUL begin with, and what begins with them. |
| Requests.RequestIsRead | event/daemon/parse.c:158-268 | A request laid out as version and id in four bytes, command and flags in two each, name length in four, name and body is refused for another version, and else an event with the sync bit of its own flags, for what its own name stands for, broken exactly if nothing is unpacked or it is too long, and with its own id. |
| Requests.ShortExactly | event/daemon/parse.c:218-222 | A message is too short exactly up to 16 bytes. |
| Requests.LongNameBroken | event/daemon/parse.c:181-193 | A request whose name length goes beyond its end is broken. |
| Dispatch.RequestJudged | event/daemon/parse.c:78-202 | What becomes of a request and which code answers it, in the order of the tests: another version, broken, unknown name, busy at more than 1048576 entries and a multiple of 100, no memory, taken or answered. |
| Dispatch.ShortJudged | event/daemon/parse.c:218-222 | A message of up to 16 bytes is answered as broken. |
| Dispatch.DataIsSent | event/daemon/reply.c:11-39 | Packed data goes with the code exactly if there is some, memory for it and packing works; the code goes alone exactly if there is none. |
| Dispatch.Dispatcher.Admit | event/daemon/parse.c:78-124 | The chain of tests reaches the verdict, bumps the one counter that belongs to it, replies with its code if it is due, and makes an entry exactly for a taken request. |
| Dispatch.Dispatcher.ParseEvent | event/daemon/parse.c:158-202 | The same with undecodable bodies and memory failures, synchronous requests only being answered. |
| Dispatch.Dispatcher.ReadHeader | event/daemon/parse.c:218-248 | A bad header is counted and answered with its code; the id kept is the message's own for a good header, and its reverse when a message of another version is answered. |
| Dispatch.Dispatcher.HandleMessage | event/daemon/parse.c:209-268 | Every message ends in exactly the verdict of its bytes; counters and replies change by that verdict only, with its reply code, and the reply carries the message's id, reversed for another version. |
| Dispatch.Dispatcher.ParseMessage | event/daemon/parse.c:209-268 | Handling a message is the arrival step of the server's state machine, and keeps counters, verdicts, replies and ids consistent with it. |
| Dispatch.InsertLocked | event/daemon/parse.c:126-129 | Under the lock a synchronous request joins at the end that is served next, an asynchronous one at the other, as the server's insertion does; the entry is a new one. |
| Dispatch.PutOrCas | event/daemon/parse.c:126-129 | The locked section puts an entry that is in no queue at the end its sync flag says. |
| Dispatch.Dispatcher.EnqueueLocked | event/daemon/parse.c:126-129 | The locked section is the server's enqueue step: the plugin's linked queue shows the model's queue again with one new entry, and every job in it carries its message's id. |
| Dispatch.Dispatcher.TakeNext | event/daemon/mevent.c:75-84 | Getting from the linked queue is the server's get step; what is got carries its message's id, and the queue, without its first entry, still shows the model's. |
| Dispatch.Dispatcher.ReplyTrigger | event/daemon/reply.c:11-39 | Each of the four exits sends one reply with the entry's id: the code, or the memory or packing error, or the code with data; failure is returned exactly for the two errors. |
| Dispatch.Dispatcher.ProcessDriver | event/plugin/mevent_skeleton.c:53-66 | Processing is the server's process step and replies exactly to synchronous requests, once, with the plugin's result and the id of the message they came from. |
| Dispatch.Dispatcher.FreeQueue | event/daemon/queue.c:33-48 | Freeing a stopped plugin's queue is the server's release step; the entries freed are those of the model's queue, in order. |
| Dispatch.Dispatcher.StillShows | event/daemon/parse.c:126-129 | A step that leaves a plugin's queue alone leaves its linked queue and ids as the model has them. |
| Dispatch.Dispatcher.AnsweredOnce | event/daemon/parse.c:78-202 | In every state the dispatcher gets into no message has been answered twice, the messages answered are those whose verdict and processing ask for it, and each reply carries the id of its message. |
| Dispatch.Dispatcher.RepliesTell | event/daemon/parse.c:78-202 | Every reply sent carries the id of a message received and says what a verdict possible on the bytes of that message asks for: the refusal's own code, or what a plugin or the status query gave. |
| Dispatch.Dispatcher.AnswerNow | event/daemon/parse.c:209-268 | A synchronous request that comes while its plugin's worker waits is processed before all that is queued; one reply is sent, with its id and the plugin's result, and the queue is as before. |
| Daemon.Threads.constructor | event/daemon/mevent.c:110-143 | A new server has an empty queue and a waiting worker for each plugin. |
| Daemon.Threads.Step | event/daemon/mevent.c:43-108 | Whatever a thread does, the queues, the jobs in hand, counters, replies and ids go through the step of the server that it is; the queues stay apart and well formed. |
| Daemon.Threads.Run | event/daemon/mevent.c:43-108 | So does any sequence of steps in any order they are possible in. |
| Daemon.RunFromStart | event/daemon/mevent.c:43-108 | From a new server on every such run ends in the state of the server it leads to, with the messages of the run received. |
| Daemon.FitAt | event/daemon/mevent.c:75-104 | A step on one plugin's queue and worker leaves all queues, workers and the network thread with the jobs the server's state says. |
| LinkedQueue.Queue.Put | event/daemon/queue.c:123-133 | The chain from bottom to top gains the entry at its end; no other link changes but the old top's. |
| LinkedQueue.Queue.Cas | event/daemon/queue.c:135-145 | The chain gains the entry at its front. |
| LinkedQueue.Queue.Get | event/daemon/queue.c:147-163 | The front entry leaves, or nothing happens to an empty queue. |
| LinkedQueue.Queue.Drain | event/daemon/queue.c:33-48 | Freeing the queue frees exactly the entries left, in order. |
| ServerInvariant.StepKeeps | event/daemon/mevent.c:43-108 | Every step of every thread keeps the invariant of the whole server. |
| ServerInvariant.ReachableInv | event/daemon/mevent.c:43-108 | Every state of every run satisfies that invariant. |
| ServerInvariant.EnqueueInOrder | event/daemon/parse.c:126-129 | Inserting keeps synchronous entries newest first before asynchronous entries oldest first. |
| ServerResults.OneReply | event/daemon/parse.c:78-202 | No message is answered twice; rejected headers and status requests are answered once, refused requests once if synchronous, taken requests once if synchronous and processed. |
| ServerResults.EachInOnePlace | event/daemon/mevent.c:75-108 | Every request taken for a plugin is in exactly one of: held by the network thread, queued, in processing, finished, freed, discarded. |
| ServerResults.ProcessedOnce | event/daemon/mevent.c:86-90 | Nothing is processed twice, and nothing processed is still queued or discarded later. |
| ServerResults.ShutdownSplitsAtLastEmpty | event/daemon/mevent.c:96-107 | After shutdown the requests processed and freed are those enqueued before the worker's last empty get, and those discarded are the ones enqueued after it. |
| ServerResults.UnansweredExactly | event/daemon/mevent.c:75-107 | Once its plugin has been shut down, a taken synchronous request is unanswered if and only if it was enqueued after the worker's last empty get. |
| ServerResults.LostRequest | event/daemon/mevent.c:75-84 | A run exists in which a synchronous request is accepted and never answered. |
| ServerResults.QueueBounded | event/daemon/parse.c:109-129 | Whatever happens between the unlocked test and the put, no queue grows beyond 1048600. |
| ServerResults.LimitIsFirstBusySize | event/daemon/parse.c:109-110 | That bound is the least size the busy test refuses. |
| ServerResults.QueueBoundAttained | event/daemon/parse.c:109-129 | A queue length occurs in some run if and only if it is at most that bound. |
| ServerResults.NextTaken | event/daemon/queue.c:123-163 | A worker's next request is the newest waiting synchronous one or, without any, the oldest asynchronous one. |
| ServerResults.OrderDetermines | event/daemon/queue.c:123-163 | The order leaves one arrangement of the waiting requests only. |
| ServerResults.CountersAddUp | event/daemon/parse.c:78-268 | The message counter is always the sum of version mismatches, broken, unknown and busy requests, status replies, memory failures, requests enqueued and the one being enqueued. |
| ServerResults.VerdictsPartition | event/daemon/parse.c:78-268 | Every message has exactly one of the seven outcomes. |
| Replies.LayoutIsFrame | event/daemon/tcp.c:153-216 | A reply as laid out is a legal frame around its id, code and value. |
| Replies.DecodeBody | event/daemon/tcp.c:153-216 | Id, code and value can be read back from a reply's frame. |
| Replies.LayoutPlaces | event/daemon/tcp.c:153-216 | In every reply bytes 0 to 3 are its length, 4 to 7 the id, 8 to 11 the code, and with a value 12 to 15 its length and the value from 16 on. |
| Replies.DecodePlaces | event/daemon/tcp.c:194-207 | A frame's contents are read by those places. |
| Replies.RepliesRoundTrip | event/daemon/tcp.c:106-216 | Any list of replies, written out and cut by the framing rule however the bytes arrive, gives back the same list with nothing left over. |
| Replies.Connection.RepSend | event/daemon/tcp.c:106-149 | Under any schedule of short and would-block sends the bytes sent are exactly the buffer. |
| Replies.Connection.ReplyMini | event/daemon/tcp.c:153-170 | A short reply puts 12 bytes on the wire: 12 as a number, the id, the code. |
| Replies.Connection.ReplyLong | event/daemon/tcp.c:178-216 | A reply with a value puts its length in all, the id, the code, the value's length and the value on the wire, in this order; without a value it is a short one. |
| Replies.Connection.ReplyAll | event/daemon/tcp.c:106-216 | Replies sent one after another, each under its own schedule, follow each other on the wire. |
| Conversation.Serve | event/daemon/tcp.c:330-477 | A stream received in any chunks by a real connection, and the threads run on the messages that come out: what has been received are the frames of the stream. |
| Conversation.WriteReplies | event/daemon/tcp.c:106-216 | The replies sent are put on the wire in order. |
| Conversation.RepliesReachClient | event/daemon/tcp.c:106-477 | Whatever a client sends and however the bytes are cut both ways, it reads exactly the replies sent, and each carries the id of the message it answers and says what a verdict possible on that message asks for. |
| Conversation.ClientMatchesById | event/daemon/tcp.c:106-477 | A client that gives its requests different ids finds by the id exactly one reply to each request that is due one by then, and none to any other. |
| DriverTable.Hash | event/daemon/mevent.c:27-41 | The loop computes the hash, in 32-bit arithmetic. |
| DriverTable.HashIs | event/daemon/mevent.c:27-41 | Each byte is added, the sum multiplied by 1025 and its 64th part put over it by exclusive or; at the end a multiplication by 9, the 2048th part put over it, and a multiplication by 32769, all modulo 2^32. |
| DriverTable.BucketSearch | event/daemon/mevent.c:253-261 | Looking in a name's own bucket finds what looking through all registered drivers finds. |
| DriverTable.SearchFindsNewest | event/daemon/mevent.c:147-163 | The search returns the newest entry of the name, and nothing if and only if there is none. |
| DriverTable.ChainsHoldAll | event/daemon/mevent.c:110-141 | The chain lengths sum to the number of registrations. |
| DriverTable.EventChain.AddFirst | event/daemon/mevent.c:127-135 | The doubly linked chain gains the entry in front and stays well formed; the last entry stays the oldest. |
| DriverTable.EventChain.Find | event/daemon/mevent.c:147-163 | The walk along the chain returns its first entry of that name, or nothing. |
| DriverTable.Mevent.StartDriver | event/daemon/mevent.c:110-143 | A driver is registered exactly if its chain is not over the limit; its chain gains it in front, no other chain changes, and every chain still shows its bucket. |
| DriverTable.FullChainExample | event/daemon/mevent.c:127-141 | In a table of one chain with limit 0 a second driver is refused and the first is still found. |
| DriverTable.Mevent.FindEntry | event/daemon/mevent.c:253-261 | A lookup returns what a newest-first search by exact name through all registered drivers returns. |
| Timers.TimersFire | event/daemon/common.c:44-51 | After any number of seconds, past the clock's wrap-around too, each timer of a list has the timeout and the number of firings its own timeout and the one-shot timers ahead of it give. |
| Timers.RepeatingTimerFires | event/daemon/common.c:44-51 | A repeating timer has fired as often as its timeout goes into the seconds up to the first firing of a one-shot timer ahead, for fewer than 2^32 seconds or behind a one-shot timer. |
| Timers.StrikesFormula | event/daemon/common.c:24-46 | How many of the clock's first n values are multiples of a timeout, in closed form for every n, each wrap-around of the 32-bit clock included. |
| Timers.OneShotFiresAtMostOnce | event/daemon/common.c:44-51 | A timer that does not repeat fires once if its time comes before a timer ahead cuts it off, and otherwise never. |
| Timers.EverySecondCounts | event/daemon/common.c:44-51 | After n seconds a timer is as it would be alone after the seconds that came before a one-shot timer ahead had fired; that is all n of them if and only if no such timer is overdue. |
| Timers.UndisturbedExactly | event/daemon/common.c:44-51 | A timer is at all times as if it were alone if and only if no one-shot timer is ahead of it, or it is one itself and fires no later than those ahead. |
| Timers.Clock.Walk | event/daemon/common.c:42-51 | The walk along the linked list strikes the timers before the first one that is switched off and leaves the others alone. |
| Timers.Clock.Handler | event/daemon/common.c:19-57 | One second advances the 32-bit clock and makes one such walk. |
| Timers.Clock.Run | event/daemon/common.c:19-57 | After any number of seconds the list is in the state the lemmas above describe. |
| Timers.Clock.AddTimer | event/daemon/mevent.c:238-251 | A new timer is put in front of the list. |
| Timers.RunFromStart | event/daemon/common.c:19-57 | Whatever timers are put on a new clock, after any number of seconds each of them is as the lemmas above say. |
| Explode.Explode | event/daemon/common.c:60-81 | The pointers 0 to i into the overwritten string denote the fields the code leaves; they are the promised ones, and no more than the limit, exactly under the two conditions of the lemmas below; later pointers and memory after the string are untouched. |
| Explode.MemoryHoldsText | event/daemon/common.c:60-64 | Any memory with a NUL in it holds a string, uncut, up to its first NUL. |
| Explode.StartsDenote | event/daemon/common.c:64-80 | The strings that begin at the field starts, each up to the first overwritten separator, are the fields. |
| Explode.WrittenExactly | event/daemon/common.c:76-78 | Those are the promised fields if and only if the limit is not 1 or the text does not begin with a separator. |
| Explode.OverrunsExactly | event/daemon/common.c:76-78 | No more pointers than the limit are written if and only if it is not the case that the limit is 1 and the text begins with a separator followed by a field. |
| Explode.OverrunExample | event/daemon/common.c:76-78 | The text `,a` with limit 1 makes two fields. |
| Explode.RunsAreRuns | event/daemon/common.c:65-75 | Fields after the first are not empty, do not begin with a separator and hold none unless they are the rest at the limit. |
| Explode.FieldsUpToLimit | event/daemon/common.c:76-78 | There are as many fields as without a limit, or as many as the limit if that is less. |
| Explode.OnlyRestHoldsSeps | event/daemon/common.c:76-78 | A field after the first holds a separator only if it is the last of as many as the limit. |
| Explode.FieldsSpell | event/daemon/common.c:60-81 | The text is the first field, without separators, and then each further field behind one or more separators, with nothing but separators after the last. |
| Md5.AddUnsignedAdds | lib/js/jquery.md5.js:40-54 | The adder made of masks and exclusive ors is addition modulo 2^32. |
| Md5Reference.RoundFunctionBits | lib/js/jquery.md5.js:56-70 | Bit by bit F takes y where x is set and z elsewhere, G takes x where z is set and y elsewhere, H is the parity of the three, I is y changed where x is set or z is not. |
| Md5Reference.RotateLeftIs | lib/js/jquery.md5.js:36-38 | Rotating by s is the product with 2^s modulo 2^32 plus the quotient by 2^(32 - s). |
| Md5Reference.StepIs | lib/js/jquery.md5.js:72-90 | Each step puts b plus the rotated sum of a, the round function, a word and a constant where a was, and the registers move on. |
| Md5Reference.MixBits | lib/js/jquery.md5.js:157-220 | The four rounds use F, G, H and I in this order, bit by bit. |
| Md5Reference.ShiftsAreListed | lib/js/jquery.md5.js:148-151 | The shifts are the four of each round, in turn. |
| Md5Reference.SecondPicks | lib/js/jquery.md5.js:173-188 | The words of the second round in their order. |
| Md5Reference.ThirdPicks | lib/js/jquery.md5.js:189-204 | The words of the third round in their order. |
| Md5Reference.FourthPicks | lib/js/jquery.md5.js:205-220 | The words of the fourth round in their order. |
| Md5Reference.StartValues | lib/js/jquery.md5.js:154-154 | The registers start with the four values of the source. |
| Md5Reference.BlockAdds | lib/js/jquery.md5.js:221-224 | After a block each register is the sum, modulo 2^32, of what the rounds make of it and what it was. |
| Md5Reference.PaddingIs | lib/js/jquery.md5.js:92-111 | The padded message is the message, a byte 0x80 and the fewest zeros that make its length 56 modulo 64. |
| Md5Reference.WordsAre | lib/js/jquery.md5.js:92-113 | The words are those of the padded message and the two of its length. |
| Md5Reference.WordBytes | lib/js/jquery.md5.js:101-106 | A word's first byte is its lowest. |
| Md5Reference.HexIs | lib/js/jquery.md5.js:115-123 | Digits are 0 to 9 and a to f, and a word's lowest byte comes first. |
| Md5Reference.DigestPlaces | lib/js/jquery.md5.js:226-226 | The digest is 32 digits, eight for each register in order. |
| Md5.NewRegister | lib/js/jquery.md5.js:72-90 | Each of FF, GG, HH and II computes the step of RFC 1321 from its function, word, shift and constant. |
| Md5.Round1 | lib/js/jquery.md5.js:157-172 | The first sixteen lines take the registers through steps 1 to 16 of the schedule. |
| Md5.Round2 | lib/js/jquery.md5.js:173-188 | The next sixteen lines are steps 17 to 32. |
| Md5.Round3 | lib/js/jquery.md5.js:189-204 | The next sixteen lines are steps 33 to 48. |
| Md5.Round4 | lib/js/jquery.md5.js:205-220 | The last sixteen lines are steps 49 to 64. |
| Md5Digest.WordCountFits | lib/js/jquery.md5.js:94-97 | The array has the words of the padded message and its length, and the end mark never meets the length. |
| Md5Digest.PackByte | lib/js/jquery.md5.js:101-106 | Or-ing a shifted byte into its word packs it, low-order byte first, and touches no other word. |
| Md5Digest.LengthShifts | lib/js/jquery.md5.js:110-111 | The two shifts give the length in bits as two words. |
| Md5Digest.ConvertToWordArray | lib/js/jquery.md5.js:92-113 | The array is the padded message in words followed by its length. |
| Md5Digest.WordToHex | lib/js/jquery.md5.js:115-123 | A word is written as eight hexadecimal digits, low-order byte first. |
| Md5Digest.OneBlock | lib/js/jquery.md5.js:156-224 | One turn of the loop takes the registers after n blocks to those after n + 1. |
| Md5Digest.Blocks | lib/js/jquery.md5.js:154-225 | The loop computes the registers after all blocks. |
| Md5Digest.Digest | lib/js/jquery.md5.js:153-227 | For every byte string shorter than 2^32 the result is its MD5 digest. |
| EdivBitmap.BitmapPos | lib/eii/ediv.c:20-110 | The two loops compute the position from the number of three-byte characters and the units of the bytes, a character cut short by the length being none. |
| EdivBitmap.LeadByBits | lib/eii/ediv.c:29-31 | A three-byte character begins where the highest three bits of a byte and the highest one of each of the next two are set. |
| EdivBitmap.CharBitsIsCodePoint | lib/eii/ediv.c:57-59 | Its bits are the number that UTF-8 cuts into 4, 6 and 6 of them. |
| EdivBitmap.SamePosition | lib/eii/ediv.c:20-110 | A word whose own bytes settle where its characters begin has the same position alone and as the beginning of any longer text. |
| EdivBitmap.SamePositionExactly | lib/eii/ediv.c:20-110 | For words that may be set, that holds under every mixing and for every text if and only if the word is such a one. |
| EdivBitmap.WellFormedIsSelfContained | lib/eii/ediv.c:20-110 | Every well-formed UTF-8 word with characters of one to three bytes is such a one. |
| EdivDictionary.Dictionary.WordSet | lib/eii/ediv.c:158-172 | Setting a word of at most 45 bytes adds it; the bits set are always exactly the positions of the words set; a longer word changes nothing. |
| EdivDictionary.Dictionary.Lookup | lib/eii/ediv.c:203-206 | The bit looked up is the one at the position of the bytes. |
| EdivDictionary.SetWordIsFound | lib/eii/ediv.c:158-206 | A word once set, whose bytes settle where its characters begin, is found at the beginning of every text that begins with it. |
| EdivSplit.Split | lib/eii/ediv.c:186-276 | For every dictionary, text and options the loops end, and the callback gets exactly the stretches the reference gives; whether the source then computes with a null pointer is told exactly, and it does not without the options and dictionary for that; put together the calls are the text unless something is thrown away. |
| EdivSplit.Scan | lib/eii/ediv.c:196-256 | The inner loop finds the end of the word from where the last one ended, and whether it was found in the dictionary. |
| EdivSplit.Step | lib/eii/ediv.c:214-255 | After a stretch that was not found the scan goes on over one character or, with the option, over a run. |
| EdivSplit.SplitKeepsText | lib/eii/ediv.c:186-276 | With nothing thrown away and nothing undefined, what the callback gets is the text again, in order, whatever the dictionary. |
| EdivSplit.SplitKeepsWholeText | lib/eii/ediv.c:186-276 | With nothing thrown away, and only words reported or runs not stepped over, the pieces the callback gets make up the whole text, for every text and dictionary. |
| EdivSplit.OnlyFoundOrRuns | lib/eii/ediv.c:186-276 | When what is unknown is thrown away, every call is a stretch found in the dictionary or, if runs are stepped over, a run. |
| EdivSplit.ThrownExactly | lib/eii/ediv.c:258-272 | Those calls together are the text without exactly the characters at which no word or run begins. |
| EdivSplit.NothingFound | lib/eii/ediv.c:258-272 | With nothing found and no run stepped over there are no calls when what is unknown is thrown away, and else one for each character. |
| EdivSplit.DefinedExactly | lib/eii/ediv.c:230-237 | A dictionary and options keep the source from computing with a null pointer on every text if and only if runs are not stepped over, or only words are reported, or the bit at position 0 is set. |
| EdivSplit.NullExample | lib/eii/ediv.c:230-237 | Otherwise the text `a` makes it do so. |
| EdivSplit.SafeTexts | lib/eii/ediv.c:230-237 | With the two options so, a text is safe under every dictionary that does not find the empty stretch if and only if it consists of three-byte characters. |
| EdivSplit.NoEmptyCalls | lib/eii/ediv.c:205-211 | No call is empty if and only if only words are reported or no word that was set stands at position 0. |
| EdivSplit.ShortestWord | lib/eii/ediv.c:196-211 | Under every option the word taken is the shortest stretch looked up that is found, and if none is taken none is found. |
| EdivSplit.TriedCharacters | lib/eii/ediv.c:201-254 | When runs are not stepped over, the stretches looked up are exactly those of whole characters of less than 45 bytes. |
| EdivSplit.LongestExactly | lib/eii/ediv.c:205-211 | It is the longest stretch looked up that is found if and only if there is only one. |
| EdivSplit.ExtensionNotTaken | lib/eii/ediv.c:205-211 | Of a word and an extension of it, both set, the extension is never taken where the text goes on with it, though it would be looked up and found. |
| EdivSplit.ShorterWordTaken | lib/eii/ediv.c:205-211 | With a letter and two letters in the dictionary, the two letters are cut after the first. |
| EdivSplit.EmptyWordSpoils | lib/eii/ediv.c:196-211 | If the empty stretch is found, every piece is one character. |
| EdivSplit.FullLengthNeverFound | lib/eii/ediv.c:201-201 | A word of 45 bytes is never the one found. |
| EdivSplit.SetWordEndsPiece | lib/eii/ediv.c:196-256 | Where the text goes on with a word that was set, shorter than 45 bytes, that word or a shorter one is found; when runs are stepped over, for words of three-byte characters with at most one run, that ends with the word if it ends it. |
| EdivSplit.TriedExactly | lib/eii/ediv.c:214-241 | When runs are stepped over, of the stretches that end no later than a second run exactly those of three-byte characters and at most one run are looked up. |
| EdivSplit.SecondRunNotFound | lib/eii/ediv.c:236-237 | A word that ends in or with its second run is not the one found, whatever the dictionary. |
| EdivSplit.SecondRunExample | lib/eii/ediv.c:236-237 | A letter, a three-byte character and a letter are such a word. |

## Left out

- TcpFraming.ReceivingIsFraming: is about the recursive call with the leftover length; what the call as written does is stated exactly by TcpFraming.WrittenHandlesExactly.
- Explode.Explode: the memory for pointers must hold as many as the code writes, which for limit 1 can be more than the limit, see Explode.OverrunsExactly.
- Dispatch.Dispatcher.ReadHeader: a message of less than 17 bytes is answered with whatever id the request structure held before, which is left open; ids are laid out as on little-endian hosts, the only ones the source is for.
- Md5Digest.Digest: begins with the byte string, so the UTF-8 step and the replacement of line ends are not modelled, nor the final change to lower case, which changes nothing; undefined array cells read as 0; 32-bit results are taken modulo 2^32; the table of sines is taken as RFC 1321 lists it.
- EdivBitmap.BitmapPos: how a position takes in one more unit is a parameter, because for long words the source shifts beyond 32 bits; what is proved holds for every such mixing.
- EdivDictionary.Dictionary.WordSet: the bitmap has a byte for every position; the source allocates one byte less, so that its last eight positions have none.
- EdivSplit.Split: what the source does after it has subtracted a null pointer is undefined in C and left open; the count of words is not modelled. A callback is always given.
- EdivSplit.SetWordEndsPiece: with EDIV_SOPT_SKIP_NUTF, words that end in or with their second run are not found (EdivSplit.SecondRunNotFound); words that go on after it may be found by chance, where the steps happen to meet their end.
- DriverTable.Mevent.StartDriver: takes the entry the driver's init function made; the thread and the queue it also makes are not part of this model, nor the failure of init.
- Timers.Clock.Handler: walks one plugin's list; the lists of different plugins share nothing but the clock. The timers' functions leave the lists alone.
- jsmin: Dafny characters stand for bytes; what has been written before a failure is modelled but not stated; the comment lines `main` writes for its arguments are not modelled.
- Server: sockets, libevent, threads and signals are steps of the state machine; a lock is the atomicity of a step; `queue_timedwait` is the worker's freedom to find the queue empty, and its error branch (`event/daemon/mevent.c:67-73`) is not modelled.
- Server: allocation is a boolean outcome per message; `event/daemon/parse.c:109-110` reads the size twice without the lock, the model once (with two reads the worker can only make the second smaller, so the bound on a queue holds all the same); counters are unbounded; only the counters of parse.c and tcp.c are modelled, not a plugin's own.
- Requests: the protocol version, the packet limit, the sync flag, `unpack_hdf` and the table of plugins are parameters; net-const.h and the packing library are not part of this model. A name length beyond the payload counts as undecodable.
- Conversation: one connection, whose messages are numbered in the order of its stream, for the call with the leftover length; clients and their sockets are the bytes they exchange.
- Replies: passive mode, the branch of `rep_send` for errors other than would-block, where it and the short reply call each other, and the case of a send that takes 0 bytes.
- Plugin resources freed in `stop_driver`, system commands of `CASE_SYS_CMD` and what a plugin does with a request.
- udp.c, tipc.c, sctp.c: the same replies without reassembly.
- deliver, dida, ksa, grabber, the PHP extensions, lib/eii/div and the other scripts under lib/js.
