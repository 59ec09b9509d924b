# Klyro in Dafny

Klyro is a single-threaded Redis-like server. This project models its hardest state machines and
codecs and proves what they keep. It has no dependencies: `dafny verify dfyconfig.toml` checks it all.

- **Blocking and waking.** Clients park on keys; writes mark keys ready; the loop retries waiters in
  order; a retry can make further keys ready; woken clients go on with their pipelined bytes, which
  can write or park again. `Commands` states each handler as a function of the keyspace, with
  `CommandLaws` and `QueueLaws` about them, and `Meanings` and `Refusals` say of each by the words typed what
  it does, naming no handler; `Keyspaces` runs them in place on one mutable keyspace;
  `Serving` holds the loop's bookkeeping and its history as values, `Framing` what the bytes heard from a
  connection were taken for, `Frames` what every frame sent says; `Servers` is the event loop. Over every
  run: the values the frames handed out balance with the keyspace's; the bytes a client sent are the
  commands taken from it, in order, and each is answered once, in order and with the reply it came to;
  between turns no client that is neither parked nor leaving has a whole request unread; draining the
  ready keys ends and leaves nobody waiting on a key that holds a list; waiters are served oldest
  first; and each is given up on when its own timeout argument says, counted from when it parked.
- **Optimistic transactions.** `Watches` proves the shared version counters, which restart at 0,
  exact against a reference that marks each watching client on every write. The server runs on that
  registry, and `Marks` ties the marks to the history of the run: an EXEC aborts exactly when some event
  touched a key since its client began to watch it. `Transactions` tells from the frames sent which
  transaction a client has open, what its queue holds, and whether it is spoilt.
- **The keyspace and eviction.** `Stores` refines a plain map of values and deadlines by a hash map
  beside two swap-remove index vectors; `Eviction` picks victims from it.
- **The memory index.** `TextIndexes` (tokenizer, inverted index, BM25), `Wording` (what counts as a
  word, in any letter case, and what makes one weigh more), `VectorIndexes` (slot
  allocator), `Memories` (the record store that keeps both in step), `TextCopies` (what a copied index
  answers) and `Fusions` (hybrid ranking).
- **Codecs.** `Requests` (incremental parser), `Typing` (requests from the way they are written), `Resp`
  (replies in both protocols), `Dumps`, `DumpFormats`, `DumpFiles` and `Persistence` (the dump, and saving
  and loading the keyspace).
- **Sorted sets.** `Zsets`, with the index rules they share with lists.

## How it is modelled

Code that changes things step by step is imperative here too: classes with the same fields, methods
with the same loops, each proved against a function or a relation whose own properties are the lemmas.

- One command makes one call of `oracle`, a sequence of `Gate`s: it says which keys expire and which
  are evicted just before the command, whether eviction fell short, and the clock. The theorems about
  the server hold for every oracle, so for every clock and every eviction.
- `Server` joins the application state with the connection table. A connection is its unread bytes,
  its flags, its transaction and, for the record, the commands taken from it and all the bytes ever heard
  from it; frames sent go to one list, `answers`.
- A poll round's inputs are arbitrary: arrivals, and connections reported to have hung up or to have
  bytes, which one read takes. So are the connections that get to close, and the number of rounds. A
  connection that wants to close is not polled any more.
- Scores and weights are exact: reals where arithmetic is done, and the shortest text that reads back
  as the float where a codec carries them. `ln`, powers of one half, vector scaling and float text are
  uninterpreted functions; scaling is assumed idempotent and printing and parsing inverse.
- Times in the keyspace are nanoseconds; a dump carries milliseconds. Time stands still during one
  save and during one load, but the load may come any time later.

## Where the code and its promises part

- **Chunking.** "How the bytes are split does not matter" holds exactly when no inline line grows past
  64 KiB before its newline arrives: an over-long line that comes whole is run, and one that comes in
  pieces is refused. `Requests.ChunkingIndependence` is the equivalence, `Requests.CutLongLine` a stream
  that shows the difference; array requests are never affected (`Requests.PipelineSurvivesAnySplit`).
- **Deadlines in a dump.** A dump rounds the clock and the time left down separately (src/persist.rs:331-336),
  so a deadline can come back one millisecond early, and a key with less than a millisecond left is
  lost even if loaded at once. `Persistence.RestoredToTheMillisecond` and
  `Persistence.SurvivesWithAMillisecondLeft` say exactly when; `Persistence.DeadlinesCanSlip` shows both.
- **Copying a memory index.** COPY indexes every live text again under no cap
  (src/types/memory/mod.rs:641-653). The copy's keyword index is the original's exactly when no text had
  been cut and no record had expired without being swept. What the two answer is another matter, as no
  query shows an expired record (src/types/memory/filter.rs:161-163). `Memories.CopyAnswers` says when they
  answer every query alike, under every logarithm, whatever records a filter lets through: exactly when
  every term stands the same in every live record (`TextCopies.StatisticsTell`). That comes to this:
  - With nothing expired, exactly when no text had been cut, and then any one increasing logarithm tells
    (`TextCopies.NothingExpired`).
  - With no live text cut, exactly when the copy has no terms, or the average length is the same in both and
    so is the idf of every term of a live record: `(n + 1) (2 df' + 1) = (n' + 1) (2 df + 1)`, for n
    documents of which df hold the term, primed in the copy (`TextCopies.NothingCut`).
  - With a live text cut and a record expired it takes a coincidence: the average must be lower in the copy,
    and every live text with a term must have been cut (`TextCopies.SomeGrew`).

  `TextCopies.CutTextAnswersDiffer` and `TextCopies.ExpiredAnswersDiffer` are inputs on which they differ;
  `TextCopies.OnlyExpiredAnswersAlike` and `TextCopies.TwinsAnswerAlike` are inputs on which they do not,
  though records had expired. So the remark that dropping expired records only reclaims memory
  (src/app.rs:161-165) need not hold: until they go they count in the statistics, and the live records
  beside them can score differently.
- **Un-indexing under another cap.** A document is un-indexed under the cap configured at that time
  (src/types/memory/text.rs:161-175), which need not be the one it was indexed under: the cap can be set
  lower, and a copy was indexed under none. The index stays exact just when the terms found under the
  present cap include all the document was indexed under, as under any cap that is not lower
  (`TextIndexes.LargerCapClears`); else a posting of a document that is gone stays behind, and removing
  others does not clear it. `TextIndexes.TextIndex.Remove`, `TextIndexes.TextIndex.Index`,
  `Memories.Memory.Add`, `Memories.Memory.Del` and `Memories.Memory.SweepExpired` state it both ways;
  `TextCopies.CopyThenDeleteLeavesPosting` is COPY and then a delete, under any cap.
- **Re-adding an expired record** that was not swept yet keeps its old deadline, so an added record
  need not be live: `Memories.AddedIsLive` says exactly when it is, `Memories.AddedAgainStaysExpired`
  is an input where it is not. And a refused add still spends a server-assigned id.
- **A record loaded twice.** A dump that lists an id twice loads, but leaks the first one's slot and keeps
  its postings; `Memories.Memory.LoadRecord` says exactly when the indexes stay exact, and
  `TextCopies.LoadedTwiceClashes` is a text that, loaded twice, leaves its only posting list wrong.
- **A refused ZINCRBY.** A sum that is not finite is refused and meant to be undone, so that no infinite
  score gets in (src/commands/zset.rs:86-93). But ZADD lets infinite scores in, and what undoes the sum is
  taking the member out: `Zsets.Zset.Increment` says that it is refused exactly when the increment or the
  member's score is infinite, and that it then leaves the set as it was exactly when the member was not in
  it. `Zsets.RefusedIncrementLosesMember` is a member lost.

## Model

| member | source | states |
|---|---|---|
| `Requests.ParseArrayRequest` | src/resp.rs:310-373 | The cursor loop over an array request computes the reference parser `ParseArray` on every buffer: need more, an error, or the arguments and the bytes consumed |
| `Requests.ParseInlineRequest` | src/resp.rs:380-442 | The quoting state machine over one inline line computes the reference `ParseInline`, errors and the too-big case included |
| `Requests.ParseRequest` | src/resp.rs:299-308 | The whole parser computes `Parse` on every buffer and consumes at least one byte when it yields a request |
| `Requests.ParseStable` | src/resp.rs:299-442 | An answer other than the too-big-inline error does not change when more bytes arrive |
| `Requests.CommandRoundTrip` | src/resp.rs:310-373 | The array encoding of any argument vector within the limits, followed by anything, parses to that vector and consumes exactly its own length |
| `Requests.PrefixNeedsMore` | src/resp.rs:299-373 | Every proper prefix of such an encoding asks for more bytes |
| `Requests.DrainAppend` | src/server.rs:221-273 | Draining a buffer and then draining what is left with the next chunk gives the requests of draining both at once, unless the too-big error struck |
| `Requests.DrainTooBig` | src/server.rs:221-273 | When the too-big error strikes, what the drain yields and where it stops |
| `Requests.ChunkingIndependence` | src/server.rs:203-272 | Feeding any chunks one by one yields the same requests, leftover and error as feeding them joined, if and only if no chunk boundary leaves an over-long inline line unfinished |
| `Requests.CutLongLine` | src/resp.rs:375-395 | One word of 65537 bytes and then its line feed: in one piece it is that command, cut before the line feed it is the too-big error |
| `Requests.CommandsNeverOverlong` | src/resp.rs:299-373 | A stream of array requests never runs into that exception |
| `Requests.PipelineSurvivesAnySplit` | src/server.rs:203-272 | Any list of argument vectors, encoded back to back and split anywhere, is read back exactly, in order, with nothing left over |
| `Requests.InlineUndoesQuoting` | src/resp.rs:380-442 | A line of double-quoted words with escapes for backslash, quote, newline and return parses back to the words, of any bytes, and consumes exactly that line |
| `Typing.InlineReadsAsTyped` | src/resp.rs:380-442 | A line of any words, each of pieces typed bare, in single quotes or in double quotes with escapes, set apart by any blanks, parses to the texts of its words and consumes exactly its bytes; in single quotes nothing is escaped |
| `Typing.OpenQuoteIsRefused` | src/resp.rs:380-442 | A line that ends inside a quote is refused, whatever words came before it |
| `Typing.UnendedLine` | src/resp.rs:386-398 | A line that has not ended is waited for as long as it has at most 65536 bytes, and refused beyond |
| `Typing.CountDecides` | src/resp.rs:311-335 | An array of none or fewer is an empty request; more than 1048576, or a count that is no number of 64 bits, is refused |
| `Typing.OnlyBulks` | src/resp.rs:337-347 | An element that does not begin as a bulk string is refused, and the error names its first byte |
| `Typing.LengthDecides` | src/resp.rs:348-361 | A bulk length that is no number, negative or over the limit is refused |
| `Typing.PayloadEnds` | src/resp.rs:276-291 | A payload of any bytes is taken whole, with the `\r\n` or the one byte of any other kind that ends it; a lone `\r` is waited on |
| `Typing.SpacesAroundIgnored` | src/resp.rs:293-295 | White space around the number of a header, Unicode white space in UTF-8 included, changes nothing |
| `ByteStrings.IntegersRead` | src/resp.rs:293-295 | Exactly the texts of an optional sign and digits that say a number of 64 bits are read as numbers, each as the one it says |
| `Resp.Encode` | src/resp.rs:137-231 | The encoder appends exactly the wire form of a reply, in either protocol, for replies nested to any depth |
| `Resp.EncodeMap` | src/resp.rs:137-231 | A map is a RESP3 map of pairs, or flattened to an array of twice as many elements in RESP2 |
| `Resp.EncodeScored` | src/resp.rs:137-231 | Scored members are nested pairs in RESP3 and flattened in RESP2 |
| `Resp.EncodeAggregate` | src/resp.rs:233-240 | An aggregate is its marker, its count and its elements in order |
| `Resp.DecodeWire` | src/resp.rs:137-248 | A reference decoder applied to the wire form of any sound reply followed by any bytes returns the normal form of the reply and exactly those bytes |
| `Resp.StreamDecodes` | src/resp.rs:137-248 | A whole stream of replies is decoded back, reply by reply |
| `Resp.WireInjective` | src/resp.rs:137-248 | Two sound replies share a wire form only if their normal forms are equal |
| `ByteStrings.MarkingBytes` | src/resp.rs:137-253 | The bytes that mark out requests and replies are those of their characters |
| `Resp.BreaksBecomeSpaces` | src/resp.rs:137-231 | An error message is sent at its own length, byte for byte, a space standing for each line break |
| `Commands.WrittenKeysOf` | src/commands/keyspec.rs:227-258 | The loop that collects the keys a command writes computes `WrittenBy`, the table of writes, on every argument vector |
| `CommandLaws.PopManyLaw` | src/commands/list.rs:49-53 | Popping up to n values off one key takes exactly those copies out of the keyspace, touches no other key and leaves no empty list |
| `CommandLaws.MoveOneStock` | src/commands/list.rs:57-78 | A move, a one-element self-move included, neither loses nor copies a value |
| `CommandLaws.MoveOneLaw` | src/commands/list.rs:57-78 | A move happens exactly when the source holds a list, changes only the two keys and makes only the destination a list |
| `CommandLaws.PopFirstLaw` | src/commands/blocking.rs:261-272 | The first key that holds a list is popped; a key of another type met before it is an error; otherwise nothing changes and none of the keys exists |
| `CommandLaws.MpopLaw` | src/commands/blocking.rs:274-292 | The same for a counted pop over several keys, with all popped values accounted for |
| `CommandLaws.PushLawful` | src/commands/list.rs:88-105 | A push adds exactly the values given to one key the table names, or changes nothing |
| `CommandLaws.PopLawful` | src/commands/list.rs:107-143 | LPOP and RPOP hand out in their reply exactly what leaves the keyspace |
| `CommandLaws.MoveLawful` | src/commands/blocking.rs:73-97 | The four move commands keep the books and park only on a missing source, outside EXEC |
| `CommandLaws.BlockingPopLawful` | src/commands/blocking.rs:58-69 | BLPOP and BRPOP keep the books and park only when none of their keys exists, outside EXEC |
| `CommandLaws.MpopLawful` | src/commands/blocking.rs:101-124 | LMPOP and BLMPOP keep the books; the keys they write are the ones their key count names |
| `CommandLaws.SetLawful` | src/commands/string.rs:259-348 | SET destroys what it overwrites and nothing else, and changes nothing when its options fail |
| `CommandLaws.DelLawful` | src/commands/generic.rs:42-46 | DEL destroys exactly what its keys held |
| `CommandLaws.RenameLawful` | src/commands/generic.rs:113-128 | RENAME and RENAMENX destroy only what was at the new name and touch only the two keys |
| `CommandLaws.CopyLawful` | src/commands/generic.rs:130-141 | COPY adds a copy of the source and destroys what it replaces |
| `CommandLaws.FlushLawful` | src/commands/generic.rs:153-156 | A flush destroys everything |
| `CommandLaws.RunLawful` | src/commands/mod.rs:294-365 | Every modelled command, on every keyspace: no empty collection is left, an error changed nothing, every changed key is one the table of writes names, values after plus handed out plus destroyed equal values before plus pushed; one that parks changed nothing, is not in EXEC, and none of its keys exists |
| `CommandLaws.WaitersOnlyShrink` | src/commands/blocking.rs:48-196 | A retried command makes no key a list, except a move its destination |
| `CommandLaws.WaitsAlike` | src/commands/blocking.rs:177-196 | What a command waits on and its timeout reply depend on its arguments alone, so a retry parks on the same keys |
| `CommandLaws.PopIsServed` | src/commands/blocking.rs:58-69 | A pop waiting on one key is never sent back, nor refused, while that key holds a list |
| `CommandLaws.PopGivenMeansList` | src/commands/blocking.rs:58-69 | And it is given a value only if that key holds a list |
| `CommandLaws.ListMeansAnswer` | src/commands/blocking.rs:177-196 | A command does not wait on a key that holds a list |
| `QueueLaws.PushesInOrder` | src/commands/list.rs:88-105 | Pushing on the right appends the values in order; pushing on the left puts them in front, the last first |
| `QueueLaws.PopsInOrder` | src/commands/list.rs:107-143 | Counted pops on either end take the values next to that end, in order from it, leave the rest, and drop the key with its last value |
| `QueueLaws.FirstInFirstOut` | src/commands/list.rs:86-143 | Values pushed on the right of a fresh key come out on the left in the order they went in, and the keyspace is as it was |
| `QueueLaws.LastInFirstOut` | src/commands/list.rs:86-143 | Values pushed on the left come out on the left in the opposite order, and the keyspace is as it was |
| `QueueLaws.MoveThereAndBack` | src/commands/list.rs:57-78 | A value moved to another list and back leaves no trace, whether the move emptied the one list or created the other |
| `QueueLaws.RotationComesRound` | src/commands/list.rs:57-78 | Rotating a list onto itself as often as it is long, a list of one included, brings back the keyspace |
| `Meanings.PopsByWord` | src/commands/list.rs:107-143 | On any keyspace where the key holds a list, LPOP in any letter case answers its first value and leaves the rest, RPOP its last; a key left empty is gone |
| `Meanings.CountedPopsByWord` | src/commands/list.rs:107-143 | With a count LPOP takes that many from the front in order, RPOP from the back, the last first, as far as the list goes |
| `Meanings.PopsOfNothing` | src/commands/list.rs:107-143 | From a key that is not there they take nothing and answer a null; a key of another kind is refused and kept |
| `Meanings.PushesByWord` | src/commands/list.rs:86-105 | LPUSH puts its values in front, the last first, RPUSH behind, in order, and both answer the new length; LPUSHX and RPUSHX only if the list is there |
| `Meanings.PushesOnOthers` | src/commands/list.rs:88-105 | A push on a key of another kind is refused and changes nothing |
| `Meanings.BlockingPopsByWord` | src/commands/blocking.rs:58-69 | BLPOP takes the first value of the first list among its keys, BRPOP the last, and says which key it was |
| `Meanings.MpopsByWord` | src/commands/blocking.rs:101-124 | LMPOP and BLMPOP take up to the count asked for off the side named, in order from that side, from the first list among their keys |
| `Meanings.PopPushesByWord` | src/commands/list.rs:57-78 | RPOPLPUSH and BRPOPLPUSH take the last value and put it first, in another list or in the same one |
| `Meanings.SidedMovesByWord` | src/commands/blocking.rs:73-97 | LMOVE and BLMOVE take from the side their first word names and put on the side their second word names |
| `Meanings.ParksAsAsked` | src/commands/blocking.rs:177-213 | Only BLPOP, BRPOP, BLMOVE, BRPOPLPUSH and BLMPOP park, on the keys they name; the deadline is now plus the milliseconds of the timeout argument, and there is none if and only if that argument says for ever |
| `Meanings.GivesUpInExec` | src/commands/blocking.rs:177-196 | Inside EXEC a command that would park answers its null at once, and anything else comes to what it would outside |
| `Meanings.BadTimeouts` | src/commands/blocking.rs:198-213 | A timeout that is no number, negative or infinite refuses the command, each with its own message, and changes nothing |
| `Meanings.SetByWord` | src/commands/string.rs:259-348 | SET stores its second argument under its first unless NX meets a key or XX none; GET answers what was there before, and is refused if that is no text; times may stand among the options |
| `Meanings.DelByWord` | src/commands/generic.rs:42-46 | DEL and UNLINK take out the keys named and count those that were there |
| `Meanings.RenameByWord` | src/commands/generic.rs:113-128 | RENAME and RENAMENX put what was at the first key at the second and nothing at the first, RENAMENX not over a key |
| `Meanings.CopyByWord` | src/commands/generic.rs:130-141 | COPY puts what is at the first key at the second too, over a key only with REPLACE |
| `Meanings.FlushByWord` | src/commands/generic.rs:153-156 | FLUSHDB and FLUSHALL leave nothing |
| `Meanings.PlainByWord` | src/commands/server.rs:50-87 | PING answers PONG or what it was sent, QUIT and UNWATCH answer OK, a word that names no command is refused, and none changes the keyspace |
| `Meanings.NameSpelled` | src/commands/mod.rs:201-258 | A word of the table, in any letter case, is the command beside it and no other |
| `Meanings.NothingSpelled` | src/commands/mod.rs:201-258 | Any other word is an unknown command |
| `Meanings.WritesAsNamed` | src/commands/keyspec.rs:227-258 | Which arguments each command writes: the key that is popped or pushed, both keys of a move, all keys of a counted pop, everything for a flush |
| `Meanings.RefusedForMemory` | src/commands/keyspec.rs:164-220 | Exactly the commands that can make the keyspace grow are refused while memory is short, by name |
| `Meanings.OthersNeverGrow` | src/commands/keyspec.rs:155-215 | And those that are not refused leave no more copies of any value |
| `Refusals.MiscountsRefused` | src/commands/mod.rs:111-126 | Each command with too few or too many arguments is refused and changes nothing |
| `Refusals.CountsRefused` | src/commands/list.rs:115-130 | A count of LPOP or RPOP that is no number, or is negative, refuses it |
| `Refusals.WrongCountsRefused` | src/commands/blocking.rs:215-260 | A wrong key count, too few keys or a wrong COUNT refuses LMPOP and BLMPOP, each with its own message |
| `Refusals.MovesOfNothing` | src/commands/blocking.rs:73-97 | A move from or to a key of another kind is refused; from a key that is not there it answers a null, at once or, if it can wait and is not in EXEC, by parking |
| `Refusals.SidesRefused` | src/commands/blocking.rs:73-97 | A side that is neither LEFT nor RIGHT is refused |
| `Refusals.BlockingPopsOfNothing` | src/commands/blocking.rs:58-69 | BLPOP and BRPOP park when none of their keys is there, in EXEC they answer a null; meeting a key of another kind first they are refused |
| `Refusals.MpopsOfNothing` | src/commands/blocking.rs:101-124 | So do LMPOP and BLMPOP, but LMPOP never parks |
| `Refusals.WrongOptionRefused` | src/commands/string.rs:259-348 | The first wrong option refuses SET: an unknown word, a time without its number, one that is no number, or none left from now on |
| `Keyspaces.PopItemsIsPopMany` | src/commands/list.rs:107-143 | Popping a list in hand and cleaning up once is popping the key that many times |
| `Keyspaces.Keyspace.Execute` | src/commands/mod.rs:381-396 | Every handler, run in place, leaves the keyspace and reports the reply or the wait that `Run` says, which `Meanings` and `Refusals` say by name |
| `Keyspaces.Keyspace.Move` | src/commands/list.rs:57-78 | The move in place, push before cleanup, is `MoveOne` |
| `Keyspaces.Keyspace.PopFirst` | src/commands/blocking.rs:261-272 | The loop over keys is `PopFirstList`, and changes nothing unless it popped |
| `Keyspaces.Keyspace.Mpop` | src/commands/blocking.rs:274-292 | The loop over keys is `MpopLists`, and changes nothing unless it popped |
| `Keyspaces.Keyspace.Pop` | src/commands/list.rs:107-143 | LPOP and RPOP in place are `RunPop` |
| `Keyspaces.Keyspace.Push` | src/commands/list.rs:88-105 | The push loop in place is `RunPush` |
| `Keyspaces.Keyspace.MoveOrWait` | src/commands/blocking.rs:73-97 | BLMOVE moves, answers or parks as `RunBlockingMove` says; by `Meanings.ParksAsAsked` the deadline is the one its timeout argument asks for |
| `Keyspaces.Keyspace.PopOrWait` | src/commands/blocking.rs:58-69 | BLPOP pops, answers or parks as `RunBlockingPop` says; by `Meanings.ParksAsAsked` the deadline is the one its timeout argument asks for |
| `Keyspaces.Keyspace.MpopOrWait` | src/commands/blocking.rs:101-124 | BLMPOP pops, answers or parks as `RunBlockingMpop` says; by `Meanings.ParksAsAsked` the deadline is the one its timeout argument asks for |
| `Serving.Conservation` | src/commands/list.rs:29-78 | Over any history of commands, expiries and evictions: for every value, copies in lists plus copies in replies plus copies destroyed equal the copies at the start plus those pushed |
| `Serving.NewListsAreSignalled` | src/commands/mod.rs:352-365 | A command that turns a key into a list signals that key, whatever the command |
| `Serving.StaysAwake` | src/app.rs:75-94 | So after any command every waiter whose key holds a list has that key among the ready ones |
| `Serving.RetryOrder` | src/commands/mod.rs:369-379 | What a retry can do to the order of service, whichever way it ends |
| `Serving.OrderStep` | src/server.rs:301-349 | One visit of a serving pass keeps "nobody is served ahead of an earlier contender" |
| `Serving.SplitByDeadline` | src/app.rs:123-135 | Taking out the waiters that are due splits the registry into the due and the rest, each in order, each client still at most once |
| `Serving.ForgetOne` | src/app.rs:99-105 | Closing a connection removes its waiter and leaves everyone else properly parked |
| `Framing.FramedDrains` | src/server.rs:203-273 | However the bytes heard were split, draining them all at once yields the commands taken and then what the buffer still drains to; or, where framing broke off and the connection is to close, exactly the commands taken and an error |
| `Framing.FramedPipeline` | src/server.rs:203-273 | Of the beginning of any encoded pipeline of commands, the commands taken are the first of these |
| `Framing.FramedWhole` | src/server.rs:203-273 | Of the whole of it, once the buffer holds no request, they are all of these and no byte is left |
| `Servers.AttemptKeeps` | src/commands/mod.rs:294-365 | Whatever expires or is evicted before it, a command that runs, is refused for memory or parks keeps every waiter awake, given the keys it signals |
| `Servers.Server.SignalWrites` | src/commands/mod.rs:352-365 | A failed or parked command signals nothing; any other signals the listed keys that now hold a list or a sorted set, or every waited key after a flush |
| `Servers.Server.Control` | src/commands/transactions.rs:72-132 | MULTI, EXEC, DISCARD, WATCH and RESET: a well-formed EXEC of an unspoilt transaction answers the null array if and only if the history, with the keys evicted for this command, has some key touched since this client began to watch it; the reply, the transaction after it and the watches begun and ended are exactly the command's (`Transactions.ControlSays`), and the marks of every client stay what the history says |
| `Servers.Server.Exec` | src/commands/transactions.rs:167-208 | EXEC refuses, aborts exactly when the history has a watched key touched, or runs the queue: one frame with one reply per queued command in order, each the reply that command came to, never a parked command; the transaction and the watch are over, and every client's marks are what the history says |
| `Servers.Server.BreakOff` | src/commands/transactions.rs:160-182 | The version comparison at EXEC says whether the history has a key touched since this client began to watch it, and ends its watch |
| `Servers.Server.BeginWatch` | src/commands/transactions.rs:135-141 | WATCH adds its keys, one by one, to what the history says this client watches |
| `Servers.Server.MarksOverTheRun` | src/commands/transactions.rs:158-165 | In every reachable state, a key is held against a client exactly if some event of the run touched it after the client began to watch it and the client has not stopped since; and the watches begun and ended are exactly those its frames tell of |
| `Marks.DirtyMeansTouchedSince` | src/commands/transactions.rs:158-165 | Over any history the accumulated marks of a client are the keys some later event touched, with no end of the watch in between |
| `Marks.FitExecuted` | src/app.rs:75-94 | Marking, after a command, the clients that watch a key it wrote (all watched keys after a flush, none after an error) is what the history with that command says of every client |
| `Marks.FitBegan` | src/commands/transactions.rs:135-141 | A longer list and no new mark is what the history with that WATCH says, of its client and of every other |
| `Servers.Server.RunPlain` | src/commands/mod.rs:294-324 | Any other command: the frame carries exactly the reply the command came to on the keyspace without the keys that went away, or the refusal for memory, and the keyspace is what it left; or it parks with its keys, deadline and timeout reply |
| `Servers.Server.Queue` | src/commands/transactions.rs:41-70 | Inside MULTI a known command is queued last and an unknown one spoils the transaction |
| `Servers.Server.SignalModified` | src/app.rs:75-86 | A write marks the key for exactly its watchers and makes it ready if it can wake a waiter |
| `Servers.Server.Dispatch` | src/commands/mod.rs:276-288 | The response is exactly what `Dispatched` says: inside MULTI queued or spoiling the transaction; a control command's answer; EXEC's array of what its queue replied; or the reply of the command run; and the keyspace lands where that command leaves it |
| `Servers.Server.TakeCommand` | src/server.rs:221-250 | One command off the buffer: the response `Dispatched` allows, sent as exactly one frame with exactly that reply, or parked at the end of the registry; an EXEC is answered by what the frames tell of the open transaction, one reply for each command they queued |
| `Servers.Server.ProcessRequests` | src/server.rs:221-273 | The drain takes exactly the requests the parser finds, in order, adds them to the commands taken, and leaves off only when the buffer holds no whole request or the client is parked or is to close; a blocked client's bytes are not touched; twice the unread bytes plus the parked commands does not grow |
| `Servers.Server.Retry` | src/commands/mod.rs:369-379 | A retry answers the waiter once with the reply of its command, or changes nothing but the keys that went away and none of its keys exists |
| `Servers.Server.ServePass` | src/server.rs:305-345 | One pass: the frames sent are retries' own replies, in the waiters' order; waiters that stay keep their order, connections keep everything but the blocked flag, a pass that releases nobody leaves no key ready; and a frame of this pass gives a value to a later client waiting on one key alone only if one gives a value to every earlier open client waiting on that key alone, when no parked move targets the key |
| `Servers.Server.Resume` | src/server.rs:373-379 | Each woken client goes on with its buffered bytes until they hold no whole request or it is parked again or is to close; nobody else changes; newcomers park behind everyone; bytes heard stay as they were |
| `Servers.Server.ServeReadyKeys` | src/server.rs:301-349 | It ends, although retries make keys ready and woken clients park again: and then no key is ready, no parked command waits on a key that holds a list, those who still wait stand in their old order ahead of newcomers, and if no open client had a whole request unread then none has |
| `Servers.Server.TakeTimedOut` | src/app.rs:123-135 | The in-place index loop removes exactly the due waiters and returns them in order |
| `Servers.Server.ServeTimeouts` | src/server.rs:352-368 | Each due waiter whose client has not hung up gets its own timeout reply, once, in order; the others keep their places; and whoever was released has its buffered bytes dealt with |
| `Servers.Server.Receive` | src/server.rs:203-214 | One report on a connection: what was read is added, whole, to what was heard from it; a hang-up or an empty read asks to close; then no whole request is left unread, but of a parked client only the bytes grow; nobody else changes |
| `Servers.Server.TakeInputs` | src/server.rs:406-470 | The reports of a turn, in order: of every connection still open, what was heard grew by exactly the bytes delivered to it; no whole request is left unread if none was; nobody leaves, and a wish to close is not taken back |
| `Servers.Server.GiveUp` | src/server.rs:352-368 | The waiters given up on are answered in order, each with its own timeout reply, unless hung up; of their connections only the blocked flag changes |
| `Servers.Server.Close` | src/app.rs:99-105 | A closed connection leaves no waiter behind and disturbs nobody |
| `Servers.Server.CloseSome` | src/server.rs:480-494 | Of the connections that may close now exactly those go that want to, each with its waiter; nobody else changes |
| `Servers.Server.PollOnce` | src/server.rs:406-494 | One turn of the loop keeps every invariant. Every byte delivered to a connection still open was heard, and no whole request is left unread if none was before; unless somebody was due, nobody is left waiting on a key that holds a list; whoever was due, by the timeout argument of its own command counted from when it parked, and is still open was sent its timeout reply, and the others who are open wait on; nobody is gone but who might close, and nobody who might and wants to is left |
| `Servers.Server.RunLoop` | src/server.rs:151-170 | Any number of turns with any inputs keeps every invariant; between turns no open, unparked client has a whole request unread; and every connection still open has heard exactly the bytes delivered to it, in order |
| `Transactions.ControlSays` | src/commands/transactions.rs:72-132 | An accepted MULTI leaves exactly an empty, unspoilt transaction and one inside another is refused; an accepted DISCARD, and RESET, leave none; WATCH leaves it as it was |
| `Transactions.DispatchSays` | src/commands/transactions.rs:41-70 | With a transaction open a known command is answered `+QUEUED` and an unknown one an error, and neither runs; a connection is to close exactly after QUIT ran |
| `Transactions.DispatchFollows` | src/commands/mod.rs:276-324 | Whatever is dispatched, the transaction after it is the one the frames sent tell of |
| `Transactions.FramesTell` | src/commands/transactions.rs:41-132 | By the frames a client was sent, its transaction is open exactly if an accepted MULTI was not ended since, is spoilt exactly if an unknown command came since, and holds exactly the known ones that came since, in order |
| `Transactions.ExecAnswersTheQueue` | src/commands/transactions.rs:167-208 | A well-formed EXEC with no transaction open, with a spoilt one, with a watched key touched, and otherwise: one reply for each command queued since the accepted MULTI, in order |
| `Servers.Server.TransactionsOverTheRun` | src/commands/transactions.rs:41-132 | In every reachable state each connection has the transaction its frames tell of: spoilt if and only if an unknown command came since its last accepted MULTI, its queue the other commands since |
| `Servers.Server.DueByArgument` | src/app.rs:123-135 | In every reachable state a waiter is due exactly when the duration its command asked for has passed since it parked |
| `Servers.Server.BooksBalance` | src/commands/list.rs:29-78 | In every reachable state, for every value: copies in the lists, plus copies in the frames sent, plus copies destroyed, equal the copies at the start plus those pushed |
| `Servers.Server.OneReplyEach` | src/server.rs:221-368 | In every reachable state each client's commands were answered once each, in order, by frames that fit their commands: the reply of the one command that ran, EXEC's array of what ran for it, a control command's answer, an acknowledgement or refusal to queue, or a timeout; a blocked one still owes its last answer and, unless it hung up, that very command is parked; nobody is parked twice |
| `Servers.Server.BytesBecameCommands` | src/server.rs:203-273 | In every reachable state, for every connection: draining at once all it ever sent yields the commands accepted from it and then what its buffer still drains to; or, if framing broke off, the commands accepted and an error |
| `Servers.Server.PipelineAccepted` | src/server.rs:203-273 | So of a client that sent the beginning of an encoded pipeline, split anyhow over any run, the commands accepted are the first of it; and all of it, if it sent all and is neither parked nor to close |
| `Frames.FramesHandWhatRan` | src/server.rs:221-368 | What the replies of frames that fit hand to clients, an EXEC's reply by reply, is what the commands that ran handed out |
| `Frames.DispatchedFits` | src/commands/mod.rs:276-324 | Every response that dispatching can come to fits its command |
| `Watches.Watch.Touch` | src/watch.rs:65-69 | A write moves a watched key's version on and records nothing for an unwatched one |
| `Watches.Watch.TouchAll` | src/watch.rs:73-77 | A flush moves every version on |
| `Watches.Registry.WatchOne` | src/commands/transactions.rs:135-141 | Watching adds the key once, at its current version; watching again keeps the first reading |
| `Watches.Registry.UnwatchAll` | src/app.rs:109-113 | Dropping a client's list entry by entry never underflows a count and leaves every other client's list exact |
| `Watches.Registry.Touch` | src/watch.rs:65-69 | A write makes exactly the clients watching the key dirty |
| `Watches.Registry.TouchAll` | src/watch.rs:73-77 | A flush makes every watching client dirty on every key it watches |
| `Watches.Registry.WatchBroken` | src/commands/transactions.rs:160-165 | Comparing versions says exactly whether some watched key was touched since this client began to watch it, although versions restart at 0 |
| `Watches.Registry.ExecCheck` | src/commands/transactions.rs:167-182 | EXEC is told to abort exactly in that case, and the watch is over either way |
| `Watches.Registry.Forget` | src/app.rs:99-105 | A departing client leaves no count behind |
| `Watches.Registry.TracksExactlyTheWatched` | src/watch.rs:36-55 | A key is tracked exactly when some client watches it |
| `Watches.WatchStep` | src/watch.rs:36-43 | Registering keeps every count equal to the number of clients listing the key and every list exact |
| `Watches.DropStep` | src/watch.rs:47-55 | So does unregistering, where the last watcher out forgets the key |
| `Values.EmptyCollections` | src/store.rs:77-90 | What a keyspace never keeps: an empty list, hash, set or sorted set; an empty string and an empty index are kept |
| `Stores.Store.InsertEntry` | src/store.rs:227-241 | Installing an entry is a map update; an overwrite keeps its slots; both index vectors stay right |
| `Stores.Store.RemoveEntry` | src/store.rs:256-270 | Removing an entry is a map removal; both vectors are repaired after the swap-remove |
| `Stores.Store.DetachVolatile` | src/store.rs:273-280 | Leaving the volatile vector moves its last key into the hole and repairs that key's pointer |
| `Stores.Store.SyncVolatile` | src/store.rs:285-301 | Brings the volatile vector in line with the entry's expiry and changes no contents |
| `Stores.Store.ExpireIfDue` | src/store.rs:322-329 | A key is dropped exactly if its deadline has passed |
| `Stores.Store.Find` | src/store.rs:342-350 | A lookup never sees a stale entry and makes what it finds the most recently used |
| `Stores.Store.SetExpireAt` | src/store.rs:455-465 | Sets or clears a live key's deadline and nothing else |
| `Stores.Store.Rename` | src/store.rs:496-507 | Moves value and deadline onto the new name, replacing what was there; renaming onto itself changes nothing |
| `Stores.Store.Copy` | src/store.rs:512-521 | Copies value and deadline; says missing, taken or done |
| `Stores.Store.Flush` | src/store.rs:524-531 | Empties the map and both vectors and counts what went |
| `Stores.Store.SweepExpired` | src/store.rs:560-573 | Leaves exactly the live keys |
| `Stores.Store.Sample` | src/store.rs:587-618 | The candidates are exactly those of the draws that fall on a live key, in the order drawn, with that key's own access data and deadline; only keys with an expiry when asked |
| `Stores.Store.Evict` | src/store.rs:630-636 | Removes the key whatever its deadline, and says whether it was there |
| `Stores.Store.KeysArePermutation` | src/store.rs:945-965 | `keys` lists every key of the map exactly once |
| `Stores.Store.VolatileIsPermutation` | src/store.rs:945-965 | `volatile` lists every key with an expiry exactly once |
| `Stores.RemoveIndexed` | src/store.rs:256-280 | A removal with both swap-remove repairs leaves every slot pointing at its own entry |
| `Stores.RemoveVolatileIndexed` | src/store.rs:273-280 | The same for the volatile vector alone |
| `Eviction.ChosenByPolicy` | src/evict.rs:88-111 | The choice, policy by policy: least recently used; least frequently used and of those least recently; soonest to expire, keys without a deadline last; the first drawn |
| `Eviction.Choose` | src/evict.rs:88-111 | The victim is a minimum of the sample under the policy's order, the first drawn among equals; none under noeviction or from an empty sample |
| `Eviction.Evictor.EvictOne` | src/evict.rs:141-174 | One key is given up: the policy's choice from the sample drawn, which is live; its watchers are told; none exactly when the sample is empty, and then there was no key the policy may take or an expired one was drawn |
| `Eviction.Evictor.MakeRoom` | src/evict.rs:141-174 | True exactly within the limit; false only under noeviction, after 10000 keys, or with nothing the policy may take; a key goes only while memory is over the limit; exactly the named keys are gone, each counted once and each watcher told once; each was a minimum, under the policy's order, of a sample of the keys still there with their access data as it was before; only keys with an expiry under a volatile policy, only live ones |
| `TextIndexes.Tokenize` | src/types/memory/text.rs:53-67 | The accumulator loop computes `Tokens` for every text and cap, which `Wording` says of words in any letter case |
| `Wording.CaseIgnored` | src/types/memory/text.rs:53-67 | Texts that differ only in the case of ASCII letters have the same terms under every cap |
| `Wording.TermsAreWordlike` | src/types/memory/text.rs:53-80 | No term holds a capital letter or a byte that separates words, is a single byte, or is a stopword |
| `Wording.TermsAreTheWords` | src/types/memory/text.rs:53-80 | The terms of words set apart by anything are those words in small letters, without single bytes and stopwords, in order, up to the cap |
| `Wording.StopwordsAre` | src/types/memory/text.rs:27-37 | Which words are too common to index |
| `Wording.WeightOfCounts` | src/types/memory/text.rs:180-229 | A term that occurs more often weighs more, but never 2.2 times its idf; one that occurs once in a document of average length weighs just its idf |
| `Wording.WeightOfLengths` | src/types/memory/text.rs:180-229 | In a longer document a term weighs less |
| `Wording.RarerIsWorthMore` | src/types/memory/text.rs:180-229 | A term that fewer documents hold is worth more under every increasing logarithm |
| `Wording.BestComeFirst` | src/types/memory/text.rs:192-229 | Hits are listed by score, ties by id, and none left out scores higher than one listed |
| `TextIndexes.SmallerCapIsPrefix` | src/types/memory/text.rs:53-80 | Tokens under a smaller cap are a prefix of those under a larger one |
| `TextIndexes.LargerCapClears` | src/types/memory/text.rs:161-175 | Un-indexing a text under a cap at least as large as the one it was indexed under clears every term |
| `TextIndexes.CapHolds` | src/types/memory/text.rs:53-80 | The cap is never exceeded |
| `TextIndexes.CapsAgree` | src/types/memory/text.rs:53-80 | Two caps find the same terms in a text exactly when the smaller one does not cut it |
| `TextIndexes.TermFrequencies` | src/types/memory/text.rs:82-88 | Lists each distinct term once with its count |
| `TextIndexes.TextIndex.Index` | src/types/memory/text.rs:139-156 | The postings, lengths and total after (re)indexing under any cap, exactly; from an exact index they are again exactly those of the documents, this one replaced, if and only if un-indexing the previous text under this cap clears every term the document had |
| `TextIndexes.TextIndex.Remove` | src/types/memory/text.rs:161-175 | The postings, lengths and total after un-indexing under any cap, exactly; from an exact index they are exactly those of the other documents if and only if the terms found under this cap include every term the document had, and otherwise a posting stays behind, which no later removal clears |
| `TextIndexes.Reindexed` | src/types/memory/text.rs:139-175 | Stripping a document of some terms and adding it again comes out exact exactly when those terms were all it had |
| `TextIndexes.TextIndex.InverseFrequency` | src/types/memory/text.rs:180-184 | The idf of the length of the posting list; on an exact index, of the number of stored documents holding the term |
| `TextIndexes.TextIndex.AddWorth` | src/types/memory/text.rs:205-219 | One posting list adds to each eligible document on it what its postings there weigh, and leaves every other score alone |
| `TextIndexes.TextIndex.Search` | src/types/memory/text.rs:192-229 | On any index, exact or not, the first `limit`, by score then id, of the eligible documents on the posting lists of the query, scored from the postings; on an exact index these are all stored documents that pass the filter and share a query term, each scored by BM25 straight from the stored token lists |
| `TextIndexes.IndexIsExact` | src/types/memory/text.rs:192-229 | What an exact index scores is BM25 over the documents, document by document |
| `TextIndexes.RankingUnique` | src/types/memory/text.rs:220-229 | There is one such ranking |
| `TextIndexes.PostingsExact` | src/types/memory/text.rs:139-175 | On a consistent index a posting list names each holder of its term once, with its count |
| `TextCopies.WorthsTell` | src/types/memory/text.rs:192-229 | Under one logarithm two collections answer every query alike, for all filters that show documents of the second only, exactly when every term is worth the same to every document of the second; searches for one word, with no filter, already tell |
| `TextCopies.StatisticsTell` | src/types/memory/text.rs:180-229 | Under every logarithm, exactly when each term has the same holders among those documents, the same idf, and counts in proportion to what the lengths make of them |
| `TextCopies.NothingExpired` | src/types/memory/mod.rs:641-653 | If every document was copied, each with perhaps more terms behind, then under any one increasing logarithm the answers are alike exactly when nothing was added |
| `TextCopies.NothingCut` | src/types/memory/mod.rs:641-653 | If the copied documents are as they were, the answers are alike exactly when they have no terms, or the average length is the same in both and so is the idf of every term they hold |
| `TextCopies.SomeGrew` | src/types/memory/mod.rs:641-653 | If a copied document grew and the answers are alike all the same, the average length is lower in the copy, so a document was not copied, and every copied document with a term grew |
| `TextCopies.WordReadsBack` | src/types/memory/text.rs:53-80 | A term found in any text, under any cap, is the one term of the query that spells it |
| `TextCopies.CutTextAnswersDiffer` | src/types/memory/mod.rs:641-653 | Under any cap there is a text of which a copy finds, by its last word, what the original does not |
| `TextCopies.CopyThenDeleteLeavesPosting` | src/types/memory/text.rs:161-175 | Un-indexing that text on the copy, under the cap, leaves a posting of it behind |
| `TextCopies.ExpiredAnswersDiffer` | src/types/memory/mod.rs:590-601 | One live record beside one that expired unswept: its score in the original and in the copy are the logarithms of 6/5 and 4/3 |
| `TextCopies.OnlyExpiredAnswersAlike` | src/types/memory/mod.rs:590-601 | With nothing but a record that expired unswept, original and copy answer alike, though their indexes differ |
| `TextCopies.TwinsAnswerAlike` | src/types/memory/mod.rs:590-601 | Two live records of one word each beside two that expired with the same words: average and idf coincide and the answers are alike |
| `TextCopies.LoadedTwiceClashes` | src/types/memory/mod.rs:611-630 | A text of one word indexed twice under one id: its posting list is no longer that of the documents |
| `VectorIndexes.VectorIndex.Insert` | src/types/memory/vector.rs:172-183 | Hands out a slot nobody owns and stores the vector there: the slot freed last while one is free, and only else a new one; every other owned slot reads back as before |
| `VectorIndexes.VectorIndex.Overwrite` | src/types/memory/vector.rs:186-188 | Replaces one slot's vector and no other |
| `VectorIndexes.VectorIndex.Remove` | src/types/memory/vector.rs:204-212 | Frees an owned slot once; freeing it again or freeing a slot out of range changes nothing |
| `VectorIndexes.VectorIndex.Get` | src/types/memory/vector.rs:214-217 | An owned slot reads back its last stored vector |
| `VectorIndexes.WriteRow` | src/types/memory/vector.rs:190-202 | Writing one row of the flat array changes that row alone |
| `VectorIndexes.FreePush` | src/types/memory/vector.rs:204-212 | Freeing keeps every slot on the free list once or owned, never both |
| `Memories.Memory.Add` | src/types/memory/mod.rs:320-390 | Field by field, an add leaves the request's text, now as the time of the update, the request's metadata over what was there, the importance given clamped to 0..1, else the one before, else one half, the deadline given, else the one before, and the creation time it had, or now; the vector given is stored; a refusal, for exactly the stated reasons in the stated order, changes nothing but the id counter; the keyword index stays exact if and only if this call's cap clears what the id was indexed under |
| `Memories.UpdatedHolds` | src/types/memory/record.rs:33-75 | The record an add makes holds the request, field by field, for every request and whether or not there was a record |
| `Memories.Memory.RefusedFor` | src/types/memory/mod.rs:336-352 | Each reason to refuse an add applies if and only if it is the first of them in order |
| `Memories.Memory.Del` | src/types/memory/mod.rs:393-404 | A delete drops the record and its slot, and all its postings if and only if this call's cap clears what it was indexed under |
| `Memories.Memory.SweepExpired` | src/types/memory/mod.rs:466-478 | Exactly the expired records go; the keyword index stays exact if and only if the cap clears what each of them was indexed under |
| `Memories.Memory.LoadRecord` | src/types/memory/mod.rs:611-630 | A reloaded record is stored over any of its id, and keeps its vector exactly if the mode and width allow; the indexes stay exact if and only if the id was new, or its record had no slot and no term |
| `Memories.Memory.Clone` | src/types/memory/mod.rs:641-653 | A copy, whatever state the original is in, holds exactly the live records, with the vectors they had, in fresh and exact indexes, their texts indexed under no cap |
| `Memories.CopyAnswers` | src/types/memory/mod.rs:641-653 | A copy's keyword index is the original's if and only if no record had expired unswept and no text had been cut. The two answer every query alike, under every logarithm and whatever live records a filter lets through, if and only if every term stands the same in every live record; with nothing expired, if and only if no text had been cut; with no live text cut, if and only if there is nothing to find or the average length and the idf of every findable term coincide; with both, only if the copy's average is lower |
| `Memories.AddedIsLive` | src/types/memory/mod.rs:354-366 | An added record is live if and only if it is given a positive time to live, or is given none and does not replace an expired record |
| `Memories.AddedAgainStaysExpired` | src/types/memory/mod.rs:336-366 | A record that expired unswept, added again as new and without a time to live, is accepted and has expired |
| `Memories.AssignedIdsDiffer` | src/types/memory/mod.rs:327-334 | Ids assigned from different values of the counter differ |
| `Memories.Memory.SearchText` | src/types/memory/mod.rs:572-589 | Keyword search is refused without a keyword index, and otherwise is what the index as it stands scores, filtered before it is cut; over an exact index that is BM25 over the stored texts; only records that pass the filter are shown, and a query in other letter case finds the same |
| `Memories.Memory.SearchVector` | src/types/memory/mod.rs:490-531 | Exact nearest neighbours: the best `limit` of the records that pass and have a vector, or the stated refusal |
| `Memories.Memory.LiveIsTheRecordsWithVectors` | src/types/memory/vector.rs:108-132 | While no slot is leaked the vector index's live count is the number of records that have a vector |
| `Memories.SlotTaken` | src/types/memory/mod.rs:367-375 | Giving a record a fresh slot keeps slots and records one to one, each reading back its last vector |
| `Memories.SlotFreed` | src/types/memory/mod.rs:393-404 | So does dropping a record and freeing its slot |
| `Fusions.Normalize` | src/types/memory/fuse.rs:71-85 | In place, each score becomes its place between the lowest and the highest, or 1 for all when there is no spread |
| `Fusions.Ranks` | src/types/memory/fuse.rs:90-106 | Each score's rank is 1 plus the number of strictly greater scores |
| `Fusions.Component` | src/types/memory/fuse.rs:209-243 | Scaled values come back, through the reverse and the pops, in the rows they belong to; absent rows get zero |
| `Fusions.GatherRows` | src/types/memory/fuse.rs:124-178 | One row per distinct id of either list, with the last score each list gave it |
| `Fusions.ScoresAddUp` | src/types/memory/fuse.rs:180-196 | A hit scores the keyword weight times its keyword part, plus the vector weight times its vector part, plus the recency weight times a power of one half of its age in half-lives, plus the importance weight times its importance in 0..1 |
| `Fusions.ContributionsAtTheEnds` | src/types/memory/fuse.rs:71-106 | LINEAR gives the best of a list 1 and the worst 0, and RRF gives the best 1/61; an id a list does not hold gets nothing from it |
| `Fusions.HighestFirst` | src/types/memory/fuse.rs:198-204 | Fused hits are listed by score, the highest first, ties by id |
| `Fusions.ComponentContributes` | src/types/memory/fuse.rs:180-184 | What a column gives a row is what the list, on its own candidates, contributes to that id |
| `Fusions.Fuse` | src/types/memory/fuse.rs:115-205 | Exactly one hit for each distinct id that has a record, with the weighted sum of both contributions, recency and clamped importance, sorted by score then id |
| `Fusions.OneHitEach` | src/types/memory/fuse.rs:115-205 | No id has two hits |
| `Fusions.RrfScoresInvariant` | src/types/memory/fuse.rs:9-19 | Under RRF no score changes when one list's scores change but not their order and ties |
| `Fusions.LinearScoresInvariant` | src/types/memory/fuse.rs:9-19 | Under LINEAR no score changes when one list's scores all go through the same positive affine change |
| `Fusions.RrfSeesOnlyOrder` | src/types/memory/fuse.rs:90-106 | One list's reciprocal-rank contributions depend on order and ties alone |
| `Fusions.LinearIsScaleFree` | src/types/memory/fuse.rs:71-85 | One list's min-max contributions do not depend on scale or offset |
| `Fusions.RunQuery` | src/types/memory/mod.rs:541-569 | On any index: the hybrid query is refused for exactly the stated reasons, each if and only if it is the first that applies, and otherwise fuses exactly what the keyword index scores, BM25 if it is exact, and the nearest neighbours of the inputs it was given |
| `Dumps.WordsJoined` | src/persist.rs:163-170 | Splitting a header line at white space undoes joining its words |
| `Dumps.BlobThere` | src/persist.rs:73-97 | A blob of any bytes, newlines included, is read back whole |
| `Dumps.RecordThere` | src/persist.rs:502-538 | A memory record, with metadata and vector, is read back |
| `Dumps.MemoryThere` | src/persist.rs:465-540 | A memory index's configuration, id counter and records are read back |
| `Dumps.ListingThere` | src/persist.rs:175-215 | A value of any type is read back |
| `Dumps.EntriesThere` | src/persist.rs:154-224 | Every entry is read back in order with its key and deadline |
| `DumpFormats.DumpLooks` | src/persist.rs:328-330 | A dump is its magic line and then its entries |
| `DumpFormats.EntryLooks` | src/persist.rs:337-434 | An entry is a line of its kind, its deadline or -1, and its size if it has one, then its key and its body |
| `DumpFormats.BodyLooks` | src/persist.rs:345-434 | A string is its text; a list, set, hash or sorted set its elements one after another |
| `DumpFormats.PairLooks` | src/persist.rs:360-434 | A pair is its field and then its value, a member its name and then a line of its score, byte for byte |
| `DumpFormats.SettingsLook` | src/persist.rs:386-399 | The settings of a memory index, byte for byte: mode, dimension, metric, four weights, half-life, next id |
| `DumpFormats.RecordLooks` | src/persist.rs:400-419 | A record, byte for byte: id, text, a line of its times, importance, deadline or -1 and two counts, then its fields and its vector |
| `DumpFormats.NamesSpelled` | src/types/memory/vector.rs:22-32 | Modes and metrics are read by name in any letter case, the inner product by either of two names |
| `DumpFormats.RecordRead` | src/persist.rs:506-522 | How a record's line is read, with what stands in for what does not parse: no deadline, the default importance, the beginning of 1970 |
| `DumpFormats.SettingsRead` | src/persist.rs:465-498 | How the settings of an index are read: no dimension for a text index, a week for a half-life that does not parse |
| `DumpFormats.NumberedFromOne` | src/types/memory/mod.rs:632-634 | A loaded index numbers its records from 1 on, whatever its dump says |
| `DumpFormats.WordsAnyhowParted` | src/persist.rs:163-170 | A header line is read as its words, whatever ASCII white space parts, precedes or follows them |
| `DumpFormats.SpacesAroundIgnored` | src/persist.rs:73-86 | So is the length of a blob, whatever ASCII white space is around it |
| `DumpFiles.DumpWriter.Put` | src/persist.rs:337-434 | One entry is written as its header line, its key and its body |
| `DumpFiles.DumpWriter.Blob` | src/persist.rs:93-97 | A blob is its length, a newline, its bytes and a newline |
| `DumpFiles.DumpReader.Line` | src/persist.rs:64-70 | The cursor moves past the next newline and all trailing breaks are stripped; the end of the file and text that is not UTF-8 are told apart |
| `DumpFiles.DumpReader.Blob` | src/persist.rs:73-86 | A blob is read, is missing, or breaks the load, as `BlobAt` says of any bytes |
| `DumpFiles.DumpReader.Record` | src/persist.rs:502-538 | So is a record: anything missing from one ends the load |
| `DumpFiles.DumpReader.ReadMemory` | src/persist.rs:465-540 | So is a memory index, with the defaults for what does not parse |
| `DumpFiles.DumpReader.Entries` | src/persist.rs:154-224 | So is the rest of a dump: unknown kinds are skipped, a collection cut short is kept as far as it goes, and an I/O error spoils everything |
| `Persistence.Save` | src/persist.rs:322-441 | Saving writes the dump of exactly the live keys, each once, and changes no contents |
| `Persistence.List` | src/persist.rs:349-430 | What is written of a value stands for the value, a memory index losing its expired records and the fractions of a millisecond |
| `Persistence.Install` | src/persist.rs:559-594 | Installing an entry puts its value, then its deadline, then drops it if empty or already expired |
| `Persistence.LastPairCounts` | src/types/memory/record.rs:60-75 | Of pairs that name one key the last one loaded counts |
| `Persistence.RecordLoaded` | src/persist.rs:502-538 | A loaded record has its times in nanoseconds, and its vector only if the index holds vectors of that width, scaled under the cosine metric |
| `Persistence.LoadedOnto` | src/persist.rs:559-594 | Loading onto a key that holds something: a string replaces it, a list is appended, members are added, pairs overwrite; another kind changes nothing |
| `Persistence.Load` | src/persist.rs:119-152 | A dump is loaded entry by entry, all or none; a file that is no dump changes nothing |
| `Persistence.DumpIsRead` | src/persist.rs:119-224 | The reader applied to what the writer wrote returns exactly the entries |
| `Persistence.LoadUndoesSave` | src/persist.rs:322-441 | Installing what a dump lists into an empty keyspace, at any later clock, restores every live key whose restored deadline has not passed: type, contents and restored deadline |
| `Persistence.SaveAndReload` | src/persist.rs:119-441 | The whole way round: a keyspace saved at one clock and loaded into a fresh store at another |
| `Persistence.RestoredToTheMillisecond` | src/persist.rs:331-336 | A deadline comes back in its own millisecond if the clock was no further into its millisecond than the deadline into its own, and otherwise one millisecond early |
| `Persistence.SurvivesWithAMillisecondLeft` | src/persist.rs:331-336 | Loaded at the same clock, a key survives exactly if it had a whole millisecond left |
| `Persistence.DeadlinesCanSlip` | src/persist.rs:331-336 | Concrete clocks at which a deadline slips and a live key is lost |
| `Zsets.Zset.Add` | src/types/zset.rs:78-92 | Adding or moving a member updates the map and keeps the vector its sorted listing |
| `Zsets.Zset.PartitionPoint` | src/types/zset.rs:87-90 | The halving search finds where entries stop being less |
| `Zsets.Zset.Rem` | src/types/zset.rs:94-102 | Removing a member updates the map and keeps the listing |
| `Zsets.Zset.IncrBy` | src/types/zset.rs:112-118 | Raises a score, a missing one from zero; a sum that is not a number leaves the member without a score |
| `Zsets.Zset.Increment` | src/commands/zset.rs:77-96 | An increment is refused exactly when it or the score it is added to is infinite; else it raises the score; a refused one takes the member out, so it changes nothing exactly when the member was not there |
| `Zsets.RefusedIncrementLosesMember` | src/commands/zset.rs:86-93 | A member at infinity, raised by one: refused, and gone |
| `Zsets.Zset.Rank` | src/types/zset.rs:121-123 | A rank is the number of entries that sort before the member |
| `Zsets.Zset.RevRank` | src/types/zset.rs:126-128 | A reverse rank is the number of entries that sort after it |
| `Zsets.Zset.RevRange` | src/types/zset.rs:145-155 | A reverse range is the same range of the reversed set |
| `Zsets.Zset.RangeByScore` | src/types/zset.rs:159-165 | Exactly the members within both bounds, in order |
| `Zsets.Zset.RemoveRangeByRank` | src/types/zset.rs:177-182 | Exactly the entries of the range go |
| `Zsets.Zset.RemoveRangeByScore` | src/types/zset.rs:186-191 | Exactly the members within both bounds go, and are counted |
| `Zsets.Zset.Pop` | src/types/zset.rs:195-205 | Hands out one end in order from that end and keeps the rest, none lost |
| `Zsets.ListedInOrder` | src/types/zset.rs:57-92 | A listing goes from the lowest score to the highest, minus infinity first and infinity last, members of one score by their bytes |
| `Zsets.WithinMeans` | src/types/zset.rs:159-165 | Bounds admit the scores between them, and the bound itself unless it is exclusive |
| `ByteStrings.FirstDifferenceDecides` | src/types/zset.rs:57-92 | Byte strings are in order by their first different byte, and one comes before those that go on from it |
| `Zsets.ListingUnique` | src/types/zset.rs:57-92 | A map of scores has one sorted listing |
| `Zsets.RankCounts` | src/types/zset.rs:121-123 | A position in the listing counts the entries that are less |
| `Zsets.ResolveExact` | src/types/list.rs:17-32 | A resolved range covers exactly the positions between its two ends, negative indices counted from the end |
| `Zsets.RevRangeIsRangeOfReverse` | src/types/zset.rs:145-155 | Counting from the far end is counting on the reversed sequence |
| `Zsets.RevRangeMirrors` | src/types/zset.rs:145-155 | And it is the mirror image of a range under negated indices |
| `Zsets.List.Trim` | src/types/list.rs:61-69 | Trimming keeps exactly the resolved range |

## Left out

- Servers.Server.Execute: which keys expire or are evicted before a command, and whether eviction fell short, are the oracle's; `Stores` and `Eviction` prove what those steps do to the keyspace they work on. Values in `Commands` are lists, sorted sets and others without their deadlines.
- Servers.Server.PollOnce: output buffers and their limit, writing to sockets, and pub/sub delivery are not modelled; a connection that wants to close may close in any later round.
- Servers.Server.ServePass: oldest-first service is stated for clients waiting on one key alone; a client waiting on several keys may be served through another key.
- Servers.Server.Connect: accepting is one arrival at a time, over the client ceiling or not; the ceiling's count is not modelled.
- Commands.WrittenKeysOf: commands outside the modelled set (strings, hashes, sets, sorted sets, memory indexes, BZPOPMIN, BZPOPMAX, BZMPOP, ZMPOP) count as unknown commands, which write nothing.
- Resp.Encode: floats are carried by their shortest text; formatting is not modelled.
- Stores.Store.Sample: which keys are drawn and how far their frequency counters have decayed are arbitrary.
- Eviction.Evictor.WithinLimit: the memory counter is read as an arbitrary number each time.
- TextIndexes.TextIndex.Search: over reals with an uninterpreted logarithm, not over 32-bit floats.
- Memories.Memory.Add: editing metadata and per-record deadlines by their own commands is not modelled.
- Zsets.Zset.IncrBy: sums are of reals and infinities, so a finite sum never overflows; and the NaN that the code stores for a sum that is not a number, which its only caller takes out at once, is not stored here.
- Dumps.EntriesThere: white space in a header line is ASCII white space; a hand-edited dump with other Unicode spaces is not modelled, and lengths are unbounded numbers.
- Persistence.Save: the order of keys, members, fields and records is arbitrary here; the source sorts fields and records. Writing to a temporary file and renaming it is not modelled.
- Persistence.Load: version 1 dumps load nothing here; that reader is lossy and has no writer to invert.
- Fusions.Fuse: over reals, so a NaN score and its arbitrary place in the order are not modelled.
- Command tables and formatting (CONFIG, INFO, CLIENT, HELLO), hash, set and string handlers beyond SET and DEL, LREM and LINSERT, MEM.* argument parsing and metadata filters, pub/sub and the glob matcher: they would add easy members only.
