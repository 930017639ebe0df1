# Verified models of the replicated diary and its libraries

A model in Dafny 4.11 of the hard parts of the diary service: the commit and
replication protocol of its two sites, and the libraries it stands on, the
hiredis client and the mongoose web server.  `dafny verify dfyconfig.toml`
checks all of it.

## What is modelled

Where the source works in place, so does the model: its records and objects are
classes whose methods update fields and arrays, and each method is proved
against a specification function or a step of a state machine.  What the source
promises is then proved about those.

**The diary protocol** (`Diary*`).  Each site holds a Redis copy of every
diary's version history and comments, a two-entry version vector, lock counters
and a queue of replication messages.  `DiaryProtocol` is a state machine over
twelve kinds of small steps: one Redis command, one vector update under its
mutex, or one move of a message.  At most one commit and one delivery run at a
site at a time (the HTTP handler and the replicater are one thread each), and
they interleave freely with each other and with the other site.
`DiaryInvariant` holds the invariant of all runs and `DiaryTheorems` what
follows from it: no lost update, agreement, convergence, the meaning of the
vector clock, and mutual exclusion; `DiaryRequests` follows every stored entry
back to the request it came from.  `DiaryServer` is the server's code as
methods, each a run of that machine, with its whole new state.  Three assumptions are made:

- a Redis command is one atomic step, and the channel between the sites is
  reliable and first-in first-out;
- both sites start from the same seeded lists at version (0,0), with at most one
  entry per diary;
- an edit is *honest*: its start version is at most the vector of the site that
  gets it, as for a client that read there once delivery was complete.

`DiaryMoves` projects every step to what it does to one diary.  The clock, the
locks, the start versions, the preferred site's history, convergence up to the
order of entries of different sites, and that it is reached (`DiaryQuiet`) need
no honesty and are proved for all runs.  The other guarantees fail without it,
for every diary, and each has its failing run and its exact condition:

- *No lost update* (`DiaryLimits`).  Between a delivery's `RPUSH` and its vector
  increment a reader sees a version the vector does not count yet; an edit that
  starts from it at that site commits a version that does not dominate it
  (`HonestyNeeded`).  `StampLosesIff` gives the exact condition on the
  replication queue for a stamp in any interleaving, and `EditSafeIff` the
  condition before the call for an uninterrupted edit.
- *Agreement* (`DiaryAgreement`).  A client reads a version at the preferred site
  and edits at the other one before that version has arrived there: the slow
  commit passes its check at the preferred site and is pushed first at its own,
  and the histories differ for good (`AgreementNeedsHonesty`).  `AgreeStepIff`
  and `AgreeRunIff` say exactly which steps do this, `AgreeEditIff` which edits.
- *Reads* (`DiaryScan`).  The edit of `HonestyNeeded` is then filtered out by the
  read scan at its own site (`ScanNeedsHonesty`).  A scan filters nothing out
  exactly while each appended entry is not behind the last one (`ScanStepIff`).

A diary whose id is negative and odd has no preferred site, because the C
remainder is then -1: both sites commit it slowly, each under the other's lock.
Even honest clients then lose an update, part the histories and have a version
filtered out; `NoLostUpdateIffHomed`, `AgreementIffHomed` and
`ScanRightIffHomed` prove that these are the only such diaries.
`commits`, `applied`, `Rec.seen` and `Entry.tag` are history variables that no
decision reads; in the server's code they are ghost.

**The RESP reader and printers** (`Resp*`).  `RespGrammar` is a recursive-descent
grammar, `RespMachine` the resumable stack machine proved to agree with it
however the input is cut, and `RespReader` the reader object: a buffer with a
cursor, nine stack slots, and reply objects filled in slot by slot.
`RespTexts` describes the texts the grammar reads, and no others, by what they
are built of.  `RespPrinter` has both argument-vector formatters, `RespFormat`
the format string scanner and `RespWords` what a format stands for, by its words.  Those keep lengths and positions in an int (`CInts`), which is
taken to wrap around from 2^31 on, and a negative size is taken to fail to
allocate; so each formatter has an exact outcome for arguments of any length, and
an exact condition for printing the command.  The error text speaks of depth
above 7, but the code reads 8 nested arrays and fails on the ninth; the model
follows the code.

**Wire codecs** (`Mbuf`, `Ws*`, `Coap*`, `HttpChunk*`, `HttpBody`).  Encoders and
in-place decoders of WebSocket frames (RFC 6455 sections 5.2 to 5.5), CoAP
messages (RFC 7252 sections 3 and 3.1) and chunked bodies (RFC 7230 section
4.1), with what arrives after any segmentation of the byte stream.  `WsLayout`
and `CoapLayout` say where each bit lies, with examples of those documents, and
what a peer may write that these encoders would not is read as well: chunk sizes
in lower case or with leading zeros, options in longer forms than needed.  The
WebSocket encoder switches to the 64-bit length form at 65535, one early; the
decoder accepts it.  CoAP composes options as far as 65804 apart or long, but
parses them with 16-bit sums: `RoundTripIff` says exactly which messages come
back.

**Digests** (`Digests`, `DigestLayout`, `Md5Context`, `Sha1Context`).  Streaming
MD5 and SHA-1 refine the one-shot definition, for any block function;
`DigestLayout` spells that definition out byte by byte.  Both count bits in two
32-bit words; MD5's count is exact only for updates shorter than 2^32 bytes, and
SHA-1's update adds place and length in 32 bits.

**Queues, tables and quoting** (`Async*`, `Dict*`, `Sds*`).  The callback
queue of the asynchronous client, a linked list drained by loops that user
callbacks may re-enter, and how a context ends (`AsyncEnds`); the chained hash
table and its iterator, refining a finite map; and the quoted-argument printer
and parser, with the lines it accepts described by their words (`SdsWords`).

## Model

| member | source | states |
|---|---|---|
| DiaryTheorems.NoLostUpdateEver | mongoose/server.cpp:432-563 | in every reachable state the committed versions of a diary with a preferred site form a strict chain in the componentwise order, every edit started at or above all versions committed before it, both histories are prefixes of that chain, and the longer history plus what is stamped but not pushed is all of it |
| DiaryTheorems.Agreement | mongoose/server.cpp:432-563 | at every reachable state one site's history of such a diary is a prefix of the other's |
| DiaryTheorems.Convergence | mongoose/server.cpp:141-224 | in every run, honest or not: once no commit or delivery is running and no message is on its way, the two vectors are equal, no diary with a preferred site is locked there, every list, comments included, has the same entries at both sites, those of each origin in commit order, and the two lists are the same if and only if they agree; after an honest run those of every diary with a preferred site are |
| DiaryQuiet.Converges | mongoose/server.cpp:141-224 | convergence is reached: from any state of any run, however commits and deliveries are scheduled once no new edit arrives, they end after a number of steps computed from the state, and where they end the two sites have converged |
| DiaryQuiet.StuckIff | mongoose/server.cpp:141-563 | a state in which only a new edit can happen is one in which nothing is running and nothing is on its way, and the other way round: no commit or delivery is ever stuck |
| DiaryQuiet.Settles | mongoose/server.cpp:141-224 | from every state some steps without new edits lead to a quiet one |
| DiaryAgreement.AgreeStepIff | mongoose/server.cpp:509-553 | in every run, a step leaves the two histories of a diary in agreement if and only if they agreed before and it does not overtake: it does not push a slow commit at its own site while an entry pushed at the preferred site has yet to be stored there |
| DiaryAgreement.AgreeRunIff | mongoose/server.cpp:432-563 | over any run: the histories end in agreement if and only if they began so and no step overtook; parted histories never agree again |
| DiaryAgreement.AgreeEditIff | mongoose/server.cpp:509-553 | a condition before the call: an uninterrupted slow edit that gets the lock and passes the check leaves the histories in agreement if and only if they agree and no entry of the diary is on its way to the editing site |
| DiaryAgreement.PrefixIff | mongoose/server.cpp:432-563 | in every run the history of the preferred site is a prefix of the committed versions, and the other one is if and only if the two agree |
| DiaryAgreement.AgreementNeedsHonesty | mongoose/server.cpp:521-544 | for every diary there is an honest run after which an edit at the other site, starting from the version the preferred site already shows, parts the histories |
| DiaryAgreement.AgreementIffHomed | mongoose/server.cpp:16 | honest edits keep the histories of a diary in agreement if and only if the C remainder `oid % 2` names a site |
| DiaryTheorems.VectorClock | mongoose/server.cpp:475-478 | in every run, honest or not: entry j of a site's vector counts exactly the commits of site j applied there; the others are queued towards it, in order; `ver(c) <= ver(c')` holds exactly when c is c' or was applied at the origin of c' before c' was stamped; versions are unique |
| DiaryTheorems.CausallyClosed | mongoose/server.cpp:199-201 | in every run: what a site has applied is closed under "was applied before": with a commit it has all that commit's own site had seen |
| DiaryTheorems.MutualExclusion | mongoose/server.cpp:85-105 | in every run: the `INCR`-equals-1 counter is non-zero exactly while it has a holder, and there is at most one across both sites: a committer at either site, or a slow commit's message until the preferred site has applied it |
| DiaryTheorems.OnlyHolderReleases | mongoose/server.cpp:193-197 | in every run: a step that frees the lock is the end of the one holding that kept it, and a failed attempt changes nothing but the counter's value |
| DiaryTheorems.StartsDominate | mongoose/server.cpp:452-472 | in every run, whatever versions its edits claim to have read, each edit that commits started at or above all versions of its diary committed before it |
| DiaryInvariant.InvStep | mongoose/server.cpp:432-563 | each honest one of the twelve step kinds (acquire, check, abort, stamp, push, enqueue, release, send, receive, store, unlock, count) keeps the whole invariant |
| DiaryInvariant.AnyStep | mongoose/server.cpp:432-563 | every step, honest or not, keeps the part about clock, locks, preferred site histories and start versions |
| DiaryInvariant.AnyReachableInv | mongoose/server.cpp:141-563 | that part holds in every state any interleaving can reach |
| DiaryMoves.ViewStep | mongoose/server.cpp:432-563 | every step of the two-site system changes the projection to one diary by one of ten moves, or not at all, and that move is allowed there |
| DiaryMoves.HomeKept | mongoose/server.cpp:432-563 | every allowed move keeps that the lock has at most one holder, that the preferred site's history, then what is on its way to it, then what is stamped is all committed versions in order, and that a passed check still passes against all of them |
| DiaryInvariant.ReachableInv | mongoose/server.cpp:141-563 | the invariant holds in every state any interleaving of honest steps can reach |
| DiaryInvariant.SlowCheckSettles | mongoose/server.cpp:519-535 | a slow commit that passes the remote check knows that no fast commit of that diary is still on its way to it |
| DiaryClock.ClockStep | mongoose/server.cpp:199-201 | stamps and counts keep the queue, numbering and order facts behind the vector clock |
| DiaryComments.RunFlow | mongoose/server.cpp:319-331 | over any run, for each list and origin, what the other site has stored plus what is under way is what the origin has stored, in order |
| DiaryRequests.EveryEntryWasAskedFor | mongoose/server.cpp:286-329 | over any run: every entry a site stores or a message carries, the seeds aside, has the key and the payload of the request that began its commit, and that commit, stamped by the run's id-th stamp, went from that request to its stamp without another in between |
| DiaryRequests.StampedBy | mongoose/server.cpp:432-507 | commit i of a run is the work of its i-th stamp and carries site, key, start version and payload of the request that began it |
| DiaryLimits.NoLostUpdateIffHomed | mongoose/server.cpp:16 | updates of a diary are never lost if and only if the C remainder `oid % 2` names a site |
| DiaryLimits.PreferSiteIs | mongoose/server.cpp:16 | the preferred site is the remainder of a division by two that truncates towards zero: 0 or 1, and -1 for a negative odd id |
| DiaryLimits.HomelessLosesUpdate | mongoose/server.cpp:305-311 | for a negative odd id both sites commit slowly, each under the other's lock, and an honest run loses an update |
| DiaryLimits.HonestyNeeded | mongoose/server.cpp:190-201 | for every diary there is an honest run after which an edit starting from the version its own site already shows, but has not counted, commits a version that does not dominate it |
| DiaryLimits.StampSafeIff | mongoose/server.cpp:475-478 | in any run and with any steps between check and stamp, the stamped version lies above all committed versions of a diary if and only if no replication message about it is waiting for, or being applied at, the stamping site |
| DiaryLimits.StampLosesIff | mongoose/server.cpp:449-478 | so after such a stamp no update of the diary is lost, neither by versions nor by start versions, if and only if none was lost before and no such message is there |
| DiaryLimits.EditSafeIff | mongoose/server.cpp:449-477 | the same, as a condition before the call, for an uninterrupted edit: one that gets the lock, passes the check and is stamped with no other step in between, whatever start version it claims |
| DiaryScan.ScanIsRight | mongoose/server.cpp:259-270 | in every reachable state with a non-empty history the read scan filters nothing out, and the last entry is the greatest version |
| DiaryScan.ScanIff | mongoose/server.cpp:259-270 | in every run the scan of a history filters nothing out if and only if its versions ascend |
| DiaryScan.ScanStepIff | mongoose/server.cpp:259-270 | in every run a step leaves a scan that filters nothing out if and only if it filtered nothing out before and the entry the step appends, if any, is not behind the last one of that history |
| DiaryScan.ScanNeedsHonesty | mongoose/server.cpp:259-270 | for every diary there is an honest run after which an edit starting from the version its own site shows, but has not counted, is filtered out there once it is pushed |
| DiaryScan.ScanRightIffHomed | mongoose/server.cpp:16 | after honest edits no read of a diary filters anything out if and only if the C remainder `oid % 2` names a site |
| DiaryServer.Server.LatestDiary | mongoose/server.cpp:249-276 | the scan's loop returns the entry last kept, exactly when the kept entries are a front part of the history; otherwise the program would index past `hlist` |
| DiaryServer.Server.AcquireLocal | mongoose/server.cpp:85-98 | one protocol step: `INCR` here, and success exactly if the lock was free |
| DiaryServer.Server.AcquireRemote | mongoose/server.cpp:516-517 | the same step with the lock at the other site |
| DiaryServer.Server.FindConflict | mongoose/server.cpp:456-468 | the loop over the history finds a conflict exactly if some version is not below the start version |
| DiaryServer.Server.CheckHistory | mongoose/server.cpp:452-472 | the check step: passes for comments, and for diaries exactly without conflict |
| DiaryServer.Server.AbortCommit | mongoose/server.cpp:464-465 | the step that sets the lock to 0 after a conflict |
| DiaryServer.Server.TakeVersion | mongoose/server.cpp:475-478 | the step that increments the own entry and stamps the object with the vector |
| DiaryServer.Server.PushLocal | mongoose/server.cpp:488-491 | the `RPUSH` step |
| DiaryServer.Server.Replicate | mongoose/server.cpp:493-498 | the step that appends the message to `msg_list`; a slow commit ends here with its lock held |
| DiaryServer.Server.ReleaseLocal | mongoose/server.cpp:503-505 | the step that frees a fast commit's lock |
| DiaryServer.Server.StoreMessage | mongoose/server.cpp:190-191 | the delivery's `RPUSH` step |
| DiaryServer.Server.UnlockMessage | mongoose/server.cpp:193-197 | the delivery's release of a slow commit's lock |
| DiaryServer.Server.CountMessage | mongoose/server.cpp:199-201 | the delivery's vector increment |
| DiaryServer.Server.Attempt | mongoose/server.cpp:449-473 | lock, check and abort together are a run of the protocol, successful exactly if the lock was free and nothing conflicts, and leave the lock at 1 on success |
| DiaryServer.Server.Publish | mongoose/server.cpp:475-498 | stamp, push and enqueue together are a run that increments the own vector entry, appends one entry with that vector, the payload given and the number of the commit to the list and the message of this kind about it to `msg_list`, records the commit, and changes nothing else |
| DiaryServer.Server.FastCommit | mongoose/server.cpp:432-507 | every path is a run of the protocol; it succeeds exactly if the lock was free and nothing conflicts; on success the entry with this payload is stored, queued as a fast message and recorded, and the lock is 0; on failure no list, vector, queue or commit changes |
| DiaryServer.Server.SlowCommit | mongoose/server.cpp:509-563 | the same under the other site's lock and history, with a slow message and the lock left at 1 on success; a comment is refused |
| DiaryServer.Server.EditDiary | mongoose/server.cpp:286-310 | dispatches by preferred site; it succeeds exactly if the lock there was free and nothing conflicts; then the content given is what the new entry, the message of the right kind and the record of the commit carry, and otherwise nothing is committed; an edit with an honest start version keeps the invariant of the whole two-site system |
| DiaryServer.Server.AddComment | mongoose/server.cpp:319-338 | a fast commit without a check: the comment is stored, queued and recorded exactly if its lock was free, and the client is told success either way |
| DiaryServer.Server.DeliverMessage | mongoose/server.cpp:172-202 | one received message is a run of store, unlock if slow, count: its entry goes to its list unchanged, its lock is freed exactly if it was slow, and nothing else changes but the other site's vector entry |
| DiaryServer.Server.SendAll | mongoose/server.cpp:204-222 | the loop publishes all of `msg_list`, in order |
| RespMachine.DrainSplit | hiredis/read.c:445-525 | draining, feeding more and draining again is the same as draining everything at once |
| RespMachine.ChunkingInvisible | hiredis/read.c:445-525 | for any bytes cut anywhere, with replies drained between feeds, replies and final status are those of feeding the whole |
| RespMachine.DrainIsParse | hiredis/read.c:302-414 | the explicit stack emits exactly the replies of the recursive-descent grammar and fails exactly where it does |
| RespMachine.ReaderIsGrammar | hiredis/read.c:445-525 | the two together: any bytes, cut anywhere, against the grammar |
| RespMachine.ItemRun | hiredis/read.c:367-414 | inside any stack of unfinished arrays, the machine follows the grammar on one item |
| RespRoundTrip.ParseEncode | hiredis/read.c:302-365 | a reply as a server writes it parses to itself with the rest untouched, if and only if no array lies inside 8 others; otherwise it is an error |
| RespRoundTrip.StreamBack | hiredis/read.c:445-525 | a stream of encoded replies reads back as those before the first too deep one, with an error exactly there |
| RespRoundTrip.AllReadable | hiredis/read.c:309-314 | no error occurs exactly if no reply nests more than 8 deep |
| RespRoundTrip.HeaderBack | hiredis/read.c:148-188 | a printed number in a header line scans back to that number |
| RespTexts.ParsedIff | hiredis/read.c:302-414 | the parser reads a reply from a text if and only if the text starts with a written form of it nested at most 8 deep: lines and headers up to CR LF, header numbers with a sign or none, data with any two bytes behind it; a bulk header below zero and an array header of -1 mean nil, and other array headers of zero or less an array without items |
| RespTexts.WrittenRead | hiredis/read.c:302-414 | every written form, at any depth, is read as what it means and leaves what follows; nested deeper it is an error |
| RespTexts.NumberIff | hiredis/read.c:148-173 | a header has a value other than -1 if and only if it is that number, with or without a sign, up to a carriage return; malformed ones are -1 |
| RespTexts.StreamRead | hiredis/read.c:445-525 | a stream of written forms is read as what they mean, with no error behind them |
| RespTexts.NoType | hiredis/read.c:367-395 | a byte other than `+-:$*` in front is an error at once |
| RespTexts.Printed | hiredis/read.c:215-365 | the text of a reply in the round trip is its canonical form: shortest numbers, `-1` for nil, CR LF behind all data |
| RespTexts.CommandPrinted | hiredis/hiredis.c:477-566 | the text of a command is the canonical form of the array of its arguments, each a bulk |
| RespEndToEnd.ServerToClient | hiredis/read.c:445-525 | replies sent, cut into any pieces, come out as sent, up to the first that nests too deep |
| RespEndToEnd.ReadChunks | hiredis/read.c:445-525 | the reader object fed any chunks hands out the replies of the grammar, and every reply handed out still stands untouched at the end |
| RespStore.ShowsOne | hiredis/hiredis.c:102-189 | the objects at an address show at most one reply |
| RespReader.Reader.SetError | hiredis/read.c:46-70 | an error empties buffer and stack and leaves objects already handed out alone |
| RespReader.Reader.SeekNewline | hiredis/read.c:120-144 | finds the first CR LF |
| RespReader.Reader.ReadLongLong | hiredis/read.c:148-173 | reads the header number; -1 for a malformed one |
| RespReader.Reader.Create | hiredis/hiredis.c:102-189 | allocates an object and hangs it into the parent's slot, which lies above everything handed out |
| RespReader.Reader.CloseArrays | hiredis/read.c:190-204 | popping closes exactly the arrays the item completes, each with all its slots filled |
| RespReader.Reader.NextIndex | hiredis/read.c:205-212 | moves to the next slot of the same array; the asserts hold |
| RespReader.Reader.MoveToNextTask | hiredis/read.c:190-213 | takes the machine's step on a finished item |
| RespReader.Reader.ProcessLineItem | hiredis/read.c:215-247 | takes the machine's step on status, error and integer, or changes nothing |
| RespReader.Reader.ProcessBulkItem | hiredis/read.c:249-300 | takes the machine's step on a bulk, or changes nothing |
| RespReader.Reader.ProcessMultiBulkItem | hiredis/read.c:302-365 | takes the machine's step on an array header, an error exactly inside 8 arrays |
| RespReader.Reader.ProcessItem | hiredis/read.c:367-414 | reads a pending type byte and takes the machine's step |
| RespReader.Reader.Feed | hiredis/read.c:445-475 | appends to the unread bytes; dropping a large empty buffer is invisible |
| RespReader.Reader.Compact | hiredis/read.c:510-516 | dropping consumed bytes at 1024 is invisible |
| RespReader.Reader.ProcessItems | hiredis/read.c:501-508 | the loop ends with the next reply, an error, or too few bytes |
| RespReader.Reader.GetReply | hiredis/read.c:477-525 | hands out the address of the machine's next reply, every slot filled, and touches no reply handed out before |
| RespReader.Reader.TakeAll | hiredis/read.c:477-525 | repeated calls hand out exactly the replies of a drain, all of them still standing at the end |
| RespPrinter.CountDigits | hiredis/hiredis.c:193-203 | the length of the decimal form |
| RespPrinter.BulkLen | hiredis/hiredis.c:206-208 | the length of a printed argument |
| RespPrinter.TotalLength | hiredis/hiredis.c:489-494 | the `size_t` sum is the length of the command |
| RespPrinter.TotalInt | hiredis/hiredis.c:540-545 | the sum kept in an int is that length as far as an int can hold it, wrapped around from 2^31 on |
| RespPrinter.Ull2Str | hiredis/sds.c:461-487 | the loop that writes digits backwards and reverses them in place leaves the decimal form and a NUL |
| RespPrinter.Ll2Str | hiredis/sds.c:429-458 | the same with a sign |
| RespPrinter.CatUnsigned | hiredis/sds.c:630-646 | `%u` appends the decimal form |
| RespPrinter.CatSigned | hiredis/sds.c:613-629 | `%i` appends the signed decimal form |
| RespPrinter.FormatCommandArgv | hiredis/hiredis.c:530-566 | all outcomes, for arguments of any length: the buffer holds exactly the command and its terminator in exactly the computed length, or the allocation fails on a negative size, or the size has wrapped and the bytes go past the buffer |
| RespPrinter.BufferIff | hiredis/hiredis.c:530-566 | the first of these happens if and only if command and terminator together stay below 2^31 bytes |
| RespPrinter.BufferFails | hiredis/hiredis.c:530-566 | from there on, the outcome is a refused allocation if and only if the length with terminator is 2^31 or more modulo 2^32, and an overrun otherwise |
| RespPrinter.PrintInto | hiredis/hiredis.c:399-417 | the same from the allocation on, as the format function shares it |
| RespPrinter.PutCommand | hiredis/hiredis.c:399-413 | the printing half, into a buffer of exactly the computed length: every byte is written, none outside |
| RespPrinter.FormatSdsCommandArgv | hiredis/hiredis.c:477-519 | all outcomes: the text, whose headers carry the low 32 bits of each length, returned with the true length as an int; an abort exactly where text and true length differ; or a header beyond the int position of the appending function |
| RespPrinter.SdsIff | hiredis/hiredis.c:477-519 | it prints the command and returns its length if and only if the command is shorter than 2^31 bytes |
| RespPrinter.SameTextIff | hiredis/hiredis.c:506-513 | its text is the command if and only if every argument is shorter than 2^32 |
| RespPrinter.FormattersAgree | hiredis/hiredis.c:477-566 | both formatters succeed with the same bytes and length if and only if command and terminator together stay below 2^31 bytes, a sum a caller can compute beforehand |
| RespPrinter.CommandBack | hiredis/read.c:249-365 | the reader's grammar turns a printed command back into its arguments, whatever bytes they hold, with nothing left over |
| RespFormat.FormatCommand | hiredis/hiredis.c:210-417 | a format of literals, spaces, `%s`, `%b`, `%%` has the outcome of the argument-vector formatter on its token list; more tokens than an int can count are refused |
| RespFormat.FormatIff | hiredis/hiredis.c:210-417 | the command of a format is printed if and only if it stays, with its terminator, below 2^31 bytes |
| RespFormat.Tokenise | hiredis/hiredis.c:231-391 | the scanning loop collects exactly the tokens, one for each word of the format with the values put in, if an int can count them; its running total is their printed length as an int |
| RespFormat.TakeByte | hiredis/hiredis.c:232-251 | a space closes the argument under construction, any other byte extends it, and the tokens to come stay the same |
| RespFormat.TakeDirective | hiredis/hiredis.c:252-378 | an interpolated value joins the argument, and touches it even when empty |
| RespFormat.CountFixed | hiredis/hiredis.c:231-391 | the number of arguments depends on the format alone, never on the values |
| RespFormat.BinaryExact | hiredis/hiredis.c:266-271 | any values come through `%b` as they are |
| RespFormat.CStringWhole | hiredis/hiredis.c:260-265 | a value comes whole through `%s` if and only if it holds no NUL |
| RespWords.FormatRead | hiredis/hiredis.c:231-391 | a format made of words of literals, `%s`, `%b` and `%%`, with any spaces around them, stands for one argument per word: its pieces put together, each directive given the next value, `%s` up to its first NUL |
| RespWords.SupportedIff | hiredis/hiredis.c:231-391 | and the formats the model takes are exactly those, with a value for each directive that takes one |
| RespWords.CStringIs | hiredis/hiredis.c:260-265 | `%s` takes the longest beginning of a value that holds no NUL |
| Mbufs.Mbuf.Insert | mongoose/mongoose.c:1456-1486 | inserts at an offset, moving the tail |
| Mbufs.Mbuf.Append | mongoose/mongoose.c:1489-1491 | appends |
| Mbufs.Mbuf.Send | mongoose/mongoose.c:2630-2637 | appends data whose length is an int; of longer data what the length narrowed to an int leaves, or nothing |
| Mbufs.SentIs | mongoose/mongoose.c:2630-2637 | what is appended is a beginning of the data, as long as the length modulo 2^32 says if that is below 2^31, and empty otherwise |
| Mbufs.Mbuf.Remove | mongoose/mongoose.c:1494-1499 | removes from the front, or nothing when more is asked for than there is |
| WsMessages.MessagesArrive | mongoose/mongoose.c:9489-9640 | any messages split into fragments with control frames in between, masked or not, in all three length forms, cut into any reads, arrive as exactly those messages and control frames in order, with an empty buffer |
| WsMessages.Arrives | mongoose/mongoose.c:9580-9608 | the fragments of one message are handed over as the whole message, after the control frames in between |
| WsStream.EndToEnd | mongoose/mongoose.c:9489-9640 | the same for any legal frame sequence; only an unfinished message is left |
| WsStream.AnyCut | mongoose/mongoose.c:9489-9640 | at any moment the buffer is the reassembled part followed by the bytes of the cut frame, and the whole frames so far were handed over |
| WsStream.DrainFront | mongoose/mongoose.c:9779-9782 | the loop on a front part of a legal stream takes exactly its whole frames |
| WsStream.WholeFrame | mongoose/mongoose.c:9565-9636 | a frame all of whose bytes are there is taken off and handed over |
| WsStream.CutFrame | mongoose/mongoose.c:9540-9557 | a frame cut short anywhere, even inside its header, leaves everything as it is |
| WsStream.ExpectedLater | mongoose/mongoose.c:9779-9782 | draining a shorter front part first makes no difference |
| WsFrames.Measured | mongoose/mongoose.c:9540-9554 | what the decoder measures on a whole or cut frame is its true lengths or nothing yet |
| WsFrames.PayloadBack | mongoose/mongoose.c:9569-9578 | measuring and unmasking a written frame gives its payload, flags and tail back |
| WsFrames.MaskTwice | mongoose/mongoose.c:9713-9719 | masking twice with the same key restores the payload |
| WsFrames.XorTwice | mongoose/mongoose.c:9573-9578 | the bitwise exclusive or undoes itself |
| WsFrames.XorIsExclusive | mongoose/mongoose.c:9573-9578 | a bit of the result is 1 if and only if those of the two operands differ |
| WsFrames.MaskedBits | mongoose/mongoose.c:9713-9719 | byte i of a masked payload is payload byte i exclusive-or key byte i modulo 4, bit by bit |
| WsLayout.FirstBytes | mongoose/mongoose.c:9675-9711 | the first two bytes of a frame, bit by bit: FIN and opcode, mask bit and 7-bit length |
| WsLayout.RestOfFrame | mongoose/mongoose.c:9675-9719 | then the extended length, most significant byte first, the key and the masked payload, each exactly where RFC 6455 section 5.2 has it |
| WsLayout.Examples | mongoose/mongoose.c:9721-9733 | the frames of RFC 6455 section 5.7, byte for byte: text unmasked, masked and in fragments, ping and masked pong |
| WsLayout.LongExamples | mongoose/mongoose.c:9691-9705 | and the headers of its binary messages of 256 bytes and of 64 KiB |
| WsStream.RefusedIff | mongoose/mongoose.c:9522-9538 | a close is sent, for any frame in front, if and only if it is a control frame without FIN, or an unfragmented data frame inside a message |
| WsStream.WrapsIff | mongoose/mongoose.c:9556-9563 | the sum of header and payload length is found out of range if and only if it is |
| WsMessages.PingsAnswered | mongoose/mongoose.c:9618-9632 | in any legal stream each ping is answered by a pong and each close by a close, with its payload and in order, and nothing else is |
| WsConnection.Connection.DeliverData | mongoose/mongoose.c:9489-9640 | the in-place decoder (unmask, join, move down, hand over, remove) takes the specified step |
| WsConnection.Measure | mongoose/mongoose.c:9540-9554 | header and payload length of the bytes at hand |
| WsConnection.Unmask | mongoose/mongoose.c:9573-9578 | the loop masks the payload in place and touches nothing else |
| WsConnection.Connection.Refuse | mongoose/mongoose.c:9522-9538 | closes exactly on a fragmented control frame or a non-continuation inside a message |
| WsConnection.Connection.JoinFragment | mongoose/mongoose.c:9580-9608 | a fragment's payload moves down to the message under reassembly |
| WsConnection.Connection.HandOver | mongoose/mongoose.c:9597-9608 | the reassembled message is handed over and removed |
| WsConnection.Connection.TakeComplete | mongoose/mongoose.c:9609-9636 | a whole message, or a control frame inside one, is handed over and removed |
| WsConnection.Connection.Receive | mongoose/mongoose.c:9774-9782 | one read, then the loop |
| WsConnection.Connection.ReceiveAll | mongoose/mongoose.c:9774-9782 | a legal stream through the socket, in any reads, ends with exactly its messages handed over |
| WsConnection.Connection.SendHeader | mongoose/mongoose.c:9675-9711 | appends the header of the frame |
| WsConnection.Connection.MaskFrame | mongoose/mongoose.c:9713-9719 | masks everything from the header's end on |
| WsConnection.Connection.SendFrame | mongoose/mongoose.c:9721-9733 | appends the header of the frame and what the sending function makes of the data, masked on a client; the wire form of the frame if and only if the data is shorter than 2^31 bytes |
| WsConnection.Connection.SendFrameV | mongoose/mongoose.c:9735-9756 | the same for data in pieces |
| AsyncRuns.ExactlyOnce | hiredis/async.c:412-490 | over any run, every accepted callback was consumed once, in the order of acceptance, or still waits; the k-th got the k-th reply or NULL after the replies ended; the context is freed at most once and then nobody waits; it is stopped only when the server sent more replies than commands |
| AsyncRuns.NothingAccepted | hiredis/async.c:594-595 | once a disconnect or free was asked for, no later command is accepted, not even from a callback |
| AsyncRuns.CleanEnd | hiredis/async.c:331-350 | in every run in which nobody frees the context, neither from outside nor from a callback, a context gone without an error was asked to disconnect, and every callback it ever accepted had a reply of its own, never NULL |
| AsyncRuns.InvProcess | hiredis/async.c:412-490 | one read gives its replies to the waiting callbacks in order, all of them unless the context goes |
| AsyncRuns.FreedKeeps | hiredis/async.c:275-317 | freeing consumes every pending callback with NULL, accepts nothing and frees once, whatever the callbacks do |
| AsyncRuns.ConsumedKeeps | hiredis/async.c:265-272 | a callback that issues commands, disconnects or frees loses and doubles nothing |
| AsyncEnds.FreeFrees | hiredis/async.c:275-328 | after any run that leaves the context alive, a free outside callbacks, a failed read or write, and a reader error each end it at once: everybody who waited is given NULL, in order, nothing is accepted, and only the last two leave an error |
| AsyncEnds.FreeInside | hiredis/async.c:470-479 | a free asked for inside a callback ends the context when that reply has been processed: the callback has its reply, everybody behind it, those it has just put there included, is given NULL, and the rest of the read is dropped |
| AsyncEnds.DisconnectCompletes | hiredis/async.c:416-424 | a disconnect asked for completes when everything is written and the server has answered everybody who waits, each with its own reply, and leaves no error |
| AsyncEnds.DisconnectOutside | hiredis/async.c:358-363 | a disconnect outside callbacks ends the context at once if and only if nobody waits, and otherwise asks for it |
| AsyncEnds.WrittenOut | hiredis/async.c:538-563 | a write event changes nothing but whether output is left |
| AsyncEnds.FailedEnds | hiredis/async.c:331-350 | a failed read or write and a reader error do the same: NULL for everybody, and an error |
| AsyncEnds.Unasked | hiredis/async.c:440-464 | a reply nobody waits for ends the context if it is an error report, and stops it otherwise |
| AsyncContexts.CallbackList.Push | hiredis/async.c:227-247 | the linked list with head and tail pointers is a queue: appends |
| AsyncContexts.CallbackList.Shift | hiredis/async.c:249-263 | takes the front, and resets the tail with the last |
| AsyncContexts.Context.Issue | hiredis/async.c:584-649 | a plain command is queued, or refused while closing |
| AsyncContexts.Context.RunCallback | hiredis/async.c:265-272 | sets and clears the in-callback flag around arbitrary re-entrant calls |
| AsyncContexts.Context.AsyncFree | hiredis/async.c:275-317 | the draining loop does what the specification of a free says |
| AsyncContexts.Context.Free | hiredis/async.c:323-328 | outside a callback the context is gone, nobody waits any more, and each who did was given NULL in order; inside one the free is only asked for |
| AsyncContexts.Context.AsyncDisconnect | hiredis/async.c:331-350 | the assertion that nobody waits on a clean disconnect holds |
| AsyncContexts.Context.Disconnect | hiredis/async.c:358-363 | disconnects at once only when outside a callback and nobody waits |
| AsyncContexts.Context.ProcessCallbacks | hiredis/async.c:412-490 | the loop over the reader's replies |
| AsyncContexts.Context.ProcessReply | hiredis/async.c:435-483 | one reply: its callback, an error report, or an unasked-for reply |
| AsyncContexts.Context.HandleRead | hiredis/async.c:517-536 | a read event |
| AsyncContexts.Context.HandleWrite | hiredis/async.c:538-563 | a write event |
| SdsQuoting.RoundTrip | hiredis/sds.c:931-1039 | splitting the quoted forms of any byte strings joined by spaces gives exactly those strings, NUL, quotes, backslashes and text that looks like an escape included |
| SdsQuoting.QuotedBack | hiredis/sds.c:856-879 | one quoted argument reads back; anything but a space or the end after its closing quote is an error |
| SdsQuoting.CatRepr | hiredis/sds.c:856-879 | appends the quoted form |
| SdsQuoting.SplitArgs | hiredis/sds.c:931-1039 | the loop with its quote flags computes the split that `SdsWords.SplitIff` describes, or nothing |
| SdsQuoting.GetToken | hiredis/sds.c:941-1019 | the loop over one token |
| SdsQuoting.TurnDouble | hiredis/sds.c:948-982 | one turn inside double quotes |
| SdsQuoting.TurnSingle | hiredis/sds.c:983-997 | one turn inside single quotes |
| SdsQuoting.TurnPlain | hiredis/sds.c:998-1017 | one turn outside quotes |
| SdsWords.SplitIff | hiredis/sds.c:931-1039 | a line splits into these arguments if and only if it is made of words with these values, blanks around them: a word is unquoted text, and may end in a double-quoted or a single-quoted form; every other line gives nothing |
| SdsWords.WordsBack | hiredis/sds.c:931-1039 | words in any mixture of the three forms, with any gaps between them, come back as their values: unquoted bytes and single-quoted ones for themselves, `\'` for a quote, escapes by their tables |
| SdsWords.UnquotedBack | hiredis/sds.c:998-1017 | words without blanks, quotes and NULs, joined by any blanks, come back as exactly those words |
| SdsWords.ApostrophesIff | hiredis/sds.c:983-997 | a single-quoted form comes back if and only if its content does not end in a backslash, whatever other backslashes it holds |
| SdsWords.UnclosedQuotes | hiredis/sds.c:977-979 | double quotes that are not closed are an error |
| SdsWords.UnclosedApostrophes | hiredis/sds.c:992-994 | so are single quotes |
| SdsWords.Glued | hiredis/sds.c:972-991 | a byte other than a blank right behind a closing quote is an error |
| SdsWords.LineRefused | hiredis/sds.c:931-1039 | one word in error refuses the whole line |
| SdsWords.LettersAre | hiredis/sds.c:860-868 | the seven bytes with an escape letter, and that all others have none, in printing and in reading |
| SdsWords.CodesAre | hiredis/sds.c:869-874 | every other byte that is not printable is printed as its two hexadecimal digits in lower case |
| SdsWords.DigitsAre | hiredis/sds.c:883-909 | hexadecimal digits of both cases have their values |
| SdsWords.SpacesAre | hiredis/sds.c:883-886 | the bytes that are blanks, and those that are hexadecimal digits |
| CoapWire.RoundTripIff | mongoose/mongoose.c:12002-12221 | an accepted message comes back, with exactly its non-empty parts marked present, if and only if all option numbers and lengths are below 2^16 |
| CoapWire.ParseCompose | mongoose/mongoose.c:12002-12221 | the direction a client needs: header, token, option list and payload come back |
| CoapWire.LargeNumberLost | mongoose/mongoose.c:11971 | an accepted message with option number 70000 that comes back different |
| CoapWire.OptionBack | mongoose/mongoose.c:11929-11982 | one encoded option scans back and leaves the rest |
| CoapWire.OptionsBack | mongoose/mongoose.c:11918-12000 | delta-encoded options scan back to the same list |
| CoapWire.ParsedSmall | mongoose/mongoose.c:11920-11975 | the parser never hands over an option number or length of 2^16 or more |
| CoapLayout.HeadLayout | mongoose/mongoose.c:12173-12181 | the fixed part bit by bit: version, type, token length, code class and detail, and the id, high byte first |
| CoapLayout.WireLayout | mongoose/mongoose.c:12152-12221 | then token and options, and behind the marker the payload, if there is one |
| CoapLayout.AcceptedIff | mongoose/mongoose.c:12103-12148 | a message is accepted if and only if each field fits its place in the packet and each option is short enough and close enough above the one before |
| CoapLayout.RefusedIs | mongoose/mongoose.c:12108-12143 | and the field complained about is the first in order that does not fit |
| CoapLayout.OptLayout | mongoose/mongoose.c:12188-12212 | an option is written as its distance to the one before and its length, each in as few extension bytes as there is a way, and the value |
| CoapLayout.OptionIff | mongoose/mongoose.c:11929-11982 | an option is read if and only if one is encoded there, in the shortest way or not; number and length are what 16 bits keep of them |
| CoapLayout.OptionFails | mongoose/mongoose.c:11936-11964 | the reserved field value is a format error; all else that fails lacks bytes |
| CoapLayout.AddedAt | mongoose/mongoose.c:11734-11780 | an option goes behind all with no greater number and in front of the first with a greater one |
| CoapLayout.PacketRead | mongoose/mongoose.c:12002-12027 | every whole packet of version 1, its options encoded in any way, is read with its fields; a marker with nothing behind it is no payload |
| CoapLayout.HeadFails | mongoose/mongoose.c:11789-11818 | short packets, other versions and reserved token lengths fail as too short, ignored and malformed, with the fields read before filled in |
| CoapLayout.RequestExample | mongoose/mongoose.c:12152-12221 | the request of RFC 7252 appendix A, byte for byte |
| Coap.PacketSize | mongoose/mongoose.c:12103-12150 | the checks in order, and the exact size of the packet |
| Coap.Compose | mongoose/mongoose.c:12152-12221 | appends exactly the packet, in the size computed before; nothing on refusal |
| Coap.SplitOpt | mongoose/mongoose.c:12051-12067 | base and extension of a delta or length |
| Coap.AddOptInfo | mongoose/mongoose.c:12087-12096 | writes the extension bytes |
| Coap.PutOption | mongoose/mongoose.c:12188-12212 | one option at the moving position |
| Coap.AddOption | mongoose/mongoose.c:11734-11780 | keeps the list in order, after the options with the same number |
| Coap.GetExtOpt | mongoose/mongoose.c:11872-11900 | reads an extension as a 16-bit integer, or -1 |
| Coap.ReadOption | mongoose/mongoose.c:11929-11982 | the loop body of the option parser |
| Coap.CoapMessage.LoopOptions | mongoose/mongoose.c:11928-11988 | the option loop; the options are dropped again on an error |
| Coap.CoapMessage.ReadToken | mongoose/mongoose.c:11851-11865 | the token, or too few bytes |
| Coap.CoapMessage.Parse | mongoose/mongoose.c:12002-12027 | fills in the fields, the present flags and the failure as specified |
| HttpBody.BodyArrives | mongoose/mongoose.c:5955-6010 | for chunks whose sizes are spelt in any way, either case or mixed, with leading zeros or none, in any segmentation and with deletions at any events, the pieces taken and the body in hand concatenate to the data sent, and nothing of the stream is left |
| HttpBody.SentMessage | mongoose/mongoose.c:6969-6977 | what the library's own sender writes for any pieces of data, with the empty chunk behind them, is such a stream |
| HttpBody.AnyCut | mongoose/mongoose.c:5955-6010 | after each call the buffer is the data of all complete chunks not yet taken followed by the raw bytes of the cut one |
| HttpBody.BodyInFront | mongoose/mongoose.c:5981-5987 | a handler that deletes nothing ends with the whole body in front of the buffer |
| HttpBody.BodyTaken | mongoose/mongoose.c:5992-5998 | a handler that deletes every chunk has been given the whole body and leaves none |
| HttpBody.CollapseFront | mongoose/mongoose.c:5965-5979 | the loop on a front part of a stream takes exactly its whole chunks |
| HttpBody.HandleTotal | mongoose/mongoose.c:5993-6000 | taking the body or leaving it loses and doubles nothing |
| HttpChunks.WholeChunk | mongoose/mongoose.c:5922-5953 | a whole chunk, its size spelt in any way, parses to its data and tail |
| HttpChunks.CutChunk | mongoose/mongoose.c:5922-5953 | such a chunk cut short anywhere is no chunk yet |
| HttpChunks.ParsedIff | mongoose/mongoose.c:5922-5953 | a buffer parses as a chunk if and only if it starts with a whole one |
| HttpChunks.SpellingRead | mongoose/mongoose.c:5928-5933 | digits of either case or mixed, leading zeros included, read as the positional number they spell |
| HttpChunks.DigitsAre | mongoose/mongoose.c:5931 | a digit has the same value in both cases |
| HttpChunks.OnlyDigits | mongoose/mongoose.c:5929 | and no other byte is a digit |
| HttpChunks.LowerCaseExample | mongoose/mongoose.c:5922-5953 | ten bytes behind the size line `a` are a chunk of 15 bytes with its data at 3 |
| HttpChunks.HexSpells | mongoose/mongoose.c:6973 | the sender spells a size in upper case without leading zeros |
| HttpChunks.HexBack | mongoose/mongoose.c:5929-5935 | a size the sender prints reads back |
| HttpChunked.ScanChunk | mongoose/mongoose.c:5922-5953 | the scanner computes the chunk at the front, if there is a whole one |
| HttpChunked.SendChunk | mongoose/mongoose.c:6969-6977 | appends the size line, what the sending function makes of the data, and the closing line; the wire form of the chunk if and only if the data is shorter than 2^31 bytes |
| HttpChunked.Receiver.CollapseOne | mongoose/mongoose.c:5969-5972 | moves one chunk's data to the end of the body and leaves the unparsed tail |
| HttpChunked.Receiver.CollapseAll | mongoose/mongoose.c:5965-5979 | the collapsing loop, in place |
| HttpChunked.Receiver.Shift | mongoose/mongoose.c:5981-6000 | closes the gap; with the delete flag also removes the body |
| HttpChunked.Receiver.HandleChunked | mongoose/mongoose.c:5955-6010 | the whole call: new body, rest and pieces taken; the handler is called exactly if something was parsed; headers untouched |
| HttpChunked.Receiver.ReceiveAll | mongoose/mongoose.c:5955-6010 | a whole message through the socket, in any reads and whatever the handler takes on the way: what it took and what then lies behind the headers is the data sent, nothing is left undecoded, and the headers are untouched |
| DictRows.Rehashed | hiredis/dict.c:106-125 | rehashing into a table of any size keeps every entry exactly once in the row of its slot: the same map |
| DictRows.Added | hiredis/dict.c:135-154 | a new entry in its slot extends the map |
| DictRows.Replaced | hiredis/dict.c:160-179 | a new value in the entry found updates the map |
| DictRows.Deleted | hiredis/dict.c:182-210 | taking out the entry found removes the key |
| DictRows.MaskIsRemainder | hiredis/dict.c:118 | masking with size - 1 for a power of two is the remainder |
| DictRows.Pow2Narrow | hiredis/dict.c:275-276 | a power of two from 2^31 on is no positive int |
| DictChains.Search | hiredis/dict.c:249-254 | the walk along a chain finds the entry of the key or none |
| DictChains.SearchPrev | hiredis/dict.c:191-208 | the walk of a deletion, with the predecessor |
| DictChains.Unlink | hiredis/dict.c:194-198 | relinking the predecessor takes out one entry |
| DictChains.SetVal | hiredis/dict.c:174-177 | setting one entry's value leaves the chain |
| Dicts.NextPower | hiredis/dict.c:306-315 | the least such power of two, from 4 on |
| Dicts.Relink | hiredis/dict.c:117-120 | one entry moves to the front of its new chain |
| Dicts.Dict.Find | hiredis/dict.c:243-256 | finds the entry of a key exactly if the map has it |
| Dicts.Dict.MoveAll | hiredis/dict.c:106-125 | the two loops relink the entries slot by slot |
| Dicts.Dict.AllMoved | hiredis/dict.c:126 | the assertion that nothing is left uncounted holds |
| Dicts.Dict.Expand | hiredis/dict.c:88-132 | the same map and the same entry objects in a table of a power of two of slots; refused if too small, and no table at all from LONG_MAX slots on |
| Dicts.Dict.ExpandIfNeeded | hiredis/dict.c:295-303 | afterwards there is room for one more, unless a full table cannot double below LONG_MAX |
| Dicts.Dict.KeyIndex | hiredis/dict.c:320-337 | the slot of a new key as an int, or -1 if the key is there |
| Dicts.Dict.Add | hiredis/dict.c:135-154 | extends the map, or refuses a key that is there; from 2^31 slots on also the outcomes of a slot that is a negative int |
| Dicts.Dict.Replace | hiredis/dict.c:160-179 | updates the map and says whether the key is new, with the same further outcomes |
| Dicts.OutcomesIff | hiredis/dict.c:135-179 | both tell a new key from an old one if and only if the key is old or its slot is below 2^31, as all slots of a table of at most 2^31 are |
| Dicts.Dict.Delete | hiredis/dict.c:182-210 | removes the key from the map, its entry from its chain, and nothing else |
| DictIterators.Iterator.Next | hiredis/dict.c:268-286 | returns what is left to return, one by one; the size is compared as an int, so nothing in a table of 2^31 slots or more |
| DictIterators.Iterator.DropReturned | hiredis/dict.c:278-282 | deleting the entry just returned does not disturb the walk |
| DictIterators.VisitAll | hiredis/dict.c:258-286 | a walk returns every key of the map exactly once, with its value, if and only if the table has fewer than 2^31 slots or is empty; otherwise nothing |
| DictIterators.DeleteAll | hiredis/dict.c:268-286 | so does a walk that deletes each entry as it is returned; it leaves an empty table, or from 2^31 slots on the table as it was |
| Md5Contexts.DigestPieces | mongoose/mongoose.c:983-1138 | however a message is split into updates of any lengths, the digest is the block function folded over the whole, padded with the length that was counted; the standard MD5 (RFC 1321 sections 3.1 to 3.5) if every update is shorter than 2^32 bytes |
| Md5Contexts.Md5Context.Update | mongoose/mongoose.c:1075-1108 | state, tail and place in the block are those of everything so far, for data of any length; the bit count stays right if and only if the data is shorter than 2^32 |
| Md5Contexts.Md5Context.HashAll | mongoose/mongoose.c:1099-1105 | the loop folds the block function over the whole blocks |
| Md5Contexts.Md5Context.Final | mongoose/mongoose.c:1110-1138 | the digest of the message padded with the length counted |
| Digests.CountedRight | mongoose/mongoose.c:1078-1080 | the two counter words hold the bit count modulo 2^64, carry included |
| Digests.CountedIff | mongoose/mongoose.c:1078-1080 | for any length memory can hold, the count is right if and only if the length is below 2^32 |
| Digests.CountedAllIff | mongoose/mongoose.c:1078-1080 | over any number of updates of a message whose bit count fits 64 bits, the count is right if and only if each is shorter than 2^32 |
| Digests.LowMore | mongoose/mongoose.c:1078-1080 | the low word stays right for data of any length |
| Digests.BlockPlace | mongoose/mongoose.c:1082 | the place in the block follows from the low counter word |
| Digests.FoldNext | mongoose/mongoose.c:1099-1105 | one more whole block is one more application of the block function |
| Digests.FoldWhole | mongoose/mongoose.c:1107 | the tail does not enter the state |
| DigestLayout.Md5Is | mongoose/mongoose.c:983-1138 | MD5 of a message is the last state of the chain that starts at the initial words and takes the padded message block by block; the last eight bytes of it are 8 times the length modulo 2^64, least significant byte first |
| DigestLayout.Sha1Is | mongoose/mongoose.c:1309-1360 | the same for SHA-1, most significant byte first |
| DigestLayout.PaddedIs | mongoose/mongoose.c:1115-1131 | a padded message is the message, the byte 128, as few zeros as end it with a block, and the length |
| DigestLayout.WordsAt | mongoose/mongoose.c:1134-1135 | bytes 4 i to 4 i + 3 of a digest are word i, least significant first for MD5 and most significant first for SHA-1 |
| DigestLayout.CountBack | mongoose/mongoose.c:1129-1131 | the eight bytes of a bit count read back as that count, in both orders |
| DigestLayout.InitialBytes | mongoose/mongoose.c:983-988 | the initial words as bytes count up and down again (RFC 1321 section 3.3); SHA-1 has the same and a fifth (FIPS 180-4 section 5.3.1) |
| Sha1Contexts.DigestPieces | mongoose/mongoose.c:1309-1360 | the same for SHA-1 (FIPS 180-4 section 5.1.1), for updates of any length a uint32 holds: the digest of the whole if every update fits behind its place in the block within 32 bits, and a copy past the block buffer at the first that does not |
| Sha1Contexts.Sha1Context.Update | mongoose/mongoose.c:1318-1336 | state, tail and bit count are those of everything so far if and only if place in the block and length add up below 2^32 |
| Sha1Contexts.NoWrap | mongoose/mongoose.c:1329-1331 | within that bound the loop's own 32-bit sum never wraps |
| Sha1Contexts.Sha1Context.Final | mongoose/mongoose.c:1338-1360 | the digest of the padded message, the padding fed through update and the count taken before it |
| Sha1Contexts.Sha1Context.PadZeros | mongoose/mongoose.c:1349-1352 | the loop ends after exactly the zeros of the standard padding |

## Left out

- ZeroMQ and Redis sockets, HTTP routing, JSON text, data seeding and the like counter of `mongoose/server.cpp`: a history entry is a version and a payload, and a Redis command a step.
- Message loss, process restarts, sharing of one Redis connection between threads, and the size limits of `rep_msg_t`: the channel is reliable and sizes fit.
- DiaryServer.Server.FastCommit: runs without other steps in between, as do the other whole handlers there; interleavings are those of the state machine, of which each handler is one run.
- DiaryServer.Server.SlowCommit: the fall-through on a reply to `LRANGE` that is not an array is left out; the command always answers with a list.
- DiaryServer.Server.LatestDiary: gives None where the program would index past `hlist`, such as for an empty history.
- Integer width of version numbers and lock counters: unbounded integers.
- `hiredis/net.c`, `hiredis/adapters/`, `hiredis/examples/`, connection setup and the blocking calls: I/O over libraries that are not part of this model.
- RespReader.Reader.Create: objects are entries of an indexed store that grows; their release, also after an error, and failed allocations are not modelled.
- RespReader.Reader.SeekNewline: needs no more than 2^31 unread bytes, the range of the code's int position and length; beyond them the code finds nothing or looks at a front part only.  The theorems on chunking inherit this bound.
- RespReader.Reader.ReadLongLong: unbounded integers; the code's 64-bit wrap-around and its narrowing to int are not modelled.
- RespReader.Reader.ProcessBulkItem: like the code, does not look at the two bytes after the data.
- RespReader.Reader.CloseArrays: with NextIndex, the loop of `moveToNextTask` in two halves.
- RespPrinter.FormatCommandArgv: takes fewer than 2^31 arguments, the range of `argc`; a size that is not negative can always be allocated.
- RespFormat.FormatCommand: the printf directives and the error for an unknown one are left out, so formats hold `%s`, `%b`, `%%`, spaces and other bytes.
- RespPrinter.FormatSdsCommandArgv: takes fewer than 2^31 arguments, the range of `argc`; the `size_t` sum of lengths is unbounded, and where bytes would land outside a string the outcome says so and nothing more.
- Other directives of `sdscatfmt` than those the formatter uses, `sdsrange` other than dropping a prefix, and the rest of `hiredis/sds.c`: simple string handling.
- WsStream.EndToEnd: for legal frame sequences with defragmentation on; the decoder itself is modelled on all byte streams but one case, a final empty continuation with nothing under reassembly, where the code's length underflows.
- WsConnection.Connection.DeliverData: the frames sent in reaction (pong, close) are recorded as events rather than written; the text of the close reasons is not modelled.
- WsConnection.Connection.SendFrameV: needs a total below 2^31, the range of the code's int.
- Mbufs.Mbuf.Send: a length that is negative as an int becomes a size of almost 2^64, which the buffer is taken to refuse, as it does for a buffer above the lowest 2^31 addresses.
- Handshake, idle pings and the no-defragmentation flag of WebSocket.
- AsyncRuns.ExactlyOnce: plain commands on a connected context; pub/sub, MONITOR and the connect and disconnect callbacks are left out; what a callback does is an arbitrary script of commands, disconnects and frees; replies arrive as the batches one read completes.
- SdsQuoting.SplitArgs: builds a sequence of strings; allocation of the vector is not modelled.  A line ends at its first NUL.
- Coap.AddOption: works on a sequence with the source's comparisons; relinking of the option list in place is not captured.
- Coap.ReadOption: the option whose value is cut off is not added before it is dropped again, as in the code; nobody can see it.
- CoAP sending, acknowledgements and event handling.
- HttpChunks.ParseChunk: chunk sizes are unbounded; the code's `size_t` wrap-around is not modelled.
- HttpChunked.Receiver.HandleChunked: when the last chunk has come, the message length covers all of the buffer, bytes after the body included, as in the code; the comment there speaks of body and headers only.
- HTTP requests and responses other than chunked bodies, SSL, CGI, SSI, WebDAV, file serving, multipart, MQTT, DNS, base64 and the platform layers of `mongoose/mongoose.c`: plumbing, or codecs simpler than those modelled.
- DictIterators.Iterator.Next: does not model the overflow of the slot index by 2^31 calls after the end.
- Dicts.Dict.Add: keys and values are integers compared for equality under any hash function; key and value destructors, `_dictClear` and failed allocations below LONG_MAX slots are left out; the hash of the key is a 32-bit unsigned int, and where an entry would be stored outside the table the outcome says so and the state stays.
- Md5Contexts.Md5Context.Final: the words are little-endian, as on the machines where `byteReverse` does nothing.
- Sha1Contexts.Sha1Context.Update: what lies behind the block buffer, where the copy goes when data does not fit, is not modelled. HMAC is left out.
- The MD5 and SHA-1 round functions: any block function.
