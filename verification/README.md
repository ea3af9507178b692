# Verified models of the ISAM index and of the Crow core

Dafny models of six parts of the repository, with proofs. Each part has a
functional account of what the code does, an independent account of what it is
for, and imperative code in the source's own form (classes, loops, in-place
arrays) that is proved to refine the first; lemmas connect the first with the
second, for all inputs.

- **HTTP request parser** (`Http*.dfy`). `HttpStep` is one byte on the parser's
  fields, `HttpExecute` the buffered parser with its bulk scans, marks and late
  counting. The buffered parser refines the bytewise one for every buffer;
  hence an input may be cut anywhere. `HttpInvariant` holds over every run, and
  `HttpAsserts` says which assertions can fail and when. `HttpMethods`,
  `HttpNames`, `HttpLines`, `HttpFields` and `HttpHead` say exactly which texts of
  heads are accepted and that they are read as they were written; `HttpForms`
  that nothing else is. `HttpFraming` is about bodies, and `HttpMessages` puts
  both together: from the header lines alone, which messages are accepted and
  what they deliver. `HttpRequest` builds the request from the callbacks, and
  says which headers it has.
- **ISAM index** (`Isam*.dfy`). Three files as growing sequences: 27 chains of
  pages below a static tree of separators, and linked duplicates. After any
  build and any insertions every search answers like a plain multimap. After
  removals too, every operation has its exact condition for doing so;
  `IsamRuns` states whole runs, and `IsamLosses` runs in which records are lost.
- **Router** (`Router*.dfy`). The tree of path pieces with typed captures finds
  what trying every added pattern in turn would, before and after path
  compression.
- **JSON** (`Json*.dfy`). Printer, in-place unescaping and destructive parser;
  `load(dump(v))` is `v` exactly up to 5000 nested containers.
- **WebSocket** (`WebSocket*.dfy`). The frame reader as a state machine and the
  header writer; reading inverts framing, and fragmented messages arrive whole.
- **Mustache** (`Mustache*.dfy`). The compiler to a flat list of actions, against
  a function on the text; the text of every tree of blocks compiles to it, and
  the jumping interpreter renders what the tree means.

`Sequences.dfy` holds general facts about sequences.
`dafny verify dfyconfig.toml` checks the whole project.

## How to read it

A byte is a character whose code is below 256 (`HttpTypes`, JSON) or an integer
below 256 (WebSocket). Callbacks return 0 and are kept as a log in which
neighbouring pieces of the same kind of data are joined. File positions of the
index are counted in pages and records; pages keep whatever was in the slots
past their count, and a new page in memory begins with arbitrary slots. The
order that sorting gives equal keys is a parameter of `BulkInsert`. `strtod`,
and what a Mustache name or partial stands for, are arbitrary functions.
Exceptions are results. Where the Mustache compiler looks for the last of no
open blocks, which the language leaves undefined, the result is `Undefined`.

## Where the code does other than it says

- `http_parser_merged.h:1387` calls a branch unreachable: a NUL as the first
  byte of a Connection value gets there (`HttpAsserts.AssertCanFail`), and
  nothing else does (`HttpAsserts.OnlyNulIsLatent`).
- `http_parser_merged.h:681-690` declares 256 entries and gives 128, so bytes
  from 128 up count as the hexadecimal digit 0 in a chunk size. A size that is
  accepted is one of section 4.1 of RFC 7230 exactly when it has no such byte
  (`HttpFraming.SizeLineIff`, `HttpFraming.SizeMeetsRfcIff`); a line of one
  ends the body (`HttpFraming.HighByteEndsBody`).
- `http_parser_merged.h:1184-1194` notes a Transfer-Encoding at the last letter of
  the word and keeps the note when the name goes on. A message with such a
  longer name is accepted exactly when it asks for an upgrade and states no
  length (`HttpMessages.LongerNameIsRefusedIff`); without, it is refused
  (`HttpMessages.LongerNameIsRefused`).
- `parser.h:41-87` drops a header with an empty value, unless it is the last: all
  headers are kept exactly when none but the last has one
  (`HttpRequest.AllHeadersIff`, `HttpRequest.EmptyValueIsLost`).
- `DataPage.cpp:145` compares with the slot past the one it moves, so pages do
  not stay sorted (`IsamPages.InsertKeepsSortedIff`, `IsamPages.InsertUnsorts`);
  no search relies on it.
- `ISAM.cpp:464-508` never moves `prev_pos`: a removal that empties the third
  page of a chain or a later one loses the pages before it
  (`IsamRemoval.OthersSurviveIff`, `IsamLosses.LosePage`).
- `ISAM.cpp:403-404` ends a chain at an empty page, and a removal can empty a
  first page with records behind it. A range search finds everything exactly
  when no such chain holds a record in the range
  (`IsamIndex.Isam.RangeSearch`, `IsamLosses.EmptyFirstPage`).
- `ISAM.cpp:251-253` links an empty first page to a new page, past all others: an
  insertion keeps what is stored exactly when there are none
  (`IsamIndex.Isam.Add`, `IsamLosses.EmptyFirstPage`).
- `ISAM.cpp:188-193` looks at the first record with a key only, and a key may have
  more than one (`IsamRemoval.SearchIsAllIff`, `IsamLosses.FindSome`).
- `ISAM.cpp:480-485` skips the record that moves into a freed slot
  (`IsamRemoval.PurgeClearsIff`, `IsamLosses.RemoveSome`).

## Model

| member | source | states |
|---|---|---|
| `HttpExecute.HttpParser.constructor` | libs/Crow/crow/http_parser_merged.h:1922-1930 | a fresh parser is in the start state, with no callback run, and meets the invariant |
| `HttpExecute.HttpParser.Execute` | libs/Crow/crow/http_parser_merged.h:633-1920 | one call on one buffer, empty buffers included: it consumes everything without error exactly when the byte-at-a-time run accepts it, and then its fields and joined callback log are those of that run |
| `HttpExecute.HttpParser.ExecuteBytes` | libs/Crow/crow/http_parser_merged.h:727-1911 | the main loop over a non-empty buffer, with bulk scans, marks and late counting, refines the byte-at-a-time run for every buffer and every parser state that can be reached |
| `HttpExecute.HttpParser.Consume` | libs/Crow/crow/http_parser_merged.h:750-1896 | one turn of the main loop, bulk or not, leaves fields, callbacks and marks where the byte-at-a-time run over the same bytes is |
| `HttpExecute.HttpParser.Feed` | libs/Crow/crow/http_parser_merged.h:730-748 | the pieces of an input are accepted exactly when the byte-at-a-time run accepts each, from where the one before ended, and then leave the fields and the joined callback log of that run; for an input accepted as a whole these are the ones of the whole, whatever the pieces |
| `HttpExecute.PiecesIff` | libs/Crow/crow/http_parser_merged.h:1652-1657 | an input is accepted as a whole exactly when its pieces are and none but the last ends in an upgrade; the runs are then the same |
| `HttpExecute.HttpParser.Clear` | libs/Crow/crow/parser.h:139-148 | ready for the next message: only the state goes back to the start |
| `HttpExecute.HttpParser.Deliver` | libs/Crow/crow/http_parser_merged.h:245-271 | a data callback delivers exactly the bytes from its mark, and none is run without a mark |
| `HttpExecute.HttpParser.ScanField` | libs/Crow/crow/http_parser_merged.h:1106-1218 | the header-name scan, with its inner loop over general names, delivers and counts what single bytes would |
| `HttpExecute.HttpParser.EndField` | libs/Crow/crow/http_parser_merged.h:1220-1248 | after the scan: a colon, the end of the buffer or a refused byte, and the bytes counted at once instead of one by one |
| `HttpExecute.HttpParser.ScanValue` | libs/Crow/crow/http_parser_merged.h:1334-1500 | the header-value scan with the sub-state held in a local variable refines single bytes |
| `HttpExecute.HttpParser.ScanGeneral` | libs/Crow/crow/http_parser_merged.h:1364-1383 | the scan for the end of an ordinary value, no farther than the size limit, which may step over one byte only when the limit is passed anyway |
| `HttpExecute.HttpParser.EndValue` | libs/Crow/crow/http_parser_merged.h:1501-1509 | what follows the scan: the line end or the end of the buffer, and the late count |
| `HttpExecute.HttpParser.TakeBytes` | libs/Crow/crow/http_parser_merged.h:1716-1750 | as much of an identity body or a chunk as the buffer holds is taken at once, as single bytes would be |
| `HttpExecute.HttpParser.AtUrl` | libs/Crow/crow/http_parser_merged.h:866-942 | the mark of the target is set at its first byte and the target delivered at the byte behind it |
| `HttpExecute.HttpParser.AtFraming` | libs/Crow/crow/http_parser_merged.h:1573-1911 | the callbacks behind the headers that no loop makes |
| `HttpExecute.HttpParser.AtHeader` | libs/Crow/crow/http_parser_merged.h:1056-1104 | the marks and callbacks of the header states without a loop |
| `HttpExecute.HttpParser.AtByte` | libs/Crow/crow/http_parser_merged.h:758-1911 | every state without a loop: fields, marks and callbacks of one byte |
| `HttpExecute.BodyBulk` | libs/Crow/crow/http_parser_merged.h:1844-1865 | taking k body bytes at once is taking them one by one, also across the end of a message |
| `HttpExecute.EofBulk` | libs/Crow/crow/http_parser_merged.h:1753-1757 | the rest of the buffer as body is the same bytes one by one |
| `HttpExecute.FieldScanByte` | libs/Crow/crow/http_parser_merged.h:1116-1218 | each token byte of a name grows the delivered name by itself and changes no other field than the matcher's |
| `HttpExecute.ValueScanByte` | libs/Crow/crow/http_parser_merged.h:1338-1500 | each byte of a value grows the delivered value by itself or makes the whole input refused |
| `HttpExecute.OverLimit` | libs/Crow/crow/http_parser_merged.h:292-299 | a scan counted late refuses exactly the inputs that bytes counted one by one would |
| `HttpExecute.LeftOver` | libs/Crow/crow/http_parser_merged.h:1652-1657 | bytes behind the early return of an upgrade are not accepted |
| `HttpExecute.TracksPast` | libs/Crow/crow/http_parser_merged.h:1364-1383 | the byte the general scan steps over without looking is beyond the size limit already |
| `HttpFold.FoldConcat` | libs/Crow/crow/http_parser_merged.h:727-748 | a run over two buffers joined is the run over the first and then over the second |
| `HttpFold.RefusedForGood` | libs/Crow/crow/http_parser_merged.h:707-710 | an error is for good: no later byte changes anything |
| `HttpFold.FoldBody` | libs/Crow/crow/http_parser_merged.h:1716-1750 | body bytes up to the known length are delivered in order, and the last one ends the message |
| `HttpInvariant.NextKeepsInv` | libs/Crow/crow/http_parser_merged.h:750-1911 | one byte in any state keeps what every state promises about sub-state, index, flags, lengths and count |
| `HttpInvariant.EventsAlwaysFit` | libs/Crow/crow/http_parser_merged.h:221-271 | the callbacks a byte causes fit the state it leads to: data is under way exactly in the states that collect it |
| `HttpInvariant.StepKeepsInv` | libs/Crow/crow/http_parser_merged.h:750-1911 | every step of a run keeps the invariant on fields and callback log |
| `HttpInvariant.FoldKeepsInv` | libs/Crow/crow/http_parser_merged.h:633-1920 | whole-run invariant, for every input |
| `HttpInvariant.MethodNextFits` | libs/Crow/crow/http_parser_merged.h:811-864 | the method matcher never reads past the end of a method name |
| `HttpInvariant.LengthDigitIsExact` | libs/Crow/crow/http_parser_merged.h:1395-1423 | a decimal digit is added exactly or refused: the product formed before the limit test never wraps unnoticed |
| `HttpInvariant.SizeDigitIsExact` | libs/Crow/crow/http_parser_merged.h:1779-1814 | the same for a hexadecimal digit of a chunk size |
| `HttpAsserts.AssertsHoldExactly` | libs/Crow/crow/http_parser_merged.h:1382-1390 | in every reachable state all assertions hold but one, and that one fails exactly on a value byte while the sub-state is still that of a Connection name |
| `HttpAsserts.OnlyNulIsLatent` | libs/Crow/crow/http_parser_merged.h:1265-1332 | the only byte that leads there is a NUL as the first byte of a Connection value |
| `HttpAsserts.NoNulNeverLatent` | libs/Crow/crow/http_parser_merged.h:1265-1332 | no input without NUL bytes ever gets there, over whole runs |
| `HttpAsserts.AssertsHoldWithoutNul` | libs/Crow/crow/http_parser_merged.h:1215-1215 | for every input without a NUL byte every assertion holds at every byte |
| `HttpAsserts.AssertCanFail` | libs/Crow/crow/http_parser_merged.h:1387-1387 | an input on which the assertion that the code calls unreachable fails |
| `HttpFraming.LengthIsExact` | libs/Crow/crow/http_parser_merged.h:1395-1423 | the digits of a Content-Length are read as the number they write, below the all-ones sentinel, or refused; exactly which are refused is stated |
| `HttpFraming.ContentLengthIsExact` | libs/Crow/crow/http_parser_merged.h:1293-1306 | the same for a whole Content-Length value from its first digit |
| `HttpFraming.SizeIsExact` | libs/Crow/crow/http_parser_merged.h:1779-1814 | the digits of a chunk size are read as the hexadecimal number they write, or refused |
| `HttpFraming.SizeLineIff` | libs/Crow/crow/http_parser_merged.h:1763-1842 | a chunk-size line is accepted exactly when all bytes of its size are ones that the table takes for hexadecimal digits, its first one included, and the number written does not pass the limit at any digit; then the next chunk has that length, read from the table, and size zero begins the trailer. A byte that the table does not take is refused |
| `HttpFraming.SizeMeetsRfcIff` | libs/Crow/crow/http_parser_merged.h:681-690 | an accepted size is hexadecimal digits as in section 4.1 of RFC 7230 exactly when it has no byte from 128 up |
| `HttpFraming.HighByteEndsBody` | libs/Crow/crow/http_parser_merged.h:681-690 | the size line whose only byte is 128 is accepted, as the last chunk |
| `HttpFraming.ReadChunk` | libs/Crow/crow/http_parser_merged.h:1763-1881 | a chunk encoded as in section 4.1 of RFC 7230 delivers its data and leaves the parser before the next chunk |
| `HttpFraming.ChunkedBodyIsDecoded` | libs/Crow/crow/http_parser_merged.h:1763-1881 | any non-empty chunks, the last chunk and the empty line deliver the chunks' data joined and then signal completion, once, at the final line feed |
| `HttpFraming.EmptyChunkedBody` | libs/Crow/crow/http_parser_merged.h:1827-1842 | a chunked message without data completes and delivers nothing |
| `HttpFraming.IdentityBodyIsDelivered` | libs/Crow/crow/http_parser_merged.h:1716-1750 | with Content-Length n, bytes are delivered as they come and completion is signalled with the n-th, not before |
| `HttpFraming.NoBodyWithBothLengths` | libs/Crow/crow/http_parser_merged.h:1583-1599 | over every run: with the default settings no body byte is delivered while the fields say that both framing headers were seen, and chunked reading implies that Transfer-Encoding was |
| `HttpNames.NameIsKnown` | libs/Crow/crow/http_parser_merged.h:1106-1248 | at its colon a header name counts as Connection, Content-Length, Transfer-Encoding or Upgrade exactly when it is that word in any mixture of cases (Connection also for Proxy-Connection): for every name |
| `HttpFields.LineEffect` | libs/Crow/crow/http_parser_merged.h:1056-1571 | which header lines are taken, folded values included, and what each leaves in the fields: `usesTE` exactly for names that begin with transfer-encoding, the length flag exactly for Content-Length, and so on |
| `HttpFields.BlockEffect` | libs/Crow/crow/http_parser_merged.h:1056-1571 | the same for every block of header lines: the fields after it are the accumulated effects of its lines, by their names and values |
| `HttpFields.ChunkedIff` | libs/Crow/crow/http_parser_merged.h:1308-1319 | a Transfer-Encoding value without commas says chunked exactly when it is that word in any case, with nothing but spaces behind it |
| `HttpFields.LengthIff` | libs/Crow/crow/http_parser_merged.h:1395-1423 | a Content-Length is accepted exactly when its value is digits and then spaces and the digits pass the test against overflow; it then states the number they write, which is below the sentinel |
| `HttpMethods.MethodNameIsRead` | libs/Crow/crow/http_parser_merged.h:811-864 | the method matcher ends with a method exactly when the letters are that method's name: for all texts and all 34 methods |
| `HttpMethods.GuessIsPrefix` | libs/Crow/crow/http_parser_merged.h:827-858 | the guess that is changed from letter to letter always has the letters read so far |
| `HttpMethods.MethodIsRead` | libs/Crow/crow/http_parser_merged.h:769-864 | a request line is accepted past its method exactly when the text before the space is a method name, and then the method is that one |
| `HttpHead.TargetPart` | libs/Crow/crow/http_parser_merged.h:866-942 | a target and the space behind it are accepted exactly when they fit and the scan of the target ends where one may end; the target is delivered as it stands |
| `HttpHead.PathIsTarget` | libs/Crow/crow/http_parser_merged.h:866-942 | every path is such a target, with or without a query |
| `HttpLines.NameIsRead` | libs/Crow/crow/http_parser_merged.h:1106-1248 | every name of token characters is accepted within the size limit and delivered as it stands |
| `HttpLines.ValueIsRead` | libs/Crow/crow/http_parser_merged.h:1334-1571 | exactly which values are accepted, and that each is delivered as it stands |
| `HttpHead.VersionIsRead` | libs/Crow/crow/http_parser_merged.h:944-1054 | a version is accepted within the size limit, and the one recorded is the two digits written |
| `HttpHead.VersionIff` | libs/Crow/crow/http_parser_merged.h:944-1054 | the texts that lead from the space behind the target to the first header line are exactly these: spaces, then HTTP, or ICE in a SOURCE request, then a slash, a digit, a dot, a digit and a line end |
| `HttpHead.OnlyVersions` | libs/Crow/crow/http_parser_merged.h:944-1054 | no other text that is accepted gets there |
| `HttpLines.LineIsRead` | libs/Crow/crow/http_parser_merged.h:1056-1571 | a header line is accepted exactly within the size limit and with a value its name may have; it delivers its name and its value without the white space between: empty values, values folded over several lines and bare line feeds included |
| `HttpLines.LinesAreRead` | libs/Crow/crow/http_parser_merged.h:1056-1571 | the same for a block of header lines, in their order |
| `HttpHead.HeadEnds` | libs/Crow/crow/http_parser_merged.h:1573-1714 | the empty line is accepted exactly when the parser knows how long the body is; it completes the headers, and the message exactly when there is no body |
| `HttpHead.TrailerEnds` | libs/Crow/crow/http_parser_merged.h:1573-1590 | the empty line behind a trailer completes the message |
| `HttpHead.RequestLineIsRead` | libs/Crow/crow/http_parser_merged.h:768-1054 | a request line, with any line ends in front of it and any spaces before its target, is accepted exactly when it fits and its target may end where it does |
| `HttpHead.TailIsRead` | libs/Crow/crow/http_parser_merged.h:866-1054 | a target and what follows it: a version, or in a GET request nothing, which stands for version 0.9 |
| `HttpHead.HeadIsRead` | libs/Crow/crow/http_parser_merged.h:768-1714 | a head is accepted exactly when it fits, its target and its lines are ones that are taken, and the lines say how long the body is; it is read as it was written: method, target, version and every header, in order, and then the end of the headers |
| `HttpMessages.HeadIsAcceptedIff` | libs/Crow/crow/http_parser_merged.h:768-1714 | the same in terms of the header lines alone: which heads are accepted, which of them complete the message, and which stop the parser for an upgrade |
| `HttpForms.OnlyHeads` | libs/Crow/crow/http_parser_merged.h:768-1714 | every input that is accepted up to the end of a head is the text of a head |
| `HttpForms.HeadsAre` | libs/Crow/crow/http_parser_merged.h:768-1714 | so the inputs that get to the end of a head are the texts of heads that fit, with a target and lines that can be taken and that say how long the body is |
| `HttpForms.OnlyBlocks` | libs/Crow/crow/http_parser_merged.h:1056-1714 | a header block that is accepted up to its end is header lines and an empty line |
| `HttpMessages.PlainHeadIsComplete` | libs/Crow/crow/http_parser_merged.h:768-1714 | a request whose header names are none of Content-Length, Upgrade and those that begin with Transfer-Encoding is accepted exactly when its size, its target and the bytes of its values are, and is complete at its empty line |
| `HttpMessages.NoBodyWithBothHeaders` | libs/Crow/crow/http_parser_merged.h:1583-1599 | a message with a Content-Length line and a Transfer-Encoding line is refused at its empty line under the default settings, and nothing behind it is delivered (section 3.3.3 of RFC 7230) |
| `HttpMessages.LongerNameIsRefusedIff` | libs/Crow/crow/http_parser_merged.h:1184-1194 | a message in which a name only begins with transfer-encoding is accepted exactly when it asks for an upgrade and states no length: the flag is set at the last letter of the word and never taken back |
| `HttpMessages.LongerNameIsRefused` | libs/Crow/crow/http_parser_merged.h:1184-1194 | the request whose one header is "Transfer-Encodings: x" is refused |
| `HttpMessages.LengthMessage` | libs/Crow/crow/http_parser_merged.h:768-1750 | a whole message: a head that states the length n and n bytes are accepted, the bytes are the body, and the message is complete at the n-th and not before |
| `HttpMessages.StatedIs` | libs/Crow/crow/http_parser_merged.h:1293-1306 | the length stated is that of the one Content-Length line of the head |
| `HttpMessages.ChunkedMessage` | libs/Crow/crow/http_parser_merged.h:768-1881 | a whole message: a head that says chunked, any chunks and any trailer; exactly which are accepted. The body is the data of the chunks joined |
| `HttpMessages.TrailerIsRead` | libs/Crow/crow/http_parser_merged.h:1763-1881 | behind the last chunk, exactly which trailers are accepted; their names and values are delivered in order, and completion is signalled once |
| `HttpRequest.BuildIgnoresCuts` | libs/Crow/crow/parser.h:30-93 | the target as sent and the headers of the request built from the callbacks depend only on the data joined, not on how it was cut |
| `HttpRequest.HeadBuilds` | libs/Crow/crow/parser.h:30-93 | the request built from an accepted head has its target, and of its headers those with a value and the last one |
| `HttpRequest.AllHeadersIff` | libs/Crow/crow/parser.h:41-87 | a request has all headers of its head exactly when none but the last has an empty value: for every accepted head |
| `HttpRequest.KeptAllIff` | libs/Crow/crow/parser.h:41-87 | of any headers, those that are kept are all exactly when none but the last has an empty value |
| `HttpRequest.EmptyValueIsLost` | libs/Crow/crow/parser.h:41-59 | the request with the headers "A:" and "B: c" is accepted and has only the second |
| `HttpRequest.Receive` | libs/Crow/crow/parser.h:110-132 | end to end: the pieces of an input are accepted, and give a request, exactly as when each is read byte by byte and nothing behind a complete message is; a request that comes in any pieces has the target as sent, headers and body of the whole input |
| `HttpRequest.FeedOne` | libs/Crow/crow/parser.h:110-132 | one piece: nothing is parsed once the message is complete, else exactly the pieces are taken that the byte-at-a-time run accepts |
| `IsamPages.InsertPosIs` | libs/Indexes/ISAM/src/DataPage.cpp:144-150 | where the insertion loop stops, given that it compares with the slot past the one it should |
| `IsamPages.InsertKeepsSortedIff` | libs/Indexes/ISAM/src/DataPage.cpp:138-152 | an insertion keeps a sorted page sorted exactly when the new key belongs at one end and the left-over slot happens to send it there |
| `IsamPages.InsertUnsorts` | libs/Indexes/ISAM/src/DataPage.cpp:138-152 | an insertion of the key 3 into a page with the keys 1 and 5, behind which a removal left its record, gives 1, 5, 3 |
| `IsamPages.InsertedLive` | libs/Indexes/ISAM/src/DataPage.cpp:138-152 | the records after an insertion are the old ones, in their order, with the new one among them |
| `IsamPages.DataPage.InsertRecord` | libs/Indexes/ISAM/src/DataPage.cpp:138-152 | the in-place shift is that insertion, and a full page is refused unchanged |
| `IsamPages.DataPage.ShiftUp` | libs/Indexes/ISAM/src/DataPage.cpp:144-150 | the loop moves the slots it passes up by one and leaves the others |
| `IsamPages.RemovedLive` | libs/Indexes/ISAM/src/DataPage.cpp:110-126 | the records after a removal are the old ones without the one removed |
| `IsamPages.DataPage.Remove` | libs/Indexes/ISAM/src/DataPage.cpp:110-126 | the in-place shift is that removal, and an index out of range is refused |
| `IsamPages.DataPage.SetRecord` | libs/Indexes/ISAM/src/DataPage.cpp:80-90 | a slot written and the count grown, nothing else changed |
| `IsamPages.DataPage.ClearRecord` | libs/Indexes/ISAM/src/DataPage.cpp:132-135 | a slot cleared and the count reduced |
| `IsamPages.DataPage.Read` | libs/Indexes/ISAM/src/DataPage.cpp:31-42 | the page in memory is the page in the file, left-over slots included |
| `IsamIndex.IndexNode.SetKey` | libs/Indexes/ISAM/src/IndexPage.cpp:14-21 | one key of an index page in memory written |
| `IsamIndex.IndexNode.SetChild` | libs/Indexes/ISAM/src/IndexPage.cpp:24-31 | one child of an index page in memory written |
| `IsamModel.InRangePermuted` | libs/Indexes/ISAM/src/ISAM.cpp:369-426 | the reference answer to a range search depends only on which pairs are stored |
| `IsamModel.ScanIsInRange` | libs/Indexes/ISAM/src/ISAM.cpp:407-412 | collecting positions record by record, duplicates included, gives the reference answer over all stored pairs |
| `IsamContents.RecordAdded` | libs/Indexes/ISAM/src/ISAM.cpp:251-314 | a new record anywhere in the chain on its route keeps separators and links in order, and adds exactly its own pair to what is stored |
| `IsamContents.LinkedPairs` | libs/Indexes/ISAM/src/ISAM.cpp:574-600 | a duplicate put at the front of a record's list adds exactly its own pair, and links point to earlier entries under the same key |
| `IsamContents.DuplicateAdded` | libs/Indexes/ISAM/src/ISAM.cpp:574-600 | the same within the whole contents |
| `IsamContents.RangeIsExact` | libs/Indexes/ISAM/src/ISAM.cpp:381-420 | a scan from the chain found with < up to one behind which it may stop sees all that can be seen in the range, although pages are unsorted and equal keys cross separators |
| `IsamContents.SeenIsAllIff` | libs/Indexes/ISAM/src/ISAM.cpp:396-404 | what can be seen is all that is stored in the range exactly when no chain with an empty first page hides a record in it; it is never more |
| `IsamContents.ChainCut` | libs/Indexes/ISAM/src/ISAM.cpp:299-314 | a record that takes the place of all that its chain holds stores one more pair exactly when the chain held nothing |
| `IsamChains.ChainReplaced` | libs/Indexes/ISAM/src/ISAM.cpp:321-350 | rewriting one chain with its own or new pages leaves all other chains and their contents alone, and keeps chains acyclic and disjoint |
| `IsamChains.PageSplit` | libs/Indexes/ISAM/src/ISAM.cpp:321-350 | a page split in two holds the same records on the same chain |
| `IsamChains.PagesDropped` | libs/Indexes/ISAM/src/ISAM.cpp:500-509 | a link past pages drops exactly their records |
| `IsamChains.AddedInPlace` | libs/Indexes/ISAM/src/ISAM.cpp:276-281 | an insertion into a page with room keeps everything and stores one more pair |
| `IsamChains.AddedBySplit` | libs/Indexes/ISAM/src/ISAM.cpp:268-274 | an insertion that splits a page, or appends one, does the same |
| `IsamChains.AddedDuplicate` | libs/Indexes/ISAM/src/ISAM.cpp:256-265 | an insertion of a key that is there does the same through the duplicates file |
| `IsamChains.AddedPastEmpty` | libs/Indexes/ISAM/src/ISAM.cpp:251-253 | a record that goes on a new page behind an empty first page: the pages that were behind it are linked past |
| `IsamChains.Descended` | libs/Indexes/ISAM/src/ISAM.cpp:232-237 | one step down the index stays on the way to the chain between the key's separators, with < and with <= |
| `IsamChains.RouteIs` | libs/Indexes/ISAM/src/ISAM.cpp:172-202 | the chain that a descent reaches is determined by the separators alone |
| `IsamBuild.BuiltIsOk` | libs/Indexes/ISAM/src/ISAM.cpp:102-132 | after the primary pages and the index are written all invariants hold and exactly the first 81 records are stored |
| `IsamBuild.PermutedPairs` | libs/Indexes/ISAM/src/ISAM.cpp:95-98 | sorting loses no pair |
| `IsamBuild.RouteOfKey` | libs/Indexes/ISAM/src/ISAM.cpp:102-132 | of 81 records with different keys, the key of the i-th leads to data page i / 3, where it was put |
| `IsamBuild.DescentOfKey` | libs/Indexes/ISAM/src/ISAM.cpp:163-205 | where a descent for such a key gets: to that page, and with < for the first key of a page to the page before |
| `IsamIndex.Isam.Descend` | libs/Indexes/ISAM/src/ISAM.cpp:163-205 | from the root to the one chain between the key's neighbouring separators |
| `IsamIndex.Isam.GetAllRaw` | libs/Indexes/ISAM/src/ISAM.cpp:602-619 | a record's position and those on its list of duplicates, in order; the walk ends |
| `IsamIndex.Isam.Search` | libs/Indexes/ISAM/src/ISAM.cpp:148-161 | the answer is what the first record with the key on its chain has, part of all positions stored under the key, and all of them exactly when at most one record has the key; after builds and insertions it is non-empty exactly when the key is stored. After removals too, it may be called |
| `IsamIndex.Isam.SearchChain` | libs/Indexes/ISAM/src/ISAM.cpp:183-198 | the walk over pages and slots finds the first record with the key on its chain |
| `IsamIndex.Isam.RangeSearch` | libs/Indexes/ISAM/src/ISAM.cpp:353-366 | for every index, after removals too: the answer is what can be seen in the range, and is exactly the multiset of positions stored under keys from beg to end if and only if no chain with an emptied first page hides a record in the range; after builds and insertions it is that of all that was given |
| `IsamIndex.Isam.ScanChains` | libs/Indexes/ISAM/src/ISAM.cpp:391-420 | chain after chain, past those with an empty first page, until the last record scanned is past the end |
| `IsamIndex.Isam.ScanChain` | libs/Indexes/ISAM/src/ISAM.cpp:396-416 | all pages of one chain; an empty first page ends it at once |
| `IsamIndex.Isam.ScanPage` | libs/Indexes/ISAM/src/ISAM.cpp:406-412 | the records of one page in range, with their duplicates, and the last key seen |
| `IsamIndex.Isam.Add` | libs/Indexes/ISAM/include/ISAM.h:83-85 | for every index, after removals too: which page of which chain takes the record and how, stored is exactly one more pair if and only if the chain is not one with an empty first page and records behind it, and otherwise the record is all that is left on the chain; an index not built is left alone |
| `IsamIndex.Isam.Insert` | libs/Indexes/ISAM/src/ISAM.cpp:239-314 | the walk finds the page that takes the record, and every way of taking it keeps separators, links and duplicates in order |
| `IsamIndex.Isam.CreatePage` | libs/Indexes/ISAM/src/ISAM.cpp:298-314 | the record on a new page at the end of the file, and the page before linked to it |
| `IsamInsertion.TakesInPlace` | libs/Indexes/ISAM/src/ISAM.cpp:276-297 | what the pages of the chain are after an insertion into a page with room, and that all other pairs are conserved |
| `IsamInsertion.TakesBySplit` | libs/Indexes/ISAM/src/ISAM.cpp:268-274 | the same for a split: the first record stays, and the new one joins it only if its key is below those of all the others |
| `IsamInsertion.TakesAtEnd` | libs/Indexes/ISAM/src/ISAM.cpp:298-314 | the same for a new last page |
| `IsamInsertion.TakesPastEmpty` | libs/Indexes/ISAM/src/ISAM.cpp:251-253 | the same behind an empty first page, where the record is all that is left |
| `IsamInsertion.TakesDuplicate` | libs/Indexes/ISAM/src/ISAM.cpp:256-265 | the same for a key that is there |
| `IsamIndex.Isam.InsertIntoPage` | libs/Indexes/ISAM/src/ISAM.cpp:255-281 | duplicate, split or room: one more pair stored, all invariants kept |
| `IsamIndex.Isam.InsertAtEnd` | libs/Indexes/ISAM/src/ISAM.cpp:289-314 | room on the last page, or a new page behind it: one more pair stored, all invariants kept |
| `IsamIndex.Isam.InsertDuplicate` | libs/Indexes/ISAM/src/ISAM.cpp:573-600 | the entry goes to the end of the duplicates file and to the front of the record's list |
| `IsamIndex.Isam.SplitAndInsert` | libs/Indexes/ISAM/src/ISAM.cpp:321-350 | the two pages together hold the old records in their order and the new one among them; the new page is written at the end and linked |
| `IsamIndex.Isam.BulkInsert` | libs/Indexes/ISAM/include/ISAM.h:91-103 | what is stored is exactly what was given, for any order that sorting leaves equal keys in; too little data changes nothing |
| `IsamIndex.Isam.Build` | libs/Indexes/ISAM/src/ISAM.cpp:86-146 | all invariants hold, and the pairs stored are those of the records; fewer than 81 records are refused with the files untouched |
| `IsamIndex.Isam.BuildRoot` | libs/Indexes/ISAM/src/ISAM.cpp:102-132 | 27 full pages and 13 index pages, each separator the first key of the page behind it |
| `IsamIndex.Isam.BuildLeaf` | libs/Indexes/ISAM/src/ISAM.cpp:107-120 | the three data pages below one leaf, and the leaf |
| `IsamRuns.BuildAddSearch` | libs/Indexes/ISAM/src/ISAM.cpp:86-426 | a whole run: any build, any insertions, any range, and the answer is the reference answer for everything given |
| `IsamRuns.BuildAddFind` | libs/Indexes/ISAM/src/ISAM.cpp:86-205 | a whole run: any build, any insertions, any key, and a search for it finds something exactly when a position was given under it, and only such |
| `IsamRuns.BuildDescend` | libs/Indexes/ISAM/src/ISAM.cpp:86-205 | a whole run: any build from records with different keys, and a descent for one of the first 81 gets to its page |
| `IsamRuns.BuildChangeSearch` | libs/Indexes/ISAM/src/ISAM.cpp:86-571 | a whole run: any build, any insertions and removals in any order, any range, and nothing is found that was not given, nor more often than it was |
| `IsamRemoval.SearchIsExact` | libs/Indexes/ISAM/src/ISAM.cpp:163-205 | a search for one key is part of the range answer, and non-empty exactly when its chain has the key: as long as each chain holds the separator before it, exactly when the key is stored |
| `IsamRemoval.SearchIsAllIff` | libs/Indexes/ISAM/src/ISAM.cpp:188-193 | it finds all that is stored under the key exactly when at most one record has it |
| `IsamRemoval.MatchingAt` | libs/Indexes/ISAM/src/ISAM.cpp:188-193 | the first record with the key decides the answer |
| `IsamRemoval.PurgeClearsIff` | libs/Indexes/ISAM/src/ISAM.cpp:480-485 | the removal loop clears all records of a key exactly when no two of them stand side by side |
| `IsamRemoval.PurgeKeepsOthers` | libs/Indexes/ISAM/src/ISAM.cpp:480-485 | it never touches a record with another key |
| `IsamRemoval.OthersSurviveIff` | libs/Indexes/ISAM/src/ISAM.cpp:467-533 | all records with other keys survive a removal, in their order, exactly unless it empties the third page of a chain or a later one |
| `IsamLosses.LosePage` | libs/Indexes/ISAM/src/ISAM.cpp:500-509 | a whole run: 81 records with different keys, four more under ascending keys above them, the last of these removed; the first of them was found before and is not found any more |
| `IsamLosses.EmptyFirstPage` | libs/Indexes/ISAM/src/ISAM.cpp:494-499 | a whole run: 81 records with different keys, one more between the second and the third, the first removed; a search for the range from the second to the third finds nothing, though a search for the second does; when the first key is added again the second is lost |
| `IsamLosses.FindSome` | libs/Indexes/ISAM/src/ISAM.cpp:188-193 | a whole run: 81 records under one key; a search for it finds something, and not all that was given |
| `IsamLosses.RemoveSome` | libs/Indexes/ISAM/src/ISAM.cpp:480-485 | a whole run: 81 records under one key, which is removed, and is found again |
| `IsamRemoval.RemainsIff` | libs/Indexes/ISAM/src/ISAM.cpp:480-490 | exactly when a record with the key is left on its chain |
| `IsamRemoval.DeletedIs` | libs/Indexes/ISAM/src/ISAM.cpp:480-483 | what is reported is the position of a record with the key |
| `IsamRemoval.LeavesOk` | libs/Indexes/ISAM/src/ISAM.cpp:461-533 | a removal keeps separators, links and duplicates in order, and stores nothing that was not stored |
| `IsamRemoval.MatchingOthers` | libs/Indexes/ISAM/src/ISAM.cpp:188-193 | a search for another key sees only the records with other keys |
| `IsamRemoval.RemovedAbsorbing` | libs/Indexes/ISAM/src/ISAM.cpp:552-562 | absorbing the next page conserves the records of the chain |
| `IsamRemoval.RemovedBorrowing` | libs/Indexes/ISAM/src/ISAM.cpp:564-570 | borrowing a record from the next page conserves the records of the chain |
| `IsamIndex.Isam.Remove` | libs/Indexes/ISAM/src/ISAM.cpp:429-441 | one removal changes its own chain only, to a stated content, and may be followed by any operation; the position reported, whether the key is gone from the chain and whether its first page is emptied are stated exactly; unless pages are lost, what a search finds under every other key is unchanged |
| `IsamIndex.Isam.RemoveFromChain` | libs/Indexes/ISAM/src/ISAM.cpp:461-533 | the walk, what it does to the chain, and the position it reports |
| `IsamIndex.Isam.PurgePage` | libs/Indexes/ISAM/src/ISAM.cpp:480-485 | the loop that removes while it counts on |
| `IsamIndex.Isam.Merge` | libs/Indexes/ISAM/src/ISAM.cpp:542-571 | absorbs the next page if there is room for all of it, else borrows its first record: either way the chain keeps its records |
| `RouterModel.Integer` | libs/Crow/crow/routing.h:872-880 | a number read with strtoll or strtoull is within the type's range and takes at least one byte |
| `RouterModel.Take` | libs/Crow/crow/routing.h:870-971 | every typed part takes a non-empty stretch of the URL, inside it |
| `RouterModel.MatchesLabel` | libs/Crow/crow/routing.h:868-984 | matching a pattern that starts with a node's label is entering the node and matching the rest |
| `RouterModel.FoundMatches` | libs/Crow/crow/routing.h:835-991 | what the search returns is a rule of the tree whose pattern matches the URL, with that pattern's captures in order |
| `RouterModel.FoundIsLeast` | libs/Crow/crow/routing.h:850-857 | no rule of the tree whose pattern matches is smaller |
| `RouterOptimize.MergedIsSmaller` | libs/Crow/crow/routing.h:759-768 | going on with a merged node terminates: its subtree is smaller |
| `RouterOptimize.MergedFinds` | libs/Crow/crow/routing.h:759-768 | merging a node with its only child changes no search |
| `RouterOptimize.OptimizedFinds` | libs/Crow/crow/routing.h:755-776 | path compression preserves meaning: every search through a compressed node has the same rule and captures |
| `RouterOptimize.OptimizedIsCompressed` | libs/Crow/crow/routing.h:755-776 | nothing is left to merge |
| `RouterTree.RewrittenHolds` | libs/Crow/crow/routing.h:999-1082 | a change at the end of a path shows under exactly the tokens the path spells |
| `RouterTree.HoldsAt` | libs/Crow/crow/routing.h:1054-1065 | no other path leads to the same tokens |
| `RouterTree.RuleAdded` | libs/Crow/crow/routing.h:1078-1081 | the node at the end of a pattern has a rule exactly when the pattern was added before; otherwise the rules grow by this one |
| `Router.Trie.constructor` | libs/Crow/crow/routing.h:736-737 | an empty tree holds no rule |
| `Router.Trie.Add` | libs/Crow/crow/routing.h:999-1082 | after any additions the tree holds exactly the rules added; a pattern that has a rule is refused and keeps it |
| `Router.Trie.Walk` | libs/Crow/crow/routing.h:1001-1076 | following a pattern makes the missing nodes and changes no rule |
| `Router.Trie.Enter` | libs/Crow/crow/routing.h:1025-1074 | the child for a tag or a character is found or made |
| `Router.Trie.Optimize` | libs/Crow/crow/routing.h:745-751 | compressing the tree in place changes the answer for no URL, and leaves nothing to merge |
| `Router.Trie.Validate` | libs/Crow/crow/routing.h:827-832 | a root that is not simple is refused with the tree unchanged |
| `Router.Trie.Find` | libs/Crow/crow/routing.h:993-996 | zero exactly when no added pattern matches, else the smallest matching rule with the values its pattern captures |
| `Router.Trie.FindIsLeast` | libs/Crow/crow/routing.h:835-991 | the search in the tree against trying every added pattern |
| `Router.Trie.FindFrom` | libs/Crow/crow/routing.h:835-991 | the recursive search, which pushes and pops the shared captures, is the functional one and restores them |
| `Router.Trie.TakeFrom` | libs/Crow/crow/routing.h:935-954 | a string part runs up to the next slash |
| `Router.ParamStack.Pop` | libs/Crow/crow/routing.h:887-888 | takes off exactly what the push put on |
| `JsonText.EscapeInto` | libs/Crow/crow/json.h:36-68 | appends the escaped form |
| `JsonText.DecodeEscape` | libs/Crow/crow/json.h:36-68 | decoding an escaped string gives it back, for every byte string |
| `JsonText.EscapeEnds` | libs/Crow/crow/json.h:897-955 | an escaped string between quotes is found to end at its closing quote |
| `JsonText.StringIsRaw` | libs/Crow/crow/json.h:897-955 | what the scan accepts is a sequence of plain characters and complete escapes |
| `JsonText.Unescape` | libs/Crow/crow/json.h:476-538 | in place: the result is the decoded string, the write place never passes the read place, the loop ends at the end exactly, and nothing outside the string and its quotes is written |
| `JsonText.MoveUnits` | libs/Crow/crow/json.h:482-534 | the loop itself, for every accepted text |
| `JsonText.MoveUnit` | libs/Crow/crow/json.h:484-532 | one plain character or escape moved down, two- and three-byte code units included |
| `JsonText.WriteCode` | libs/Crow/crow/json.h:512-527 | a code unit as one, two or three bytes |
| `JsonModel.IntegerBack` | libs/Crow/crow/json.h:1898-1905 | what `i()` and `u()` make of a printed integer is that integer, in the whole range of each |
| `JsonRoundTrip.StringBack` | libs/Crow/crow/json.h:897-955 | a printed string literal is read back, whatever follows |
| `JsonRoundTrip.NumberBack` | libs/Crow/crow/json.h:997-1121 | a printed integer is read back as a number, whatever may follow |
| `JsonRoundTrip.ValueBack` | libs/Crow/crow/json.h:1124-1176 | every printed value is read back before any delimiter, exactly as long as its nesting fits the depth left |
| `JsonRoundTrip.ItemsBack` | libs/Crow/crow/json.h:957-995 | the items of a list are read back in their order, exactly as long as each fits |
| `JsonRoundTrip.MembersBack` | libs/Crow/crow/json.h:1178-1239 | the members of an object are read back in their order, exactly as long as each fits |
| `JsonRoundTrip.RoundTrip` | libs/Crow/crow/json.h:1241-1249 | for every value, load(dump(v)) is v and consumes the whole text exactly when at most 5000 containers are nested; deeper ones are refused |
| `JsonTree.DenoteStays` | libs/Crow/crow/json.h:897-955 | a value read from the buffer does not change when the buffer is written elsewhere |
| `JsonTree.Entries.EmplaceBack` | libs/Crow/crow/json.h:718-736 | appends one value, copying the rest when the array grows; the room left always fits in 16 bits |
| `JsonCursor.QuoteStep` | libs/Crow/crow/json.h:903-953 | one step of the search for the closing quote |
| `JsonCursor.ItemsStep` | libs/Crow/crow/json.h:972-993 | one turn of the loop over items against the recursive reading of the rest |
| `JsonCursor.MembersStep` | libs/Crow/crow/json.h:1195-1237 | one turn of the loop over members against the recursive reading of the rest |
| `JsonParser.Parser.DecodeString` | libs/Crow/crow/json.h:897-955 | reads a literal of the original text although the buffer behind is overwritten; the flag says whether escapes are left |
| `JsonParser.Parser.ScanString` | libs/Crow/crow/json.h:903-953 | finds the closing quote, or refuses |
| `JsonParser.Parser.ScanNumber` | libs/Crow/crow/json.h:997-1121 | the number scanner with its inner loop over digits is the state table byte by byte |
| `JsonParser.Parser.DecodeValue` | libs/Crow/crow/json.h:1124-1176 | refines the functional reader on the original text, writing only in the part that it has taken |
| `JsonParser.Parser.DecodeList` | libs/Crow/crow/json.h:957-971 | the same for a list |
| `JsonParser.Parser.DecodeItems` | libs/Crow/crow/json.h:972-994 | the same for the loop over its items, whose values stay intact while later ones are read |
| `JsonParser.Parser.DecodeObject` | libs/Crow/crow/json.h:1178-1193 | the same for an object |
| `JsonParser.Parser.DecodeMembers` | libs/Crow/crow/json.h:1195-1238 | the same for the loop over its members |
| `JsonParser.Parser.DecodeMember` | libs/Crow/crow/json.h:1197-1225 | a key, free of escapes at once, and its value |
| `JsonParser.Parser.Parse` | libs/Crow/crow/json.h:1241-1249 | accepts a text exactly when the functional reader does, with the same value |
| `JsonParser.Load` | libs/Crow/crow/json.h:1255-1266 | the text is copied and read; the tree of places in the buffer stands for the value |
| `JsonPrinter.DumpInternal` | libs/Crow/crow/json.h:1829-1954 | appends what the value is printed as |
| `JsonPrinter.DumpList` | libs/Crow/crow/json.h:1909-1927 | the loop puts commas between items and nowhere else |
| `JsonPrinter.DumpObject` | libs/Crow/crow/json.h:1928-1948 | the loop puts commas between members and nowhere else |
| `JsonPrinter.DumpAndLoad` | libs/Crow/crow/json.h:1957-1963 | printer and destructive parser together undo each other exactly up to 5000 nested containers |
| `WebSocketFrames.LoadEight` | libs/Crow/crow/websocket.h:412-412 | eight bytes read into memory and turned round half by half are the number they mean on the network |
| `WebSocketFrames.StoreEight` | libs/Crow/crow/websocket.h:248-250 | a 64-bit length is stored with its high byte first |
| `WebSocketFrames.BigDown` | libs/Crow/crow/websocket.h:231-252 | a length that fits comes back from its bytes |
| `WebSocketMessages.MaskedTwice` | libs/Crow/crow/websocket.h:543-549 | masking is its own inverse |
| `WebSocketMessages.OutgoingIsFrame` | libs/Crow/crow/websocket.h:691-697 | header and payload written are the encoding of one final frame with the shortest length form (section 5.2 of RFC 6455) |
| `WebSocketMessages.ControlFramesApart` | libs/Crow/crow/websocket.h:550-620 | pings and pongs between fragments change nothing but the answers written |
| `WebSocketMessages.MessageArrives` | libs/Crow/crow/websocket.h:552-586 | a message in any number of fragments is handed over once, whole, with its kind |
| `WebSocketMessages.Reassembled` | libs/Crow/crow/websocket.h:541-624 | the handler gets exactly the messages sent despite interleaved control frames, and each ping is answered with its payload (section 5.4 of RFC 6455) |
| `WebSocket.Connection.constructor` | libs/Crow/crow/websocket.h:65-119 | a connection that waits for a frame |
| `WebSocket.Connection.BuildHeader` | libs/Crow/crow/websocket.h:231-252 | the header on the wire for each of the three length forms |
| `WebSocket.Connection.SendData` | libs/Crow/crow/websocket.h:691-707 | header and payload are queued |
| `WebSocket.Connection.DoRead` | libs/Crow/crow/websocket.h:282-523 | one turn of the read state machine: what it takes, and that the frame under way goes on or is done; a payload over the limit closes the connection and delivers nothing |
| `WebSocket.Connection.ReadMiniHeader` | libs/Crow/crow/websocket.h:296-363 | opcode, final bit, mask bit and length form as encoded |
| `WebSocket.Connection.ReadLen16` | libs/Crow/crow/websocket.h:364-401 | the 16-bit length |
| `WebSocket.Connection.ReadLen64` | libs/Crow/crow/websocket.h:402-436 | the 64-bit length |
| `WebSocket.Connection.ReadMask` | libs/Crow/crow/websocket.h:437-484 | the limit on the payload, then the mask if there is one |
| `WebSocket.Connection.ReadPayload` | libs/Crow/crow/websocket.h:485-520 | the payload in any division; the frame is handled when its last byte is there |
| `WebSocket.Connection.HandleFragment` | libs/Crow/crow/websocket.h:541-624 | a complete frame does what its opcode says, on the unmasked payload |
| `WebSocket.Connection.Unmask` | libs/Crow/crow/websocket.h:543-549 | in place, byte i with byte i mod 4 of the mask |
| `WebSocket.Connection.ReadFrame` | libs/Crow/crow/websocket.h:282-523 | reading inverts framing: one encoded frame, masked or not, any length form, any division of its payload, has its effect and no other |
| `WebSocket.Connection.ReadFrames` | libs/Crow/crow/websocket.h:282-523 | the same for a stream of frames |
| `WebSocket.HeaderBack` | libs/Crow/crow/websocket.h:308-348 | the fields of the mini header, from its two bytes |
| `WebSocket.Receive` | libs/Crow/crow/websocket.h:282-624 | a stream of fragmented messages with control frames in between: the handler gets the messages, the pings their answers |
| `WebSocket.HeaderReadBack` | libs/Crow/crow/websocket.h:231-252 | the opcode and the length read back from a header written are those it was written for |
| `MustacheModel.LinkIsMatching` | libs/Crow/crow/mustache.h:445-473 | a block is linked with the first closing tag at its own depth |
| `MustacheModel.BalancedDepth` | libs/Crow/crow/mustache.h:445-473 | depth never goes below where a balanced stretch begins |
| `MustacheModel.MeaningsConcat` | libs/Crow/crow/mustache.h:197-342 | the meaning of pieces in a row is their output in a row |
| `MustacheCompile.LinkKeeps` | libs/Crow/crow/mustache.h:445-473 | one more action keeps every closed block linked with the closing tag of its name, and the open blocks known |
| `MustacheCompile.LastClosed` | libs/Crow/crow/mustache.h:454-473 | closing the innermost open block keeps everything balanced between the blocks still open |
| `MustacheCompile.CompileStep` | libs/Crow/crow/mustache.h:422-566 | past one tag the compiler has one more text piece and one more action, linked |
| `MustacheCompile.CompiledIsLinked` | libs/Crow/crow/mustache.h:412-566 | whatever text compiles: its pieces are in order up to the end, and every closed block is linked with its closing tag of the same name |
| `MustacheTemplates.TagIsFound` | libs/Crow/crow/mustache.h:422-565 | a tag that was written is found where it was written, with the action, the name and the new delimiters that it says |
| `MustacheTemplates.WrittenIsRead` | libs/Crow/crow/mustache.h:412-566 | reading a text back gives the tags that were written and the text between, through any changes of delimiters |
| `MustacheTemplates.AddsAll` | libs/Crow/crow/mustache.h:443-565 | linking the tags of any tree of blocks leaves no block open and gives that tree |
| `MustacheTemplates.TemplateCompiles` | libs/Crow/crow/mustache.h:412-566 | the text of every tree of blocks compiles, with no block open, to the actions and names of its tags |
| `MustacheTemplates.TemplateMeans` | libs/Crow/crow/mustache.h:197-342 | what it is compiled to means what the tree does |
| `Mustache.Template.constructor` | libs/Crow/crow/mustache.h:76-81 | the default delimiters and nothing compiled yet |
| `Mustache.Template.Parse` | libs/Crow/crow/mustache.h:412-566 | what is compiled, and what is refused and how, is exactly what the function `Compile` makes of the text |
| `Mustache.Template.ParseTag` | libs/Crow/crow/mustache.h:443-565 | the action that the tag says, under the name it says, is linked; where the tag ends, and the delimiters behind it; which tags are refused |
| `Mustache.Template.AddTag` | libs/Crow/crow/mustache.h:443-518 | each kind of tag adds its action; a closing tag is linked with the block opened last, and refused if the name is another or no block is open |
| `Mustache.Template.Trim` | libs/Crow/crow/mustache.h:447-450 | leaves out exactly the spaces at both ends of a name |
| `Mustache.Template.ChangeDelimiters` | libs/Crow/crow/mustache.h:519-556 | the delimiters set are the two words of the tag, and it is refused exactly when there are not two |
| `MustacheRender.RestStep` | libs/Crow/crow/mustache.h:204-339 | what is left to do at an action is its text, its piece's meaning and what is left behind it |
| `MustacheRender.Passes` | libs/Crow/crow/mustache.h:209-338 | a turn past an action, or over a whole block |
| `MustacheRender.Enters` | libs/Crow/crow/mustache.h:265-331 | going into a block leaves the same to be done |
| `MustacheRender.Closes` | libs/Crow/crow/mustache.h:332-334 | a closing action takes off the context that its block put on |
| `MustacheRender.RenderInternal` | libs/Crow/crow/mustache.h:197-342 | the flat interpreter with jumps puts out the meaning of the block tree, fails exactly when that does, and leaves the context stack as it was |
| `MustacheRender.RenderEach` | libs/Crow/crow/mustache.h:306-315 | a list renders its block once for each value, in order |
| `Mustache.CompileAndRender` | libs/Crow/crow/mustache.h:372-380 | what is compiled is what the text stands for, and every text of a tree of blocks compiles, is closed, and renders what the tree means |

## Left out

HTTP parser

- HttpExecute.HttpParser.Execute: asks for buffers below 2^32 - 81920 bytes, because the late count is 32 bits wide and would wrap for longer ones.
- HttpExecute.HttpParser.ExecuteBytes: of a refused buffer it says that it is refused; the error, the bytes consumed and the callbacks run before it are left open, because bulk scans meet the size limit at another byte than single bytes do.
- HttpExecute.HttpParser.Consume: the same of a refused byte.
- HttpExecute.HttpParser.Clear: starts the parser over; the request, the header under construction and the completion flag that the source clears with it are outside that class.
- HttpFields.ChunkedIff: values on one line and without commas; of lists of codings and folded values `HttpFields` says what they do, in terms of the matcher.
- HttpFields.LengthIff: values on one line.
- HttpFraming.SizeLineIff: lines within the size limit and without a carriage return inside.
- HttpFraming.ChunkedBodyIsDecoded: with an empty trailer; the others are in `HttpMessages`.
- HttpAsserts.AssertsHoldWithoutNul: one way, for whole inputs; a NUL elsewhere than at the beginning of a Connection value does no harm, which `HttpAsserts` says byte by byte.
- HttpRequest.BuildIgnoresCuts: the target is `raw_url`, as sent; `url` is cut at `qs_point`, a place taken from a mark that is not restored when parsing resumes in a new buffer, and depends on the cuts.
- HttpRequest.Receive: the same of the target; and a connection on which only one message is received.
- Bytes behind a complete message, `done` and `clear` from inside a handler, callbacks that fail.
- Query strings, keep-alive parameters and the URL handler, which runs again for every piece of the target.

ISAM index

- IsamIndex.Isam.BulkInsert: takes the result of `std::sort` as a parameter.
- Streams, open modes, byte offsets, the metadata file, timers; keys are integers, not floating-point numbers.

Router

- Router.Trie.Add: asks for patterns without NUL characters, because the code finds a typed child when it looks for a NUL, and with known tags after each `<`, because the code does not end on others.
- Router.Trie.Walk: the same.
- Nodes are values and a path of child numbers stands for the pointer into the tree; aliasing between nodes does not arise.
- Blueprint indices; the conversion of floating-point parts beyond `strtod`.

JSON

- JsonTree.Entries.EmplaceBack: asks for fewer than 2^31 - 65536 entries, because the new size is computed in 32 bits.
- JsonParser.Load: asks for fewer than 2^31 - 65536 bytes, so that no container has more entries.
- JsonPrinter.DumpAndLoad: the same of the text printed.
- Printing floating-point numbers, functions as values, reading numbers as floating point; an object is a sequence of members, and the order that a hash map gives them is arbitrary.
- Sorting members for lookup, copying and comparing values, allocation and ownership of buffers.

WebSocket

- WebSocket.Connection.HandleFragment: does not take close frames; the close handshake, closing and destroying connections are not modelled.
- WebSocket.Connection.ReadPayload: the same, and so the methods that call it.
- WebSocket.Connection.DoRead: the same.
- WebSocket.Connection.ReadFrame: the same.
- WebSocket.Connection.ReadFrames: the same.
- WebSocket.Receive: the same.
- WebSocket.Connection.ReadMiniHeader: the two bytes of the mini header are taken to arrive together.
- The opening handshake, socket errors, scheduling, the build option that requires masked frames.

Mustache

- Mustache.Template.Parse: leaves out the trimming of lines that hold only a tag; it changes the text pieces, which rendering takes as they are.
- MustacheRender.RenderInternal: a partial is an arbitrary output of its name and the stack; indentation, loading files and functions as values are left out.
- Looking up names in contexts, escaping for HTML; rendering templates with blocks still open, which the compiler accepts and the interpreter does not end on.

The AVL and sequential indexes, the database engine, heap file and API around
them, and the rest of Crow (cookies, sessions, CORS, mime types, SHA-1) are not
part of this model.
