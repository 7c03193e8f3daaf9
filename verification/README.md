# Verified core of the configuration server

A Dafny model of the four protocol cores of the server, with the properties its code and comments
promise proved for every input and every run. `dafny verify dfyconfig.toml` checks the whole project.

## What is modelled

**OMA-DM sessions.** The server answers a client's request with a package: a flat queue of
acknowledgements and items. `Fill` puts as many entries into the next message as the client's
MaxMsgSize allows; the rest is stored beside the session, and the client's later requests collect it.
`DmModel` is one request on values: which branch answers, what it answers and what is to be saved,
followed by the writes of the commit in their order. `DmStore` and `DmService` are the same code as it
runs, over a store updated in place whose writes can fail, each method proved against its function;
`DmClient` is the client's loop. The theorems are about runs of arbitrary requests, with any MaxMsgSize,
any outcome of authentication, any clocks and any single failing write.

**WBXML and SyncML.** `WbxmlDecoder` is the byte loop with its offset, code page, tag stack and limits,
and the step function it is proved against; its output is a list of events that `WbxmlParse` makes a tree
of, in place of an XML parser. `WbxmlEncoder` is the recursive encoder with its running page and string
table. `SyncMl` reads a message from a tree and `SyncMlBuilder` builds one. `Transport` joins the ends.

**One-time passwords.** `Otp` holds the challenge and the store that changes it under a lock.
`OtpSteps` is any number of requests for one MSISDN at a shared table, interleaved call by call: consistent
reads before an issue, possibly stale reads before a verification or a discard, conditional writes, calls that
fail. `OtpRefinement`, `OtpSafety` and `OtpLimits` prove what every interleaving keeps; `OtpStore` has the
loops as they run, each proved to be one of those processes.

**SMPP.** `Smpp` says what a request does from the peer's bytes; `SmppSession` is the read loop over a
socket that cuts those bytes into chunks as it likes, and the three requests of a send.

Some modules tie the functions to what is seen from outside, field by field or byte by byte: `DmReplies` (every
reply), `DmSaved` and `DmRecords` (what is saved), `DmAnswers` (acknowledgements and packages), `SyncMlReads` (what
the parser reads), `WbxmlTags` and `WbxmlWire` (documents in bytes), `OtpAlone` (one undisturbed request), and the
byte forms in `Smpp` and `SmppSession`.

`DmGuards` says when each branch of the server answers, in terms of the request and the stored records
alone; what is said below to fail, and when, is said with those guards. `DmWitness` and `OtpWitness` are runs
from an empty store in which it does.

Three results say where the code does not keep what its comments suggest, and exactly when:

- A commit that ends a session in the middle of a package, because the client leaves or the package is too long,
  and that fails at its last write leaves the session in its phase with the remainder gone
  (`DmSafety.StepKeeps`, an equivalence over all attempts that do not straddle the expiry; a run:
  `DmWitness.CuttingHappens`).
- A request whose commit failed gets the same answer when it is sent again, unless it continued a package that
  the failed commit was giving up at its last write, or closing in full and had already deleted the session
  (`DmRetry.RetryGetsTheSameAnswer`, an equivalence). The last message of a session's closing package can be lost
  so for good (`DmRetry.RetryOfCutCloseIsRefused`; a run: `DmWitness.LosingTheCloseHappens`).
- A request whose two reads fall on either side of the moment both records expire gives up the package in flight,
  in every phase, unless all it does is close the session (`DmSafety.StraddleBreaks`, an equivalence; a run:
  `DmWitness.StraddlingHappens`).

Stored queues are read back exactly if no item's command is called Status (`Package.StoredRoundTrip`); no queue
that the handlers make has such an item (`DmSafety.QueueIsOk`), so this one never shows.

## Model

| member | source | states |
|---|---|---|
| Fill.Fill | src/acs/protocol/omadm/package.py:147-189 | the search as it runs returns the count `Sent` describes with its message, or the size that was too large; it builds at most 3 + 2 floor(log2(d+1)) messages for d entries beyond the required ones, and none after the first with more than required + 2d + 1 entries |
| Fill.SentFits | src/acs/protocol/omadm/package.py:154-156 | whatever the sizes do, the message sent is within the limit |
| Fill.SentIsLargest | src/acs/protocol/omadm/package.py:150-160 | with sizes that never shrink, the count sent is the largest that fits, and it raises exactly when the required entries do not fit |
| Package.StoredRoundTrip | src/acs/protocol/omadm/package.py:90-107 | reading a stored queue gives it back exactly if no item's command is named Status |
| Package.Apply | src/acs/protocol/omadm/package.py:110-144 | the loop appends exactly one command per group, numbered on from the builder's last, and fails exactly for an unknown command |
| Package.GroupsFlatten | src/acs/protocol/omadm/package.py:113-116 | grouping adjacent items neither loses, repeats nor reorders an entry |
| Package.GroupsAreMaximal | src/acs/protocol/omadm/package.py:130-134 | adjacent groups of items never share a command name and none is empty |
| Messages.CommandIds | src/acs/protocol/omadm/syncml.py:335-338 | the i-th command of a message carries CmdID i, the SyncHdr status first |
| Messages.CommandsReadBack | src/acs/protocol/omadm/package.py:110-144 | reading the commands of a message gives its entries back in order, as the builder writes each |
| Messages.BodyReadsBack | src/acs/protocol/omadm/syncml.py:470-473 | the body of the built document is the commands in their order and then Final, exactly if asked for |
| Messages.HeaderReadsBack | src/acs/protocol/omadm/syncml.py:455-468 | reading the built header gives back both versions, the session id, the message number, both addresses and MaxMsgSize |
| Messages.HeaderStatusReadsBack | src/acs/protocol/omadm/syncml.py:359-386 | reading the status of the header gives back the message it answers, its code, and the type and nonce of a challenge exactly if there is one |
| MessageSize.WbxmlSizeIsLength | src/acs/protocol/omadm/wbxml.py:393-433 | the size measure is the length of the encoded message |
| MessageSize.MessagesNeverShrink | src/acs/protocol/omadm/package.py:150-152 | a WBXML message never gets shorter as entries are appended, through grouping, page switches and Final: what fill assumes of its build |
| SyncMlBuilder.Builder.Status | src/acs/protocol/omadm/syncml.py:359-386 | appends one Status with its fields and no other command |
| SyncMlBuilder.Builder.Items | src/acs/protocol/omadm/syncml.py:387-431 | appends one Get, Add or Replace with an item per value, in order |
| SyncMl.ParseBody | src/acs/protocol/omadm/syncml.py:208-246 | the loop over the body collects what the recursive reading does |
| SyncMl.SameMessage | src/acs/protocol/omadm/syncml.py:77-105 | parsing does not see white space between elements nor namespaces: the tree as it comes out of WBXML parses to the same message |
| SyncMlReads.MessageIsRead | src/acs/protocol/omadm/syncml.py:208-311 | a message written as a tree, whichever of its parts are left out, is read back: every header field with the credentials, every command with its fields and items in their order, and Final |
| SyncMlReads.StripIs | src/acs/protocol/omadm/syncml.py:84-87 | text is read without the white space at both ends and otherwise as it is |
| SyncMlReads.OtherTreesAreRefused | src/acs/protocol/omadm/syncml.py:208-235 | a tree with another root, or without a header or a body, is not a message |
| Utf8.DecodeOfEncode | src/acs/protocol/omadm/wbxml.py:138-153 | every string survives UTF-8 |
| Utf8.EncodeOfDecode | src/acs/protocol/omadm/wbxml.py:138-142 | bytes are accepted as UTF-8 only if they are the encoding of what they decode to |
| WbxmlFormat.IntegerAccepts | src/acs/protocol/omadm/wbxml.py:207-216 | the reader accepts exactly encodings of at most five bytes with a value below 2^32 |
| WbxmlFormat.IntegerConsumes | src/acs/protocol/omadm/wbxml.py:207-216 | it consumes the encoding up to its last byte and nothing more |
| WbxmlFormat.IntegerOfMbUint32 | src/acs/protocol/omadm/wbxml.py:165-173 | reading an encoded integer, whatever follows it, gives it back with what follows unread |
| WbxmlFormat.MbUint32Minimal | src/acs/protocol/omadm/wbxml.py:165-173 | no encoding of the value is shorter, and five bytes are enough for 32 bits |
| WbxmlFormat.MbUint32Loop | src/acs/protocol/omadm/wbxml.py:165-173 | the loop that collects the digits gives the encoding |
| WbxmlFormat.TableStringAt | src/acs/protocol/omadm/wbxml.py:156-162 | a terminated entry is read back at its offset, whatever comes before and after |
| WbxmlDecoder.Decoder.TakeInteger | src/acs/protocol/omadm/wbxml.py:207-216 | the loop over the offset reads what the integer reader on bytes does |
| WbxmlDecoder.Decoder.TakeHeader | src/acs/protocol/omadm/wbxml.py:226-241 | the header is read, or rejected for the same reason, as on bytes |
| WbxmlDecoder.Decoder.Turn | src/acs/protocol/omadm/wbxml.py:247-290 | one turn of the loop is one step, with the same error where it fails, and moves the offset on |
| WbxmlDecoder.Decoder.Run | src/acs/protocol/omadm/wbxml.py:243-295 | the byte loop ends and its events are those of the step function |
| WbxmlDecoder.DecodeDocument | src/acs/protocol/omadm/wbxml.py:188-295 | the decoder as it runs is the decoder on bytes |
| WbxmlDecoder.StepKeepsConsistent | src/acs/protocol/omadm/wbxml.py:246-290 | every limit and the balance of the output hold after every step, for any bytes |
| WbxmlDecoder.DecodeIsSound | src/acs/protocol/omadm/wbxml.py:188-295 | any bytes are rejected, or give balanced events with one SyncML root, at most 64 deep, at most 16384 elements and at most 2 MiB of output |
| WbxmlDecoder.SoundPrefixes | src/acs/protocol/omadm/wbxml.py:246-295 | in sound events every end closes the element opened last and nothing follows the root |
| WbxmlEncoder.StringTableResolves | src/acs/protocol/omadm/wbxml.py:379-391 | every string in the table is read back at its recorded offset, however many follow |
| WbxmlEncoder.ShareTexts | src/acs/protocol/omadm/wbxml.py:384-391 | the loop over the counted texts builds that table |
| WbxmlEncoder.Encoder.ElementContent | src/acs/protocol/omadm/wbxml.py:410-430 | the recursive writer with its running page writes the bytes of the element, or fails as they do |
| WbxmlEncoder.EncodeDocument | src/acs/protocol/omadm/wbxml.py:329-433 | the encoder as it runs is the encoder on trees |
| WbxmlParse.DecodedParses | src/acs/protocol/omadm/wbxml.py:226-295 | whatever bytes the decoder accepts, its output is one well-formed SyncML tree |
| WbxmlParse.ParseElement | src/acs/protocol/omadm/wbxml.py:281-291 | the events of a tree, in any surroundings, parse to that tree |
| WbxmlRoundTrip.DecodeElement | src/acs/protocol/omadm/wbxml.py:410-430 | after an encoded element the decoder has its events, page and count, exactly if they are within the limits |
| WbxmlRoundTrip.RoundTrip | src/acs/protocol/omadm/wbxml.py:329-433 | every tree that encodes, in every text mode, version and public identifier, decodes to itself without formatting white space and in the SyncML namespace, exactly if it is within the decoder's limits |
| WbxmlTags.SyncMlPageFirst | src/acs/protocol/omadm/wbxml.py:53-72 | bytes 0x05 to 0x17 of page 0 are the tags of these names, bare and with bit 0x40 |
| WbxmlTags.SyncMlPageSecond | src/acs/protocol/omadm/wbxml.py:73-91 | so are 0x18 to 0x2A |
| WbxmlTags.SyncMlPageThird | src/acs/protocol/omadm/wbxml.py:92-109 | so are the rest of page 0 |
| WbxmlTags.MetInfPage | src/acs/protocol/omadm/wbxml.py:110-129 | and all of page 1 |
| WbxmlTags.NoOtherTags | src/acs/protocol/omadm/wbxml.py:268-275 | every other byte in the place of a tag is refused: reserved, past the tables, global, or with attributes |
| WbxmlWire.InlineOnTheWire | src/acs/protocol/omadm/wbxml.py:393-433 | for any two texts, the bytes of a document with inline strings, both pages, an empty element, both versions and both identifiers, and that this document is received from them |
| WbxmlWire.OpaqueOnTheWire | src/acs/protocol/omadm/wbxml.py:399-404 | the same document with opaque text |
| WbxmlWire.TableOnTheWire | src/acs/protocol/omadm/wbxml.py:379-408 | the bytes of a document that names its identifier in the string table and refers to a shared text, and that it is received |
| WbxmlWire.OtherHeadersAreRefused | src/acs/protocol/omadm/wbxml.py:226-241 | another version, charset or public identifier is refused, whatever follows |
| WbxmlWire.IndentationIsNotSent | src/acs/protocol/omadm/wbxml.py:371-377 | white space between elements changes no byte that is sent |
| WbxmlWire.LimitsInNumbers | src/acs/protocol/omadm/wbxml.py:22-36 | the limits of both directions as numbers |
| WbxmlWire.CharactersInNumbers | src/acs/protocol/omadm/wbxml.py:138-153 | a character is accepted exactly if XML allows it |
| WbxmlWire.Utf8InBytes | src/acs/protocol/omadm/wbxml.py:138-142 | one character of each length, in bytes |
| Transport.BothTransportsCarryTheMessage | src/acs/protocol/omadm/session.py:170-180 | a WBXML session sees the same message as an XML session |
| Transport.MessageIsReceived | src/acs/protocol/omadm/session.py:627-641 | over WBXML the client reads exactly the entries of a message, and Final exactly when it was set |
| Transport.NextMessageIsLargest | src/acs/protocol/omadm/session.py:607-641 | over WBXML one more entry would exceed the server's setting or the client's MaxMsgSize, and the server gives up only where the required ones do |
| Transport.EveryMessageIsFull | src/acs/protocol/omadm/session.py:585-641 | in every run over WBXML a package's message is within both limits, and the same message with one more entry of the queue or of the remainder would exceed the server's setting or the client's MaxMsgSize |
| Transport.EveryMessageIsReceived | src/acs/protocol/omadm/session.py:170-221 | in every run over WBXML, the client reads from a message that reaches it exactly the entries sent, and Final exactly when it was set |
| Transport.ClientMessageArrives | src/acs/protocol/omadm/session.py:170-180 | what a client writes is what the server reads, as XML and over WBXML in every text mode |
| MoTree.InteriorNodesAreNeeded | src/acs/protocol/omadm/session.py:392-405 | the nodes added are exactly the declared interior ancestors of the leaves, ordered by depth and name |
| MoTree.ParentsFirst | src/acs/protocol/omadm/session.py:387-405 | each declared ancestor of a node stands before it |
| MoTree.NodeIsNamed | src/acs/protocol/omadm/motree.py:117-125 | an address leads to the last node it names, slashes at its end aside, and to none exactly if it names none |
| MoTree.NodesInOrder | src/acs/protocol/omadm/motree.py:121-122 | the nodes of a tree are those of its objects, one object after the other |
| MoTree.InteriorNodes | src/acs/protocol/omadm/session.py:399-405 | the sets and the sort as they run give that list |
| MoTree.CutsOf | src/acs/protocol/omadm/session.py:400-403 | the loop over the parts finds every proper ancestor path of at least two parts |
| DmAnswers.EachCommandIsAcknowledged | src/acs/protocol/omadm/session.py:682-719 | every command but Status has one acknowledgement, at its own place in order, and there are no others; it names the command, its number and its first address, with 404 for an address without a node, 406 for a command that is not carried out and 200 otherwise |
| DmAnswers.PackageAcknowledges | src/acs/protocol/omadm/session.py:318-418 | the statuses of a whole package are those of the request that started it, each once |
| DmAnswers.ContinuationMakesProgress | src/acs/protocol/omadm/session.py:456-475 | a continuation holds every acknowledgement of its own request and then a non-empty prefix of the stored remainder |
| DmAnswers.ParentsBeforeChildren | src/acs/protocol/omadm/session.py:359-370 | in the configuration package every needed node is added once, after its ancestors and before any Replace, and no other node is added |
| DmAnswers.InventoryAsks | src/acs/protocol/omadm/session.py:333-336 | the inventory asks for every leaf the device owns, once each and in the order of the tree, and for nothing else |
| DmAnswers.ValuesAreWritten | src/acs/protocol/omadm/session.py:359-370 | the configuration ends with a Replace of every value as it stands, after nothing but Adds; the last package only acknowledges |
| DmRecords.LastReportIsRecorded | src/acs/protocol/omadm/session.py:721-736 | for an address the device owns, the last non-empty value in a Replace, Results or Add is recorded; every other address keeps its value; the IMSI is the authenticated one if there is one |
| DmRecords.OnlyDeviceNodesAreRecorded | src/acs/protocol/omadm/session.py:721-743 | whatever a device reports, the recorded value of a node it does not own stays as it was |
| DmCommit.SessionLast | src/acs/protocol/omadm/session.py:105-119 | when a package starts or a session ends, a commit cut off anywhere before its last write leaves the session record as it was |
| DmCommit.RemainderLast | src/acs/protocol/omadm/session.py:114-119 | when a package continues, a commit cut off before its last write leaves the remainder, or has deleted the session |
| DmStore.MemoryStore.GetDmSession | src/acs/store/memory.py:158-164 | an expired session is removed and reported missing; other records stay |
| DmStore.MemoryStore.GetDmPending | src/acs/store/memory.py:174-180 | an expired remainder is removed and reported missing; other records stay |
| DmStore.MemoryStore.PutDmSession | src/acs/store/memory.py:154-156 | the record is replaced, or the write fails and nothing changes |
| DmStore.DmChanges.SaveRemainder | src/acs/protocol/omadm/session.py:121-127 | the remainder's writes happen in order up to the one that fails |
| DmStore.DmChanges.SaveSession | src/acs/protocol/omadm/session.py:129-133 | the session's writes happen in order up to the one that fails |
| DmStore.DmChanges.Commit | src/acs/protocol/omadm/session.py:100-119 | the writes happen in the order of the progress up to the one that fails, and touch no other session or device |
| DmService.DmService.NextMessage | src/acs/protocol/omadm/session.py:585-641 | the message found with fill is the one of the model; it is within the server's setting and the client's MaxMsgSize, and addressed and numbered for its request |
| DmService.DmService.AbsorbDeviceValues | src/acs/protocol/omadm/session.py:721-743 | the loops over commands and items record the last value reported for each node the device owns, and nothing else |
| DmService.DmService.StartPackage | src/acs/protocol/omadm/session.py:643-667 | sends the first message, stores exactly what is left under the phase the session is now in, or refuses |
| DmService.DmService.HandleInit | src/acs/protocol/omadm/session.py:318-353 | answers the first package as the model does, with the same changes to save |
| DmService.DmService.HandleDevInfo | src/acs/protocol/omadm/session.py:355-390 | answers the inventory results as the model does |
| DmService.DmService.HandleFinish | src/acs/protocol/omadm/session.py:407-418 | answers the configuration statuses as the model does, closing a session whose last package fits |
| DmService.DmService.ContinuePackage | src/acs/protocol/omadm/session.py:420-475 | continues or abandons a package as the model does |
| DmService.DmService.HandleMessage | src/acs/protocol/omadm/session.py:223-315 | one message is handled as the model does, expired records are gone afterwards and no other session is touched |
| DmService.DmService.Handle | src/acs/protocol/omadm/session.py:153-221 | a request is one attempt of the model: same store, and the same answer or none |
| DmClient.DmClientSimulator.Post | tools/dm_client_sim.py:206-217 | one request to the server: the message of the model's answer, or none where it is refused or carries none |
| DmClient.DmClientSimulator.Exchange | tools/dm_client_sim.py:219-244 | whatever the first request and the later ones are, the client's loop gets the messages of the model's exchange and stops where that does, and none is larger than the server's limit |
| DmClient.MessagesHoldThePackage | tools/dm_client_sim.py:219-244 | the package is in those messages: the entries of the first, and of each later one what follows the acknowledgements of its own request |
| DmReplies.RepliesSay | src/acs/protocol/omadm/session.py:585-641 | every reply is within the client's MaxMsgSize and the server's own, announces the smaller of them, goes to the sender under its session and numbers, and says how its credentials came out, with the challenge |
| DmGuards.ClosesForClient | src/acs/protocol/omadm/session.py:288-315 | the client's end of a session is answered exactly for an authentic request of an acceptable size with alert 1223 or 1226 whose acknowledgements fit a message |
| DmGuards.AbandonsWhen | src/acs/protocol/omadm/session.py:436-448 | a package is abandoned exactly when its remainder has been through 128 messages and the client does not leave |
| DmGuards.EndsPackageWhen | src/acs/protocol/omadm/session.py:420-475 | a continuation closes the session exactly in the closing phase when all that is left fits |
| DmGuards.StartsWhen | src/acs/protocol/omadm/session.py:318-418 | a package starts exactly when nothing is left to send, the client does not leave, a new session is opened with 1200 or 1201, a first message fits and the rest can be stored; Final exactly if the whole queue fits |
| DmGuards.ContinuesWith | src/acs/protocol/omadm/session.py:456-466 | a continuation's message is the one found for its acknowledgements followed by the remainder, with one entry of progress required |
| DmSafety.HandleHasShape | src/acs/protocol/omadm/session.py:223-475 | what any branch answers and saves: a start sends a non-empty prefix of its phase's queue and stores the rest under the next phase, a continuation sends a non-empty prefix of the remainder and stores the rest |
| DmSaved.StatusesSay | src/acs/protocol/omadm/session.py:184-221 | the status of every answer; a session is finished exactly when it is deleted; a refusal is 400 where no message fits and 413 where the rest is too large to store |
| DmSaved.RefusalsSay | src/acs/protocol/omadm/session.py:223-267 | a request without its numbers gets 400, one with more than 100 commands to acknowledge 413, a first one without alert 1200 or 1201 400, and none of them saves anything |
| DmSaved.SessionSays | src/acs/protocol/omadm/session.py:235-257 | every session that is saved is the one found, or a new one, with the nonce, user, message number, phase and reported failures the request gives it |
| DmSaved.ReportsAreSaved | src/acs/protocol/omadm/session.py:331-374 | what a device reports while it is asked about itself, and whenever a package continues, is in its record after the commit; no other request touches the record |
| DmSafety.QueueIsOk | src/acs/protocol/omadm/session.py:318-418 | every package can be stored and read back, and only the configuration package writes to the device |
| DmSafety.SweptKeeps | src/acs/store/memory.py:158-180 | removing expired records keeps the session in order exactly if the two reads do not straddle the expiry |
| DmSafety.StepKeeps | src/acs/protocol/omadm/session.py:100-133 | any attempt, failing at any write, keeps the remainder and phase invariant, exactly unless the client leaves, or the package has been through 128 messages, in mid-package and the second of the two writes fails |
| DmSafety.StraddleBreaks | src/acs/protocol/omadm/session.py:269-281 | a request that finds its session but not its remainder gives the package in flight up, in every phase and wherever its commit fails, exactly unless it closes the session with both writes or happens to leave the same remainder stored |
| DmSafety.RunKeeps | src/acs/protocol/omadm/session.py:100-133 | the invariant holds throughout every run of such attempts |
| DmSafety.ExactlyOnce | src/acs/protocol/omadm/session.py:420-475 | in every run from an empty store the completed packages are their queues, in the order inventory, configuration, closing, in at most 128 messages each, and none is given up on the way; nothing is pushed before the inventory is complete; a stored remainder of the session's phase is exactly what is still to come |
| DmSafety.QueuesAnswerRequests | src/acs/protocol/omadm/session.py:318-418 | the queue of every package in a run is the one its phase's handler makes for one of the requests sent |
| DmRetry.AnswersAlike | src/acs/protocol/omadm/session.py:223-315 | what the server answers depends on the stored records only through the session's phase, nonce and expiry and the matching remainder |
| DmRetry.CutLeaves | src/acs/protocol/omadm/session.py:103-112 | a commit that is cut off leaves what the answers depend on as it was, exactly unless it ends a session in mid-package at its last write or closes it after the session's deletion |
| DmRetry.FailuresAreInvisible | src/acs/protocol/omadm/session.py:103-119 | the failed attempts of a run whose cuts do not show can be struck out: same answers in the same order, and a store that looks the same |
| DmRetry.RetryGetsTheSameAnswer | src/acs/protocol/omadm/session.py:107-109 | a request whose commit failed is answered, when sent again, as it would have been, exactly if the cut does not show or the client was leaving |
| DmRetry.RetryOfCutCloseIsRefused | src/acs/protocol/omadm/session.py:114-116 | when the commit of a session's last message stops after deleting the session, the request gets 400 when sent again, or with alert 1200 or 1201 a new session's first message or a refusal; the lost answer was 200 |
| DmWitness.StraddlingHappens | src/acs/protocol/omadm/session.py:269-281 | a run from an empty store after which a request can straddle the expiry in mid-package |
| DmWitness.CuttingHappens | src/acs/protocol/omadm/session.py:114-119 | a run from an empty store after which a leaving client's commit can be cut at its last write |
| DmWitness.LosingTheCloseHappens | src/acs/protocol/omadm/session.py:114-116 | a run of four requests from an empty store that reaches the closing package's last message, whose answer can then be lost for good |
| DmSplit.AskStep | src/acs/protocol/omadm/session.py:456-475 | each request for more brings the next part of the remainder, which strictly shrinks, or Final with all of it |
| DmSplit.StartsMeans | src/acs/protocol/omadm/session.py:318-418 | the requests an exchange may start with, told by alerts, sizes and the stored records, are exactly those answered with the first message of a package; it is Final exactly if the queue fits |
| DmSplit.ExchangeDelivers | src/acs/protocol/omadm/session.py:420-475 | for any MaxMsgSize per request, an exchange that is not refused ends with Final after at most as many messages as entries, has received the whole package, and leaves the session where one message would have |
| DmSplit.SplitRefinesUnsplit | src/acs/protocol/omadm/session.py:607-667 | a split session delivers the same packages in the same order as one at a server whose limit lets each whole queue into one message, which accepts the same requests, and ends in the same place |
| Otp.MemoryStore.IssueOtp | src/acs/store/memory.py:85-103 | the locked issue on the dictionaries is the atomic operation, and no other MSISDN is touched |
| Otp.MemoryStore.ReplaceOtp | src/acs/store/memory.py:105-114 | the locked replacement is the atomic operation, and no other MSISDN is touched |
| OtpRefinement.NoFalseMatch | src/acs/store/dynamodb.py:82-103 | an id with its attempts, and a version, match exactly the value that was read: no write passes its condition by accident |
| OtpRefinement.StepIsAtomic | src/acs/store/dynamodb.py:228-293 | each step changes the table as if its request had it to itself at that instant |
| OtpRefinement.StepKeepsSound | src/acs/store/dynamodb.py:214-293 | the table and what the requests hold stay values the items have had, through every step |
| OtpRefinement.EffectIsOneCall | src/acs/store/memory.py:85-114 | each commit is one call of the locked store, which succeeds there and then |
| OtpRefinement.RunIsAtomic | src/acs/store/dynamodb.py:214-293 | any interleaving is the sequence of its commits, each allowed by the rules of the locked store where it happens |
| OtpRefinement.RoundIsLostToOthers | src/acs/store/dynamodb.py:265-274 | an issue commits exactly if neither item has changed since it was read |
| OtpRefinement.RefusalIsJustified | src/acs/store/dynamodb.py:229-239 | the locked store would have refused too, at the instant of the read that decided |
| OtpSafety.OneSuccessPerIssue | src/acs/auth/otp.py:116-158 | in every run an id is stored once, verified at most once and guessed at most max_attempts times, and its stored attempts are its committed mismatches |
| OtpSafety.NotIssuedStoredNothing | src/acs/store/dynamodb.py:269-277 | an issue that was refused, met contention or failed has stored nothing |
| OtpSafety.VerifiedIsEarned | src/acs/auth/otp.py:138-157 | VERIFIED is returned exactly by the step that commits it against a stored challenge that matches, is unexpired and has attempts left; the challenge is gone after it |
| OtpSafety.DiscardTakesOnlyItsOwn | src/acs/auth/otp.py:161-178 | a discard removes the challenge with its own id, whatever its attempts, or changes nothing |
| OtpSafety.DiscardAlone | src/acs/auth/otp.py:171-178 | undisturbed, it removes the stored challenge exactly if the ids are the same |
| OtpLimits.SendKeepsLimits | src/acs/store/dynamodb.py:236-239 | trimming the history on each commit loses nothing the cap needs |
| OtpLimits.NoDayIsCrowded | src/acs/store/dynamodb.py:236-256 | in every run whose clocks do not go back, no window of a day holds more than max_sends_per_day issues |
| OtpWitness.AnEarlierClockCrowdsADay | src/acs/store/dynamodb.py:236-239 | a run whose clocks go back in which a window of a day holds more than max_sends_per_day issues |
| OtpLimits.CloseIssuesHadTheFirstGone | src/acs/store/dynamodb.py:232-235 | of two issues in a row closer than the cooldown, the first challenge had expired or been taken away between them |
| OtpLimits.TakenIsTheFirst | src/acs/store/dynamodb.py:279-293 | the commit that took it away was about that challenge |
| OtpStore.DynamoDbStore.IssueOtp | src/acs/store/dynamodb.py:214-277 | the five rounds, with anyone else acting before every call, are a run of the issuing process and return its result |
| OtpAlone.VerifyAlone | src/acs/auth/otp.py:131-158 | undisturbed, the right code for a live challenge is VERIFIED and removes it, a wrong one costs an attempt and the last attempt the challenge; what is expired, spent or consumed gets its own verdict |
| OtpAlone.IssueAlone | src/acs/store/dynamodb.py:228-263 | undisturbed, an issue is refused during the cooldown of a live challenge or when the day's sends are used up, and otherwise stores its challenge and counts itself |
| OtpAlone.UnsentIsTakenBack | src/acs/auth/otp.py:161-178 | a challenge whose SMS could not be sent is taken back, and the send still counts |
| OtpAlone.FaultsEnd | src/acs/store/dynamodb.py:264-277 | a call that fails ends the request, whichever it is, and changes nothing |
| OtpAlone.FiveRounds | src/acs/auth/otp.py:110-158 | every request has five rounds; used up, an issue reports contention, a guess a mismatch, and a discard that it removed nothing |
| OtpStore.DynamoDbStore.Verify | src/acs/auth/otp.py:116-158 | the verification loop is a run of its process and returns its verdict; undisturbed, the verdict on the stored challenge |
| OtpStore.DynamoDbStore.Discard | src/acs/auth/otp.py:161-178 | the discard loop is a run of its process and reports whether it removed the challenge |
| OtpStore.DynamoDbStore.IssueAndSend | src/acs/domain/service.py:254-343 | issue, send, and discard where sending failed: the status says how the process ended |
| Smpp.EncodedFrames | src/acs/sms/smpp.py:156-163 | an encoded PDU is framed back whatever follows it |
| Smpp.FramedEncodes | src/acs/sms/smpp.py:262-269 | whatever is framed is the encoding of what was read, and no byte is lost |
| Smpp.AnswersWhatComesFirst | src/acs/sms/smpp.py:229-260 | the peer's requests before the response are answered once each, in order, and then the response is returned |
| Smpp.ReturnsOnlyTheResponse | src/acs/sms/smpp.py:234-247 | a returned PDU has the expected command and number, and exactly the peer's requests before it were answered |
| Smpp.SequencesAreDistinct | src/acs/sms/smpp.py:221-224 | sequence numbers stay in 1..0x7FFFFFFF and do not repeat within that many requests |
| Smpp.PeerIsAnswered | src/acs/sms/smpp.py:249-260 | a request of the peer, as bytes, is taken off the stream and answered with these bytes and its own number |
| Smpp.OtherEndings | src/acs/sms/smpp.py:234-269 | how a request ends otherwise: nacked, answered with another command or number, unbound, cut off, or with a bad length and its generic_nack |
| Smpp.BadLengths | src/acs/sms/smpp.py:262-267 | a length below 16 or above 65536 is refused, and no other |
| SmppSession.Session.ReadExact | src/acs/sms/smpp.py:271-282 | exactly the bytes asked for, however they were cut, or the end |
| SmppSession.Session.Read | src/acs/sms/smpp.py:262-269 | the next PDU of the stream, or the error and the generic_nack its length calls for |
| SmppSession.Session.Await | src/acs/sms/smpp.py:235-247 | the loop returns, writes and leaves unread what the peer's bytes alone determine |
| SmppSession.Session.Request | src/acs/sms/smpp.py:229-247 | so does a whole request, whatever the chunks |
| SmppSession.Send | src/acs/sms/smpp.py:391-413 | bind, submit and unbind as they run give the outcome of the peer's bytes, and write what `SendWrites` says |
| SmppSession.SendInBytes | src/acs/sms/smpp.py:398-413 | the three requests on the wire, in their order and numbered from 1, each after the response to the one before |
| SmppSession.SentOnThePeersWord | src/acs/sms/smpp.py:402-413 | a message is reported sent only on a bind response numbered 1 and then a submit response numbered 2, both ESME_ROK |
| SmppSession.SentWhenThePeerSaysSo | src/acs/sms/smpp.py:402-413 | and it is reported sent whenever the peer's bytes hold those two responses after requests of its own only |

## Left out

- XML text: serialising, escaping and parsing XML are not modelled; a document is a tree, the decoder's output a list of events, and sizes of events are those of the escaped text.
- WbxmlEncoder.EncodeDocument: does not model the byte limit on its input, malformed input, attributes, comments and document types (src/acs/protocol/omadm/wbxml.py:338-345); the tree has none of them. Its depth and element limits are modelled.
- DmService.DmService.NextMessage: a message that cannot be encoded at all, which the source answers with 500 and saves nothing, has no size here and is not modelled.
- DmService.DmService.Handle: starts from a parsed message; the checks of src/acs/protocol/omadm/session.py:155-174 on the payload's length, content type and syntax, the 500 above, logging, metrics and response headers are not modelled.
- SyncMlReads.MessageIsRead: reading and writing a decimal are parameters that undo each other; texts with white space at their ends are read without it, as `SyncMlReads.StripIs` says.
- WbxmlWire.InlineOnTheWire: for texts of at most 10000 characters, so that no limit is reached; WbxmlWire.OpaqueOnTheWire and WbxmlWire.TableOnTheWire are for texts whose length fits one byte.
- Authentication itself: an attempt carries its outcome. Hashes, nonces and challenge ids are opaque values; ids are fresh.
- The configuration values and the session key come with a request: subscribers, feature flags, templates and device id normalisation are not modelled.
- DmService.DmService.AbsorbDeviceValues: keeps the reported node values and the IMSI, not the fields copied from them nor the time of last contact.
- Concurrent requests on one DM session and eventually consistent reads of its records; servers of different releases sharing one.
- A reply lost after its commit: the server keeps no reply cache, so such a run is a run of answered requests.
- DmRetry.FailuresAreInvisible: for runs in which no record expires, as an attempt made after the expiry finds a new session, and no cut of `DmRetry.CutLeaves` shows; after such a cut another request is answered by what the cut left.
- DmSplit.SplitRefinesUnsplit: compares sessions that send the same starting requests apart from MaxMsgSize, none after its session's expiry; message numbers are the client's to choose.
- Live objects handed out by MemoryStore: the handler copies what it reads, so records are values.
- Expiry of OTP items by the table itself, challenges stored without an id, and a conditional write that succeeded although its call reported a fault.
- OtpLimits.NoDayIsCrowded: for clocks that do not go back in the order of the commits; otherwise it fails, as `OtpWitness.AnEarlierClockCrowdsADay` shows.
- The clear-text code, the text of the SMS, its encoding, the bodies of the SMPP requests, TLS and connecting.
- SmppSession.Session.Request: bytes that arrive after a deadline belong to the next request; the deadline is not a number.
- DmClient.DmClientSimulator.Exchange: the server's store does not fail while the client runs; what the client reads out of the messages is their entries.
- HTTP routing, the console, the OMA-CP documents, number normalisation and the identity chain: data mapping without state.
