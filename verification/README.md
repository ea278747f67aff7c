# Verification of the SPOA IP-reputation agent

A Dafny model of the agent that compiles FireHOL lists into an address index, swaps that index under
concurrent readers and answers HAProxy's questions over SPOP, of the stick table in front of it, and
of the load generator that exercises it. `dafny verify dfyconfig.toml` checks everything.

| file | models |
|---|---|
| `Ipset.dfy`, `Text.dfy`, `Ipv4.dfy` | list files: lines, headers, sections, networks |
| `ListLines.dfy` | what each line of a list file means, character by character |
| `Builder.dfy` | the prefix tree and the merging insertions |
| `Spoa.dfy`, `Verdict.dfy` | the verdict on an address, and its meaning in terms of list lines |
| `Mmdb.dfy`, `HotReload.dfy`, `Watcher.dfy` | one load as a call; loads, lookups and file changes as interleaved steps; the watcher's loop on top |
| `Loads.dfy` | single loads of the protocol: uninterrupted they are the call, and why each ended |
| `Lookups.dfy` | which snapshot each lookup takes, step by step |
| `TempFile.dfy`, `Updater.dfy` | replacing the database file; one updater run |
| `UpdaterProtocol.dfy` | overlapping updater runs, failures and crashes, one system call a step |
| `Collector.dfy` | finding the list files in the commit tree |
| `StickTable.dfy` | the rules of the HAProxy front end, interleaved |
| `Spop.dfy`, `Ack.dfy`, `Client.dfy` | varints, frames, ACKs, the pipelining client |
| `Workload.dfy`, `Fixture.dfy`, `Synthetic.dfy` | the generator, the draw of distinct networks, the printed lists |
| `LoadGenerator.dfy`, `Samples.dfy`, `Display.dfy` | work split and statistics; kept latencies and percentiles; grouped numbers |
| `Bits.dfy`, `Sets.dfy`, `Wrappers.dfy` | words as bounded naturals with bitwise operations; sizes of sets; Option and Result |

## How to read the model

Objects the source updates in place are classes, its loops are loops; each such method is proved
against a function of its inputs or of the old state, and the theorems are about those functions.
Protocols are state machines: a run is any sequence of steps, a step that is not enabled does
nothing, and `After` is the state a run leads to. Counters of 64 bits that the source lets wrap
(`wrapping_add`, the varint decoder and the frame identifiers in a release build) wrap in the model.

The outside world enters as parameters: the text-to-date conversion and the address parsers
(`Ipset.Library`), the networks the database writer refuses (`refuses`), serialisation and its reader
(`encode`, `Reader`), the commit seen at the remote, the failing system calls (`Faults`), the bytes a
socket delivers, and the order in which threads run or report.

## What does not hold

Each of these is proved, mostly by a lemma with a concrete input, beside the exact condition under which the
promise holds.

- The diagram in the agent's own README (lines 278-280) says that without an answer `gpt0` stays 0, the request proceeds
  and the next request asks again. The variable `sess.iprep.ip_bad` outlives the request, and other
  requests share it and the mark. `StickTable.LostAnswer`: the request writes no mark iff at each of its
  two set rules the mark is not 0 or the latest answer in its session is not the one the rule waits for,
  and it is dropped iff some set rule marked the address as bad before. It fails in a reused session
  (`StaleVerdict`), when another request of the session is answered meanwhile (`AnsweredMeanwhile`), and
  by the mark of another session (`DroppedByOtherSession`). With nothing in between the condition is
  that the session never received an answer (`LostAnswerUndisturbed`).
- `src/mmdb.rs:42` says that the lock keeps concurrent triggers from parsing the same file twice. There
  are exactly two ways in which a reload still does (`HotReload.ParsedOnce`, `ParsedAgainIff`): a failed
  load records no time, so a malformed file is parsed by every trigger (`HotReload.MalformedParsedAgain`);
  and a load may publish a version without having read its time, since the time is read before the bytes
  and the file can be replaced between the two (`HotReload.ParsedTwice`).
- A replacement that keeps the modification time is not noticed (`HotReload.StaleSkip`). Skipping serves
  the right bytes in all runs iff parsing bytes return wherever their time does
  (`HotReload.SkipsServeTheBytesIff`), and the right version iff no time returns (`SkipsSoundlyIff`).
- A commit dated after the local clock at the moment its database is written is built again by the next
  run, however late that run comes, unless the file was touched in between; runs skip it once a build has
  written its file at or after the commit time (`UpdaterProtocol.SkipsIffWrittenLater`, `RebuiltIffFuture`).
- The order of lines in a list file matters where a header between them changes the category in force
  (`Verdict.HeaderOrderMatters`); `Verdict.SameVerdictsIff` is the exact condition.
- `decode_ack` accepts identifiers spelled with more than 64 bits under another name when overflow
  checks are off (`Ack.AliasedStreamAccepted`); below 2^64 it is exact (`Ack.AcceptsExactly`). Overflow
  checks turn some such spellings into a panic, but not all: `Spop.CheckedMeaning` says which,
  and `Spop.SilentAlias` is one that goes unnoticed.
- A pipelined batch that runs past frame identifier 2^64 - 1 is rejected although every request was
  acknowledged (`Client.WrapAroundRejected`); `Client.Connection.CheckPipelined` has the condition.
- A database path that itself ends in `.tmp` is truncated in full view while it is rewritten (last
  postcondition of `TempFile.WriteFile`); for all others the replacement is atomic.
- Asking for more than 2^prefix distinct networks would never end (`Fixture.AtMostAllNetworks`).

## Model

| member | source | states |
|---|---|---|
| `Ipset.Parse` | src/firehol/ipset.rs:97-147 | For every content: the sections of the file when every line is well-formed, otherwise the number and the reading of the first malformed line |
| `Ipset.ParseLines` | src/firehol/ipset.rs:103-146 | The loop over `networks`, `sections` and `metadata` yields exactly the maximal runs of entry lines between effective header changes |
| `Ipset.SectionsRefineLines` | src/firehol/ipset.rs:97-147 | Flattened, the sections are the entry lines in line order, each with the header values in force at its line; no section is empty; the network count is the number of entry lines |
| `Ipset.FactsAreEntryLines` | src/firehol/ipset.rs:103-136 | A pair of metadata and network comes out of a file if and only if some entry line has that network and the last headers above it have those values |
| `Ipset.FactsCount` | src/firehol/ipset.rs:39-43 | As many pairs come out as there are entry lines |
| `ListLines.HeaderMeaning` | src/firehol/ipset.rs:50-64 | A header line sets the value of its key for exactly the five keys, a date after conversion; under any other key it says nothing |
| `ListLines.PlainComment` | src/firehol/ipset.rs:106-109 | A comment without a colon says nothing |
| `ListLines.BlankLine` | src/firehol/ipset.rs:131-134 | Neither does an empty line or one of blanks |
| `ListLines.EntryMeaning` | src/firehol/ipset.rs:131-136 | Any other line is read without the blanks around it: as a network with a slash, as one address without, or as malformed |
| `ListLines.LineEndings` | src/firehol/ipset.rs:103-103 | Lines end in a line feed, with or without a carriage return before it |
| `ListLines.LastLine` | src/firehol/ipset.rs:103-103 | The last line is read with and without a line feed at its end |
| `ListLines.LastHeaderDecides` | src/firehol/ipset.rs:116-129 | The value in force is that of the last header line of the key, and empty without one |
| `ListLines.SectionBegins` | src/firehol/ipset.rs:118-129 | An entry joins the section of the entry before it iff no header line between them changes a value |
| `Ipv4.ContainsIsPrefix` | src/firehol/builder.rs:50-68 | A network, host bits or not, contains an address iff its top bits are a prefix of the address's bits, so that a tree path decides containment (RFC 4632, section 3.1) |
| `Ipv4.ContainsRange` | src/firehol/ipset.rs:149-156 | The addresses of `a.b.c.d/n` are the 2^(32-n) consecutive ones that begin at the network address, host bits cleared (RFC 4632, section 3.1) |
| `Ipv4.AddressRoundTrip` | benches/spoe/fixture.rs:231-236 | Parsing a printed dotted quad gives the address back, for all 2^32 addresses |
| `Ipv4.QuadText` | benches/spoe/fixture.rs:231-236 | An address is printed as its four octets, the most significant first |
| `Ipv4.NetworkRoundTrip` | benches/spoe/fixture.rs:231-236 | Parsing a printed `a.b.c.d/n` gives the network back, host bits included |
| `Builder.InsertLookup` | src/firehol/builder.rs:50-68 | One insertion merges the value into the record of every address below the network, splitting leaves on the way, and leaves the record of every other address unchanged |
| `Builder.ScanExtends` | src/firehol/builder.rs:24-38 | What the merge appends to a record is what a scan of the lines finds one line further on: the six arrays stay parallel |
| `Builder.InsertIndexes` | src/firehol/builder.rs:50-68 | If the tree answers every address as a scan of the lines inserted so far, it does so after one more line: nested, duplicate and unordered networks included |
| `Builder.Writer.InsertWith` | src/firehol/builder.rs:55-62 | Refused networks leave the tree alone, others are merged below their path |
| `Builder.InsertSection` | src/firehol/builder.rs:51-66 | The innermost loop: the tree indexes all lines up to the first refused one, whose position is returned |
| `Builder.BuildTree` | src/firehol/builder.rs:43-68 | The tree indexes every line of every file in order, or the first line whose network is refused is reported |
| `Builder.ListingsAppend` | src/firehol/builder.rs:50-68 | The lists go in one file after the other, in the order of the files |
| `Spoa.Position` | src/spoa.rs:107-126 | The first index that holds a wanted value, or the length |
| `Spoa.IpFilter.ShouldDrop` | src/spoa.rs:89-104 | The verdict for an address, whichever listings the database indexes, and the one counter it increments |
| `Spoa.IpFilter.RecordBlock` | src/spoa.rs:128-147 | Exactly the label of the matching list is counted |
| `Spoa.IpFilter.Handle` | src/spoa.rs:55-86 | By the shape of the request: an IPv4 address, typed or as text, gets the verdict that some listing behind the database condemns it, and a block is counted under such a listing; IPv6 is let through; no message, no argument, another type or unreadable text sets and counts nothing |
| `Spoa.FindMatchMeaning` | src/spoa.rs:107-126 | A match exists iff some list of the record is dropped by category or file name; a category match is the first dropped category, and a file-name match is the first dropped name and implies that no category is dropped |
| `Spoa.LabelNamesCulprit` | src/spoa.rs:128-153 | On a record made of list lines the counted label names one line that is really at fault; the fallback label never appears |
| `Spoa.BlocksIffListing` | src/spoa.rs:107-126 | A record found by scanning blocks iff one of the lines behind it has a dropped category in force or stands in a dropped file |
| `Spoa.DecideMeaning` | src/spoa.rs:89-126 | On a database that indexes some listings an IPv4 address is dropped iff one of them contains it and has a dropped category or file name |
| `Verdict.ParseFiles` | src/firehol/mod.rs:105-134 | Exactly the readable, well-formed files, in order |
| `Verdict.ParsedFilesAppend` | src/firehol/mod.rs:105-134 | What is kept of the files stands in the order of the files |
| `Verdict.InListings` | src/firehol/mod.rs:105-134 | What is inserted into the database are the entry lines of the well-formed files, nothing more and nothing less |
| `Verdict.CondemnedIffListed` | src/firehol/mod.rs:105-134 | The listings put into the database condemn an address iff some line of a well-formed file does, so that the contract of the agent speaks about list files |
| `Verdict.VerdictIsListing` | src/spoa.rs:89-126 | End to end: on a database built from list files an IPv4 address is dropped iff some line of a well-formed file lists it while a dropped category is in force there, or the file is dropped |
| `Verdict.VerdictGrows` | src/spoa.rs:89-126 | More files, categories or names never free an address |
| `Verdict.FileOrderIrrelevant` | src/firehol/mod.rs:105-134 | Reordering the files never changes a verdict |
| `Verdict.SameVerdictsIff` | src/spoa.rs:89-126 | The exact condition for line order, and for any other change of a file that keeps its name: all verdicts stay, whatever the other files, the address and the drop sets, iff each address is listed under the same categories in force |
| `Verdict.SameListsSameVerdict` | src/spoa.rs:89-126 | Under that condition the databases built from the one and from the other file give the same verdict |
| `Verdict.LineOrderIrrelevant` | src/firehol/ipset.rs:97-147 | So does every reordering of the lines between two headers |
| `Verdict.HeaderOrderMatters` | src/firehol/ipset.rs:106-129 | Counterexample across a header: an entry before and after a category header, for every network, address in it and category |
| `Workload.SplitMix64.constructor` | benches/spoe/workload.rs:12-14 | The seed is mixed with the increment |
| `Workload.SplitMix64.NextU64` | benches/spoe/workload.rs:16-22 | The state advances by the increment modulo 2^64 and the result is the mixed new state |
| `Workload.SplitMix64.Below` | benches/spoe/workload.rs:25-27 | One draw, reduced below the bound |
| `Workload.MixBijective` | benches/spoe/workload.rs:18-21 | The xor-shift and multiply mix has a two-sided inverse on 64-bit words |
| `Workload.DrawReached` | benches/spoe/workload.rs:16-22 | From any state, any 64-bit value is drawn after a number of calls that a formula gives |
| `Workload.FullPeriod` | benches/spoe/workload.rs:16-22 | Of any 2^64 consecutive draws exactly one returns a given value |
| `Fixture.MaskedValue` | benches/spoe/fixture.rs:226-230 | Masking a draw clears the host bits and nothing else |
| `Fixture.Unseen` | benches/spoe/fixture.rs:229-231 | While fewer than 2^prefix networks were drawn, some network address is missing |
| `Fixture.UnseenDraw` | benches/spoe/fixture.rs:229-231 | From any generator state some later draw brings a network not seen yet |
| `Fixture.AtMostAllNetworks` | benches/spoe/fixture.rs:229-231 | No more than 2^prefix networks can ever be drawn, so the bound on the count cannot be relaxed |
| `Fixture.RandomNetworks` | benches/spoe/fixture.rs:225-241 | Terminates from every generator state for prefixes 1 to 32 and up to 2^prefix networks; prints exactly the first `count` different masked draws, in order of first appearance, and stops at the draw that completes them |
| `Fixture.DistinctMeaning` | benches/spoe/fixture.rs:229-231 | The networks kept differ, they are the ones drawn, and further draws only add to them |
| `Synthetic.ReadHeaderText` | src/firehol/ipset.rs:106-115 | A printed header line, however it is padded, is read as its key and value |
| `Synthetic.ReadEntryText` | src/firehol/ipset.rs:131-136 | A printed entry line is read as its network, with and without `/n` |
| `Synthetic.ReadContent` | benches/spoe/fixture.rs:262-272 | The lines of the printed text are its seven header lines and one entry a network |
| `Synthetic.GrammarReadsItsOwnText` | src/firehol/ipset.rs:149-156 | The dotted-quad and `/n` grammar satisfies what the round trip assumes of the address library |
| `Synthetic.PrintThenParse` | benches/spoe/fixture.rs:225-272 | Printing then parsing: one section with exactly the drawn networks, in order, under the given headers |
| `Spop.Buffer.PutVarint` | benches/spoe/client.rs:60-72 | Appends the encoding; the or-ings, shifts and truncations are those of the source |
| `Spop.Buffer.PutString` | benches/spoe/client.rs:93-96 | Appends the length and the bytes |
| `Spop.Buffer.PutFrame` | benches/spoe/client.rs:99-109 | Appends exactly one frame; the back-patch changes only the frame's own four length bytes |
| `Spop.GetVarint` | benches/spoe/client.rs:74-91 | Value and final position for all inputs, with 64-bit wrap-around |
| `Spop.VarintRoundTrip` | benches/spoe/client.rs:60-91 | Decoding an encoding, wherever it stands, gives the number and consumes exactly the encoding |
| `Spop.VarintCanonical` | benches/spoe/client.rs:60-91 | Bytes that decode to a number are the encoding of that number |
| `Spop.VarintPrefixFree` | benches/spoe/client.rs:60-72 | No encoding is a prefix of another |
| `Spop.VarintLength` | benches/spoe/client.rs:60-72 | A 64-bit number takes one to ten bytes |
| `Spop.VarintRanges` | benches/spoe/client.rs:60-72 | The ranges of the table in section 3.1 of doc/SPOE.txt: one byte below 240, two below 2288, three below 264432, with their exact bytes |
| `Spop.WrappedMeaning` | benches/spoe/client.rs:74-91 | The decoder fails exactly when the bytes run out, stops where the encoding ends, and up to ten bytes returns the encoded number modulo 2^64 |
| `Spop.WrappedExact` | benches/spoe/client.rs:74-91 | Bytes that encode a 64-bit number are decoded exactly |
| `Spop.ExactIff` | benches/spoe/client.rs:74-91 | Decoding keeps every shift below 64 and every shifted byte and sum within 64 bits iff the bytes encode a 64-bit number |
| `Spop.PutThenGet` | benches/spoe/client.rs:60-91 | Encoder output is read back, with no shift of 64 or more, no bit shifted out and no addition that wraps |
| `Spop.CheckedMeaning` | benches/spoe/client.rs:74-91 | On complete encodings a build with overflow checks panics iff there are more than ten bytes or the tenth holds fewer multiples of 2^64 than the number; else it returns the number modulo 2^64 |
| `Spop.AliasReadAsZero` | benches/spoe/client.rs:74-91 | Counterexample: ten bytes that encode 2^64 are read as zero, and panic with overflow checks |
| `Spop.SilentAlias` | benches/spoe/client.rs:74-91 | Counterexample with overflow checks: ten bytes are read as a number 2^64 too small, without a panic |
| `Spop.BigEndianRoundTrip` | benches/spoe/client.rs:107-108 | The four length bytes are read back as the length |
| `Spop.BigEndianBytes` | benches/spoe/client.rs:107-108 | The most significant byte comes first |
| `Spop.FrameMeaning` | benches/spoe/client.rs:214-224 | For every length and input: an error outside 7 to 16384, an error when bytes are missing, else exactly that many bytes |
| `Spop.FramesRoundTrip` | benches/spoe/client.rs:214-224 | Frames appended one after the other are read back as the same bodies in order |
| `Spop.FramesCanonical` | benches/spoe/client.rs:214-224 | Input that reads as n frames is those n frames followed by the unread rest |
| `Ack.DecodeAck` | benches/spoe/client.rs:312-349 | The decoder's verdict and error for every body |
| `Ack.AcceptsExactly` | benches/spoe/client.rs:312-349 | With identifiers below 2^64, accepted iff byte for byte the ACK type, the FIN flags, both identifiers, the expected action and the boolean byte |
| `Ack.FirstWrongPart` | benches/spoe/client.rs:312-349 | Whatever follows the header: the error is that of the first wrong part, in the order type, flags, stream, action, value |
| `Ack.CutBody` | benches/spoe/client.rs:312-326 | A body below seven bytes, or cut within its identifiers, is reported as such |
| `Ack.AckInjective` | benches/spoe/client.rs:312-349 | No body acknowledges two frames or gives two answers |
| `Ack.AliasedStreamAccepted` | benches/spoe/client.rs:312-349 | Counterexample beyond 64 bits: a stream identifier spelled 2^64 is accepted as stream 0 |
| `Client.Connection.constructor` | benches/spoe/client.rs:176-193 | Identifiers start at 1 and nothing has been sent |
| `Client.Connection.ReadFrame` | benches/spoe/client.rs:214-224 | One body within the size limits, or the error, for every input |
| `Client.Connection.WriteNotify` | benches/spoe/client.rs:226-240 | Appends one NOTIFY frame for the address |
| `Client.FixedBytes` | benches/spoe/client.rs:124-143 | The bytes in front of the address in a request and in front of the answer in an ACK |
| `Client.Connection.Check` | benches/spoe/client.rs:244-265 | Succeeds iff the request was sent and the next frame is a valid ACK of exactly that request; the reply carries its answer and the byte counts; otherwise the error names what was wrong |
| `Client.Connection.CheckPipelined` | benches/spoe/client.rs:269-308 | For 1 to 64 addresses: succeeds iff all frames are valid and their identifiers are a permutation of those sent, which must not run past 2^64; the mask ends at zero and `blocked` counts the true answers; an error is that of the first frame that is not acceptable |
| `Client.Connection.ReceiveAll` | benches/spoe/client.rs:287-306 | The same for the receiving loop alone, from any input |
| `Client.BlockedCountMeaning` | benches/spoe/client.rs:304-304 | `blocked` is the number of answers that are true |
| `Client.NotificationFrames` | benches/spoe/client.rs:273-281 | What a batch writes is one NOTIFY frame for each address, in order, each numbered after the one before |
| `Client.IdsNotReused` | benches/spoe/client.rs:244-280 | After any calls on a connection, two of the frames it built share an identifier only if they are at least 2^64 apart |
| `Client.CallContinues` | benches/spoe/client.rs:244-280 | A further call continues the numbering of all calls before it |
| `Client.TestBit` | benches/spoe/client.rs:299-299 | `pending & (1 << index) != 0` reads one bit |
| `Client.ClearBit` | benches/spoe/client.rs:303-303 | `pending &= !(1 << index)` clears that bit and no other |
| `Client.NextAccepted` | benches/spoe/client.rs:296-303 | The three filters let an identifier through iff it belongs to the batch and was not acknowledged before, and the mask keeps track |
| `Client.AcceptedIsPermutation` | benches/spoe/client.rs:287-306 | Distinct identifiers within the batch are a permutation of the identifiers sent, and conversely |
| `Client.NoneLeft` | benches/spoe/client.rs:287-306 | After a full batch the mask is zero |
| `Client.RejectedStaysRejected` | benches/spoe/client.rs:287-306 | Stopping at the first bad answer loses no batch that could still have succeeded |
| `Client.AckFramesRead` | benches/spoe/client.rs:287-296 | Well-formed ACK frames on the wire are read as the answers they carry |
| `Client.WrapAroundRejected` | benches/spoe/client.rs:296-301 | Counterexample at the end of the identifier space: input that acknowledges every request of a batch of 2 to 64 from 2^64 - 1 on, which the batch call rejects |
| `Mmdb.Mmdb.Load` | src/mmdb.rs:61-64 | The snapshot after a load: the complete parse under the modification time read before, or the old one |
| `Mmdb.Mmdb.ReloadIfChanged` | src/mmdb.rs:68-83 | Skips iff the modification time is the one served; publishes iff it is not and the bytes can be read and parse; otherwise the snapshot stays |
| `Mmdb.WatchLoop` | src/mmdb_watcher.rs:65-101 | The snapshot the loop leaves, whatever its batches and the file system's answers; the next rows say what that is |
| `Mmdb.OtherBatchesDoNothing` | src/mmdb_watcher.rs:71-87 | Watcher errors and batches that do not name the file have no effect |
| `Mmdb.LastTriggerDecides` | src/mmdb_watcher.rs:84-101 | If the last batch whose events name the file gets a time and parsing bytes, they are in service in the end, unless that time was served already, and then the snapshot stays |
| `Mmdb.NothingNamed` | src/mmdb_watcher.rs:71-87 | While no batch names the file the snapshot stays |
| `Watcher.WatchAlone` | src/mmdb_watcher.rs:65-101 | Without update runs the events amount to the loop of the watcher |
| `Watcher.EventMeaning` | src/mmdb_watcher.rs:65-101 | An update run always reloads, a batch of the watcher iff it is no error and names the file |
| `Watcher.ProtocolRunsTheLoop` | src/mmdb_watcher.rs:65-101 | In every interleaving the reloads of the watcher and of update runs, in any order, leave in service what its loop with those reloads in between computes from the file system's answers |
| `Watcher.WatcherCatchesUp` | src/mmdb_watcher.rs:65-101 | Once some reload runs while the file does not change, and can read and parse it, and no new version appears, exactly its content is served in the end, whatever other reloads come before and after |
| `HotReload.Always` | src/mmdb.rs:61-135 | In every interleaving: every snapshot served is the complete parse of a version the file had, whose modification time was read no later than its bytes |
| `HotReload.SkipIsSound` | src/mmdb.rs:68-83 | With distinct modification times, a reload that reports no change serves exactly the bytes at the path when it read the time, even if an earlier load raced with a replacement |
| `HotReload.OneTriggerSuffices` | src/mmdb_watcher.rs:65-101 | Once the file stops changing and parses, one reload makes its content the served one, unless the file system does not answer, and then it changes nothing |
| `HotReload.StaysUpToDate` | src/mmdb.rs:61-135 | From then on no load or lookup takes it out of service |
| `HotReload.ServedMovesForward` | src/mmdb.rs:107-135 | The version served never goes backwards |
| `HotReload.LoadsAreAtomic` | src/mmdb.rs:42-83 | Each load acts on the snapshot like one atomic call on what it saw; a failed or skipped one leaves it alone |
| `Loads.UninterruptedLoad` | src/mmdb.rs:61-135 | From every reachable state without a load in progress, the steps of a load or a reload do to the snapshot exactly what the single call does, and end as it ends |
| `Loads.LoadPublishes` | src/mmdb.rs:61-64 | So the plain load of the start-up puts a well-formed file in service, under its modification time, or under none when that cannot be read |
| `Loads.LoadsAreExplained` | src/mmdb.rs:61-135 | Every finished load of every run ended at a step of its own for the reason it gives: unreadable only at a read that failed or found no file, skipped only when the time read was the one served, and so on |
| `Loads.FileMeaning` | src/mmdb.rs:107-118 | What reads answer after a replacement, a touch and a removal of the file |
| `HotReload.ReloadsDiffer` | src/mmdb.rs:68-83 | Publishing by a reload changes the recorded modification time |
| `HotReload.LookupsAreConsistent` | src/mmdb.rs:88-99 | Each lookup answers from one snapshot that was served at some moment during the lookup |
| `Lookups.LookupsTakeWhatIsServed` | src/mmdb.rs:88-99 | In every run each answer belongs to a lookup that came in at one step, took the very snapshot in service at a later one, and came back at a still later one |
| `Lookups.UninterruptedLookup` | src/mmdb.rs:88-99 | A lookup that nothing interrupts answers from the snapshot in service |
| `HotReload.AlwaysChained` | src/mmdb.rs:101-105 | Loads are serialised: each starts from the snapshot the one before it left in service |
| `HotReload.ParsedOnce` | src/mmdb.rs:42-43 | If any later reload parses a version that a load parsed, that load or one in between parsed it and failed, or had not read the modification time of that version |
| `HotReload.NeverParsedAgain` | src/mmdb.rs:42-43 | A load that published a version under its own modification time keeps all later reloads from parsing it, as long as only reloads follow |
| `HotReload.ParsedAgainIff` | src/mmdb.rs:42-43 | The exact condition for two successive loads, with distinct times: a reload during which the version parsed before is still the newest and the file system answers parses it again iff that parse failed or its load had not read the time of that version |
| `HotReload.MalformedParsedAgain` | src/mmdb.rs:107-135 | Counterexample: a malformed file is parsed by every reload although nothing changes |
| `HotReload.SkipsServeTheBytesIff` | src/mmdb.rs:68-83 | For every sequence of file versions: all skips of all runs through it serve the bytes that were at the path when the time was read iff, wherever a modification time returns, the parsing bytes that could be served under it return as well |
| `HotReload.SkipsSoundlyIff` | src/mmdb.rs:68-83 | They serve the very version whose time they read iff no modification time returns after a version that could be served under it; if all versions parse, iff all modification times differ |
| `HotReload.SkipsStale` | src/mmdb.rs:68-83 | Whenever a time does return, a concrete run skips a version that is not served |
| `HotReload.StaleSkip` | src/mmdb.rs:68-83 | Its smallest case: a replacement that keeps the modification time is not noticed |
| `HotReload.ParsedTwice` | src/mmdb.rs:42-43 | Counterexample: a replacement during a load makes the next reload parse that version again |
| `TempFile.TempFile.Drop` | src/firehol/builder.rs:119-133 | Removes the file unless it was handed over |
| `TempFile.TempFile.Persist` | src/firehol/builder.rs:105-116 | Renames, or removes the file and reports |
| `TempFile.Write` | src/firehol/builder.rs:92-102 | The complete file, or the first error with the file removed; only the temporary path is touched at any moment |
| `TempFile.WriteFile` | src/firehol/builder.rs:70-81 | At every moment the output path holds the old file or the complete new one; on failure the old one; the temporary file is gone whenever it can be removed |
| `Updater.Epoch` | src/firehol/mod.rs:198-202 | Whole seconds: a positive commit time is at most the result iff the file is at least that recent, saturation and times before 1970 included |
| `Updater.CountListings` | src/firehol/mod.rs:80-88 | The network count that guards against an empty database is the number of lines to insert |
| `Updater.WriteMmdb` | src/firehol/builder.rs:43-81 | Each failure and its cause; on success the path holds an index of exactly the given lists |
| `Updater.FireholUpdater.Build` | src/firehol/mod.rs:56-101 | With readable metadata: skips iff the tip is not dated after 1970, or there is a database file written at or after it; Git, metadata, checkout, emptiness and refusal errors occur exactly on their cause, serialisation and write errors only on theirs, the negative-timestamp error never; the database is only ever replaced by an index of the tip's lists |
| `Updater.FireholUpdater.UpdateAndBuildMmdb` | src/firehol/mod.rs:47-102 | The same under the lock; a second run meanwhile does nothing |
| `Updater.BuildIsNews` | src/firehol/mod.rs:56-72 | A build of a tip not dated after the clock gets a modification time that was not served before, if nothing newer than the database was |
| `Updater.RunUpdate` | src/main.rs:144-160 | After a build, and only then, the database is reloaded; the lists of the tip are in service if the new modification time is not the one served, as for every tip not dated after the clock when nothing newer than the database was served |
| `Updater.ServedVerdict` | src/spoa.rs:89-104 | With the lists of the tip in service an IPv4 address is dropped iff some well-formed list file of the tip condemns it |
| `UpdaterProtocol.Always` | src/firehol/mod.rs:47-102 | The invariant of overlapping runs, failures and crashes |
| `UpdaterProtocol.OneRunAtATime` | src/firehol/mod.rs:47-55 | At most one run is past the lock |
| `UpdaterProtocol.DatabaseIsComplete` | src/firehol/builder.rs:83-116 | The database path never holds a partial file |
| `UpdaterProtocol.OldOrNew` | src/firehol/builder.rs:70-116 | Only the rename by the run holding the lock changes the path, to the complete file of that run's tip |
| `UpdaterProtocol.TempIsOwned` | src/firehol/builder.rs:83-133 | A temporary file belongs to the run holding the lock, unless an exit could not remove it; after all other exits it is gone |
| `UpdaterProtocol.NegativeIsUnreachable` | src/firehol/mod.rs:91-97 | No run reports a negative commit timestamp |
| `UpdaterProtocol.BusyReturns` | src/firehol/mod.rs:47-55 | A run that finds the lock taken reports so and changes nothing else |
| `UpdaterProtocol.FailureReleases` | src/firehol/builder.rs:119-133 | However a run fails, and when the tip lists nothing, the lock is free again and the database untouched; the temporary file goes unless it cannot be removed |
| `UpdaterProtocol.EnvironmentMeaning` | src/firehol/builder.rs:83-133 | Between the steps of runs: time passes, a touch dates the database file and keeps it, a deletion removes it, a crash frees the lock and leaves the temporary file behind |
| `UpdaterProtocol.BuildsIffNewer` | src/firehol/mod.rs:56-72 | From every reachable state with a free lock a run builds its tip iff that is dated after 1970 and after the last write of the database file; without a file, iff it is dated after 1970 |
| `UpdaterProtocol.BuildsAdvance` | src/firehol/mod.rs:56-72 | With clocks that do not go back and tips not from the future, successive builds are of strictly newer commits |
| `UpdaterProtocol.UnchangedTipIsSkipped` | src/firehol/mod.rs:60-72 | Under the same conditions a tip that was built, or an older one, is skipped |
| `UpdaterProtocol.SkipsIffWrittenLater` | src/firehol/mod.rs:60-72 | In every run, whatever the clock did since: while the database is the untouched file of the last build, a run skips its tip iff the commit is not dated after the clock at that build's last write |
| `UpdaterProtocol.RebuiltIffFuture` | src/firehol/mod.rs:60-72 | Two runs in a row on one new tip, any time apart, build it twice iff the commit was dated after the clock at the first run's write |
| `StickTable.Always` | haproxy/haproxy.cfg:23-39 | The invariant of interleaved requests, lost answers and expiring entries |
| `StickTable.MarkIsAnAnswer` | haproxy/haproxy.cfg:35-36 | A mark other than 0 equals an answer given for the address in the session that wrote it |
| `StickTable.ReplyCounts` | haproxy/haproxy.cfg:33-36 | In every reachable state an answer is recorded and becomes the verdict of its session, whatever was answered before |
| `StickTable.AnsweredUndisturbed` | haproxy/haproxy.cfg:33-39 | With nothing in between the answer becomes the mark of an unmarked address and decides; a mark set meanwhile stays and decides instead |
| `StickTable.WholeRequest` | haproxy/haproxy.cfg:23-39 | A whole uninterrupted request from every reachable state: an unmarked address is asked about once and the answer marks it and decides; a marked one is not asked about and its mark decides |
| `StickTable.MarkRules` | haproxy/haproxy.cfg:33-39 | While an entry lives its mark does not change, the agent is not asked about the address again, and its requests are dropped iff the mark is 2 |
| `StickTable.DropsIffMarkedBad` | haproxy/haproxy.cfg:39-39 | Every decision of a run falls at the drop rule and is to drop iff the mark is 2 right then |
| `StickTable.DroppedOnlyIfCondemned` | haproxy/haproxy.cfg:23-39 | An address the agent never called bad is never dropped |
| `StickTable.SilentSessionWritesNothing` | haproxy/haproxy.cfg:33-36 | A session without an answer sets no mark |
| `StickTable.WrittenBySetRule` | haproxy/haproxy.cfg:35-36 | In every reachable state a step gives an unmarked address a mark iff it is a set rule of a request from it and the latest answer in its session is the one the rule waits for |
| `StickTable.MarkHistory` | haproxy/haproxy.cfg:23-39 | In every run an address has a mark iff some set rule wrote it and the entry did not expire since |
| `StickTable.LostAnswer` | haproxy/haproxy.cfg:33-39 | When an answer is lost, with anything in between: each set rule of the request writes iff the mark is 0 and the latest answer in its session, right then, is the one it waits for; the request is dropped iff some set rule of whatever session has marked the address as bad and the entry did not expire |
| `StickTable.LostAnswerUndisturbed` | haproxy/haproxy.cfg:33-39 | With nothing in between: the mark stays 0 iff the session never got an answer, and the request is dropped iff the old answer is bad |
| `StickTable.AnsweredMeanwhile` | haproxy/haproxy.cfg:33-36 | Counterexample to failing open: an answer to another request of the session arrives before the set rules, and the request whose answer is lost marks the address |
| `StickTable.DroppedByOtherSession` | haproxy/haproxy.cfg:33-39 | Counterexample to failing open: the request is dropped on the mark another session wrote meanwhile |
| `StickTable.StaleVerdict` | haproxy/haproxy.cfg:33-36 | Counterexample to failing open: a lost answer in a reused session marks the address, after a first request that ran to its end and an expiry while nothing tracks the entry |
| `Collector.Walk.CollectRecursive` | src/firehol/mod.rs:143-172 | Appends the list files below the prefix in tree order, or reports the first error; the prefix is restored on every return |
| `Collector.CollectIpsetFiles` | src/firehol/mod.rs:137-141 | The same from the root |
| `Collector.SuffixMeaning` | src/firehol/mod.rs:174-177 | A list file is one whose name ends in `.ipset` or `.netset`, an ignored directory one whose name ends in `_country` when countries are ignored |
| `Collector.CollectedExactly` | src/firehol/mod.rs:143-177 | A path is collected iff it is a blob with a list suffix and no ignored directory above it |
| `Collector.CollectedInOrder` | src/firehol/mod.rs:143-172 | Files come in tree order, none twice |
| `Collector.FailsIffBroken` | src/firehol/mod.rs:150-166 | The walk fails iff some entry outside ignored directories has a name that is not UTF-8 or is an unreadable tree |
| `LoadGenerator.Worker.Record` | benches/spoe/main.rs:297-314 | The figures and the reservoir tell about one reply more |
| `LoadGenerator.Worker.Keep` | benches/spoe/main.rs:306-313 | The reservoir of one latency more: appended until it is full, then at the place that is drawn, if there is one |
| `LoadGenerator.Worker.Run` | benches/spoe/main.rs:318-334 | The report tells about exactly the replies before the first error, whose request number it keeps, and its samples are the reservoir of their latencies |
| `LoadGenerator.ServedMeaning` | benches/spoe/main.rs:318-334 | The replies before the first error are the longest run of replies at the beginning |
| `LoadGenerator.StatsMeaning` | benches/spoe/main.rs:297-305 | Counts exact, of all replies and of the blocked ones; bytes and time summed; minimum and maximum attained and bounding |
| `LoadGenerator.StatsAppend` | benches/spoe/main.rs:433-452 | Merging the figures of two sequences of replies gives the figures of one after the other |
| `LoadGenerator.StatsOfRearranged` | benches/spoe/main.rs:433-452 | The merged figures do not depend on the order of arrival |
| `Samples.PlaceHolds` | benches/spoe/main.rs:306-313 | Each place of the reservoir holds the last latency that went there: in order at first, by lot later |
| `Samples.ReservoirPart` | benches/spoe/main.rs:306-313 | Nothing is kept that was not measured, and nothing more often than it was |
| `Samples.SharedWeight` | benches/spoe/main.rs:447-451 | The samples kept of a report stand for all its requests together |
| `Samples.Percentile` | benches/spoe/main.rs:454-467 | The latency of the first sample at which the weights reach the fraction, or the last one |
| `Samples.PercentileMeaning` | benches/spoe/main.rs:454-467 | For every fraction up to one of ordered samples: those up to the percentile weigh at least the fraction of the total, those below it less |
| `LoadGenerator.SharesAreFair` | benches/spoe/main.rs:387-395 | The shares sum to the number of requests and differ by at most one |
| `LoadGenerator.CountsAllIffNoneFailed` | benches/spoe/main.rs:387-399 | The replies number as many as the requests iff no worker failed |
| `LoadGenerator.Summary.Merge` | benches/spoe/main.rs:433-452 | The summary after one more report; its samples share the weight of the requests it counts |
| `LoadGenerator.Workers.Run` | benches/spoe/main.rs:387-403 | In whatever order reports arrive, the summary tells about all replies; its count grows by `iters` iff no worker failed, and its errors stay iff none did; the weights of its samples add up to its count, and their latencies are some of those measured |
| `Display.Format` | src/display.rs:24-44 | The two loops print the decimal digits in groups of three |
| `Display.FitsBuffer` | src/display.rs:25-28 | No 64-bit value needs more than the twenty bytes of the buffer |
| `Display.GroupsOfThree` | src/display.rs:37-43 | Counted from the right, every fourth character is a space and all others are the digits in order |
| `Display.ReadsBack` | src/display.rs:24-44 | Without its spaces the text is the number without leading zero that reads back to the value |

## Left out

- HotReload.Always: the file is replaced by rename or touched; a writer that overwrites the database in place while it is read is not modelled.
- HotReload.OneTriggerSuffices: which events inotify delivers, and when, is left open; the lemma starts from a trigger that arrives.
- StickTable.MarkRules: entries may expire at any step; the ten-second timer, the table size and the rule that tracked entries stay are left open, so the for-all results cover more runs than the proxy makes. The counterexample runs let entries expire only while nothing tracks them.
- StickTable.LostAnswer: a session never ends and may carry any number of concurrent requests; closing a connection is not modelled.
- UpdaterProtocol.BuildsAdvance: assumes that clocks and modification times do not go back, that nobody deletes the database and that tips are not dated in the future; without the last one see RebuiltIffFuture.
- UpdaterProtocol.DatabaseIsComplete: a crash of the process at any step is modelled, a power failure that loses a synced rename is not.
- Updater.FireholUpdater.Build: the range check of the build time cannot fail on a 64-bit commit time that passed the comparison on the platforms the agent targets, and is not modelled.
- Updater.WriteMmdb: the bytes of the database are a parameter; a file counts as an index when its bytes encode a tree that is one.
- Synthetic.PrintThenParse: the grammar of addresses is the strict dotted quad with `/n`; other spellings the address library may accept do not occur in printed text.
- Ipset.Parse: the date conversion is any partial function of the header text.
- LoadGenerator.Worker.Record: sums are unbounded naturals; overflow of 64-bit byte counts and of durations is not modelled.
- LoadGenerator.Workers.Run: the weights of the samples are real numbers instead of floating-point ones, and wall times are left out.
- Samples.Percentile: over real numbers, so the cumulative weight reaches every fraction up to one; with rounding it may miss the total by a little, and then the last sample is taken.
- Git clone, fetch and checkout, and TLS: a tip is a commit time and a tree of files.
- The byte format of the database, its 28-bit nodes and the decoding of records: they live in libraries.
- TCP, the SPOE server library, the HELLO handshake and its payload, Tokio, metrics export, logging, signals, cron.
- Parallel parsing: the files are parsed one after the other; the source keeps their order as well.
- Sizes and dates for log messages, which use floating point or a date library.
- Command line, build script, container and dashboard configuration.
