# ServiceMq in Dafny

ServiceMq is a small durable message queue for .NET. Each process has one
`MessageQueue`, its front door. The front door holds two queues:

- an `OutboundQueue`. It writes every message it is given to an `out`
  directory as one tab-separated line. A send thread then delivers the
  messages over named pipes or TCP. A message whose delivery fails waits in
  a per-destination retry queue. It is retried once more seconds have passed
  than it has attempts. It is dead-lettered to a `fail` log once it is more
  than 24 hours old.
- an `InboundQueue`. A message arrives through the `MessageService`
  endpoint. The queue writes it to an `in` directory, hands it out in order
  from `Receive`, and then logs it to a `read` log and deletes its file.

`Flash` and `Flasher` send one message directly, with no queue. If that fails
they fall back to a list of alternate destinations. `CachingQueue` is a
bounded in-memory queue that spills keys to disk and reloads them in batches.
`FastFile` batches file deletes.

This project models those parts as pure functions over immutable state:

- the file system is a map from path to text;
- the clock is a `DateTime` parameter;
- delivery (`Deliver`), DNS (`Resolver`) and the Win32 delete call
  (`Refusal`) are function parameters.

It proves:

- the record line formats round-trip;
- the queues keep their invariants and their order;
- the retry bookkeeping never loses or duplicates a message identifier in
  the corrected send loop;
- the failover helpers return the first alternate that succeeds.

It also pins down, with concrete inputs, three places where the code as
written does not do what it evidently means to do. They are listed under
"## Findings".

Modules, one per source concept:

| module | models |
|---|---|
| `Base` | `Result`/`Option`, exceptions, `Int32` wrap-around |
| `Text` | `string.Split`, `Replace`, `IndexOf`, `Convert.ToInt32`, zero-padded `ToString("0000")` |
| `Sorting` | `List<string>.Sort` |
| `Guids`, `Base64`, `DateTimes` | `Guid` text, `Convert.To/FromBase64String`, `DateTime` custom formats and `ParseExact` |
| `FlatLine` | `Extensions.ToFlatLine` / `FromFlatLine` |
| `Addresses` | `Address` and its `ToString`/`FromString`/`ToFileNameString` |
| `Messages`, `OutboundMessages` | the inbound and outbound record lines |
| `QueueFiles` | `Path.Combine`, `File.WriteAllText`/`AppendAllLines`/`Delete`, the message file name and its counter |
| `FastFiles` | `FastFile` |
| `CachingQueues` | `CachingQueue` |
| `InboundQueues` | `InboundQueue` |
| `OutboundQueues` | `OutboundQueue` and one iteration of its send loop |
| `MessageServices` | both versions of `MessageService` |
| `Routing` | the three `GetOptimalAddress` helpers |
| `Failover` | `Flash` and `Flasher` |
| `MessageQueues` | `MessageQueue` |

## Model

In the source column, `src/ServiceMq/ServiceMq/` is the library project.
`src/ServiceMq/Address.cs`, `src/ServiceMq/FileText.cs` and
`src/ServiceMq/MessageService.cs` are the newer copies at the repository
level.

| member | source | states |
|---|---|---|
| Base.Inc32 | src/ServiceMq/ServiceMq/OutboundQueue.cs:173 | `SendAttempts++` on an `Int32`: adds one below the maximum and wraps the maximum to the minimum |
| Text.SplitLength | src/ServiceMq/ServiceMq/Message.cs:48 | `Split` yields one more part than there are separators |
| Text.SplitJoin | src/ServiceMq/ServiceMq/Message.cs:48 | splitting a separator-joined list of separator-free fields gives back exactly those fields |
| Text.JoinOccurrences | src/ServiceMq/ServiceMq/Message.cs:33 | a record joined from separator-free fields holds exactly one separator fewer than it has fields |
| Text.JoinExcludes | src/ServiceMq/ServiceMq/Message.cs:33 | a character absent from every field and different from the separator is absent from the joined record |
| Text.Utf16Length | src/ServiceMq/MessageService.cs:41 | `string.Length` counts UTF-16 code units: between one and two per character, and exactly one per character iff no character lies outside the Basic Multilingual Plane |
| Text.Utf16LengthAppend | src/ServiceMq/MessageService.cs:41 | the UTF-16 length of a concatenation is the sum of the parts' lengths |
| Text.ReplaceChar | src/ServiceMq/ServiceMq/Extensions.cs:17 | replacing a character by text that lacks it removes every occurrence; a one-character replacement keeps the length |
| Text.PadNatValue | src/ServiceMq/ServiceMq/InboundQueue.cs:54 | a zero-padded number reads back as the number |
| Text.PadNatExactWidth | src/ServiceMq/ServiceMq/InboundQueue.cs:54 | a number below 10^w pads to exactly w digits |
| Text.ParseInt32 | src/ServiceMq/ServiceMq/Message.cs:58 | `Convert.ToInt32` succeeds only on decimal digits, optionally after one sign character; a plain digit string reads as its value |
| Text.IntRoundTrip | src/ServiceMq/ServiceMq/Message.cs:58 | every `Int32` printed in decimal parses back to itself |
| Text.IntToStringChars | src/ServiceMq/ServiceMq/Message.cs:38 | a printed integer holds only digits and the minus sign, so it cannot hold a tab |
| Sorting.Sort | src/ServiceMq/ServiceMq/InboundQueue.cs:34 | the listing comes back sorted (ordinal) and is a permutation of the input |
| Guids.Parse | src/ServiceMq/ServiceMq/Message.cs:54 | `Guid.Parse` succeeds exactly on the 8-4-4-4-12 hyphenated hex form |
| Guids.RoundTrip | src/ServiceMq/ServiceMq/Message.cs:54 | every identifier printed by `ToString` parses back to itself |
| Guids.FormatChars | src/ServiceMq/ServiceMq/Message.cs:34 | a printed identifier holds only hex digits and hyphens |
| Guids.Format | src/ServiceMq/ServiceMq/Message.cs:34 | `Guid.ToString()` prints 36 characters; Guids.RoundTrip and Guids.FormatChars state what they are |
| Base64.Encode | src/ServiceMq/ServiceMq/Message.cs:41 | the encoding has a length divisible by four and uses only the alphabet and the pad |
| Base64.Decode | src/ServiceMq/ServiceMq/Message.cs:61 | `FromBase64String` on four-character groups, the last of which may carry one or two pads; Base64.DecodeLength and Base64.RoundTrip state what it accepts and gives |
| Base64.DecodeLength | src/ServiceMq/ServiceMq/Message.cs:61 | decoding succeeds only on a length divisible by four, and gives three bytes per four characters, less at most two for the pads |
| Base64.RoundTrip | src/ServiceMq/ServiceMq/Message.cs:61 | `FromBase64String` undoes `ToBase64String` for every byte sequence |
| DateTimes.Parse17 | src/ServiceMq/ServiceMq/Message.cs:56 | parsed instants have no sub-millisecond part; with "hh" and no designator the hour is always before noon |
| DateTimes.Format17 | src/ServiceMq/ServiceMq/Message.cs:35-36 | the "yyyyMMddHHmmssfff" and "yyyyMMddhhmmssfff" stamps are all digits; DateTimes.RoundTrip24 and RoundTrip12 state what they keep |
| DateTimes.RoundTrip24 | src/ServiceMq/ServiceMq/Message.cs:12 | "yyyyMMddHHmmssfff" printed and parsed back keeps the instant to the millisecond |
| DateTimes.RoundTrip12 | src/ServiceMq/ServiceMq/OutboundMessage.cs:12 | "yyyyMMddhhmmssfff" printed and parsed back keeps the instant to the millisecond with the hour taken modulo 12 |
| DateTimes.TwelveHourLosesAfternoon | src/ServiceMq/ServiceMq/OutboundMessage.cs:38 | no afternoon instant survives the 12-hour format |
| FlatLine.ToFlatLine | src/ServiceMq/ServiceMq/Extensions.cs:15-18 | the two `Replace` calls; FlatLine.ToFlatLineIsEscaped, FlatHasNoLineBreak and FlatLength state what they produce |
| FlatLine.FromFlatLine | src/ServiceMq/ServiceMq/Extensions.cs:20-23 | the two reverse `Replace` calls; FlatLine.UnescapeCR, UnescapeLF and RoundTrip state what they give back |
| FlatLine.ToFlatLineIsEscaped | src/ServiceMq/ServiceMq/Extensions.cs:15-18 | the two replacements escape each CR and LF in place, against an independent character-by-character definition |
| FlatLine.FlatHasNoLineBreak | src/ServiceMq/ServiceMq/Extensions.cs:15-18 | the flat line holds no CR and no LF |
| FlatLine.FlatLength | src/ServiceMq/ServiceMq/Extensions.cs:15-18 | each line break adds one character, and nothing else changes the length |
| FlatLine.FlatIdentity | src/ServiceMq/ServiceMq/Extensions.cs:15-18 | text without line breaks is left unchanged |
| FlatLine.UnescapeCR | src/ServiceMq/ServiceMq/Extensions.cs:22 | the first pass of `FromFlatLine` turns back exactly the escaped CRs |
| FlatLine.UnescapeLF | src/ServiceMq/ServiceMq/Extensions.cs:22 | the second pass turns back exactly the escaped LFs |
| FlatLine.RoundTrip | src/ServiceMq/ServiceMq/Extensions.cs:10-23 | `FromFlatLine(ToFlatLine(s)) == s` when no backslash in `s` is followed by `r` or `n` |
| FlatLine.LookalikeIsNotRestored | src/ServiceMq/ServiceMq/Extensions.cs:20-23 | a literal backslash-r comes back as a CR, so that side condition is needed |
| Addresses.ParseTransport | src/ServiceMq/Address.cs:46 | `Enum.Parse` succeeds exactly on a transport's name and returns the transport of that name |
| Addresses.TransportRoundTrip | src/ServiceMq/Address.cs:133-138 | each transport reads back from its name |
| Addresses.TcpAddress | src/ServiceMq/Address.cs:55-68 | succeeds iff the server name resolves; an unresolved name throws "Unable to get IP address for serverName"; the result is a Tcp address with no pipe |
| Addresses.BothAddress | src/ServiceMq/Address.cs:75-87 | succeeds iff the host resolves; otherwise "Unable to get IP address for host"; the result carries both endpoints |
| Addresses.BothAt | src/ServiceMq/Address.cs:95-102 | the address carries the given IP text, port and pipe with transport Both |
| Addresses.BothAtIPAddress | src/ServiceMq/Address.cs:110-117 | fails iff the `IPAddress` is null, and otherwise equals the string constructor |
| Addresses.PipeAddress | src/ServiceMq/Address.cs:123-130 | a pipe-only address: no IP and port 0 |
| Addresses.FromString | src/ServiceMq/Address.cs:39-48 | throws unless the text has exactly four commas; a parsed address always has an IP and a pipe, possibly empty |
| Addresses.ToFileNameString | src/ServiceMq/Address.cs:25-37 | throws `NullReferenceException` iff the address is not pipe-only and has no IP |
| Addresses.PipeFingerprint | src/ServiceMq/Address.cs:30-31 | a pipe address's file-name part is its pipe name |
| Addresses.TcpFingerprintHasNoDots | src/ServiceMq/Address.cs:32-33 | a TCP address's file-name part holds no dot |
| Addresses.ToString | src/ServiceMq/Address.cs:20-23 | the five fields joined by commas, a null as empty; Addresses.PrintedCommas, PrintedTabFree and RoundTrip state what it prints |
| Addresses.PrintedCommas | src/ServiceMq/Address.cs:20-23 | an address without commas in its fields prints with exactly four |
| Addresses.PrintedTabFree | src/ServiceMq/Address.cs:20-23 | an address without tabs in its fields prints without tabs, so it fits in one record field |
| Addresses.RoundTrip | src/ServiceMq/Address.cs:39-48 | `FromString(ToString(a))` gives `a` back, with null IP and pipe read as empty, when no field holds a comma and the server name resolves |
| Addresses.CommaInFieldFails | src/ServiceMq/Address.cs:41-42 | a server name holding a comma makes the printed address unreadable |
| Addresses.LookupResultDiscarded | src/ServiceMq/Address.cs:43-45 | the parsed address does not depend on what DNS returns, only on whether the name resolves |
| FileTexts.Equals | src/ServiceMq/FileText.cs:17-23 | true exactly for another `FileText` with the same name and text |
| FileTexts.EquatableEquals | src/ServiceMq/FileText.cs:37-40 | true exactly for a non-null equal value |
| FileTexts.EqualsIsEquivalence | src/ServiceMq/FileText.cs:17-40 | equality is reflexive and symmetric, and the two `Equals` agree |
| FileTexts.ToString | src/ServiceMq/FileText.cs:30-35 | a nameless value prints its text alone (null as empty); a named one prints the name, a colon, then the text |
| FileTexts.ToStringSplitsAtName | src/ServiceMq/FileText.cs:30-35 | when the name holds no colon, the first colon ends the name and the text follows it |
| Messages.Parse | src/ServiceMq/ServiceMq/Message.cs:44-66 | a line without exactly seven tabs reads as null; a parsed message carries its file name |
| Messages.FromFields | src/ServiceMq/ServiceMq/Message.cs:51-62 | a parsed message has a sender, its type name, bytes iff the kind field is "bin" and text otherwise, and millisecond stamps |
| Messages.To | src/ServiceMq/ServiceMq/Message.cs:24-28 | blank text gives the default value; otherwise the text is deserialized |
| Messages.BinaryReadsAsDefault | src/ServiceMq/ServiceMq/Message.cs:24-28 | a binary message reread from disk deserializes to the default value |
| Messages.ToString | src/ServiceMq/ServiceMq/Message.cs:31-42 | the eight fields joined by tabs; Messages.FieldsTabFree and Messages.RoundTrip state that the line reads back |
| Messages.FieldsTabFree | src/ServiceMq/ServiceMq/Message.cs:31-42 | no field of a printable message holds a tab |
| Messages.IdField | src/ServiceMq/ServiceMq/Message.cs:54 | the identifier field parses back to the identifier |
| Messages.FromField | src/ServiceMq/ServiceMq/Message.cs:55 | the sender field parses back to the sender |
| Messages.SentField | src/ServiceMq/ServiceMq/Message.cs:56 | the sent field parses back to the sent time, to the millisecond |
| Messages.ReceivedField | src/ServiceMq/ServiceMq/Message.cs:57 | the received field parses back to the received time, to the millisecond |
| Messages.AttemptField | src/ServiceMq/ServiceMq/Message.cs:58 | the attempt field parses back to the attempt count |
| Messages.PayloadFields | src/ServiceMq/ServiceMq/Message.cs:40-41 | the kind is "bin" iff there are bytes; bytes decode back; text is stored as is |
| Messages.FieldsRoundTrip | src/ServiceMq/ServiceMq/Message.cs:51-62 | the eight printed fields read back as the message, with stamps cut to the millisecond and the file name set |
| Messages.RoundTrip | src/ServiceMq/ServiceMq/Message.cs:31-66 | a printable message's record line reads back as the same message, with stamps cut to the millisecond, null text read as empty and the file name set |
| OutboundMessages.ParseIn | src/ServiceMq/ServiceMq/OutboundMessage.cs:25-46 | a line without exactly six tabs reads as null; a parsed message carries its file name |
| OutboundMessages.Parse | src/ServiceMq/ServiceMq/OutboundMessage.cs:25-46 | the same, for the "hh" format: a reread sent time is always before noon |
| OutboundMessages.FromFields | src/ServiceMq/ServiceMq/OutboundMessage.cs:32-42 | a parsed message has both addresses, a destination IP, zero attempts, no last attempt, and bytes iff the kind is "bin" |
| OutboundMessages.FieldsTabFree | src/ServiceMq/ServiceMq/OutboundMessage.cs:48-60 | no field of a printable message holds a tab |
| OutboundMessages.ToLine | src/ServiceMq/ServiceMq/OutboundMessage.cs:48-60 | the seven fields joined by tabs with the "hh" stamp; OutboundMessages.LineRoundTrip and RoundTrip state what reads back |
| OutboundMessages.IdField | src/ServiceMq/ServiceMq/OutboundMessage.cs:35 | the identifier field parses back |
| OutboundMessages.AddressFields | src/ServiceMq/ServiceMq/OutboundMessage.cs:36-37 | both address fields parse back |
| OutboundMessages.SentField | src/ServiceMq/ServiceMq/OutboundMessage.cs:38 | the sent field parses back to what the chosen hour format keeps |
| OutboundMessages.PayloadFields | src/ServiceMq/ServiceMq/OutboundMessage.cs:40-41 | the kind is "bin" iff there are bytes; bytes decode back; text is stored as is |
| OutboundMessages.FieldsRoundTrip | src/ServiceMq/ServiceMq/OutboundMessage.cs:32-42 | the seven printed fields read back as the message, with the attempt state reset |
| OutboundMessages.LineRoundTrip | src/ServiceMq/ServiceMq/OutboundMessage.cs:25-60 | `ToLine` then `ReadFromFile` gives the message back, for either hour format |
| OutboundMessages.RoundTrip | src/ServiceMq/ServiceMq/OutboundMessage.cs:25-60 | as written, the line reads back with the sent hour folded onto the morning; an afternoon sent time never survives |
| OutboundMessages.RoundTripWith24HourStamp | src/ServiceMq/ServiceMq/OutboundMessage.cs:12 | with "HH" the sent time survives to the millisecond |
| QueueFiles.PathCombine | src/ServiceMq/ServiceMq/InboundQueue.cs:57 | the combined path starts with the directory and ends with the name |
| QueueFiles.WriteAllText | src/ServiceMq/ServiceMq/FastFile.cs:40-43 | the file holds exactly the text, and every other file is untouched |
| QueueFiles.AppendLine | src/ServiceMq/ServiceMq/InboundQueue.cs:116 | the log gains the line and a newline at its end, and every other file is untouched |
| QueueFiles.Delete | src/ServiceMq/ServiceMq/InboundQueue.cs:117 | a null path throws; otherwise the file is gone, and every other file is untouched |
| QueueFiles.LogAndDelete | src/ServiceMq/ServiceMq/InboundQueue.cs:111-118 | the line is appended to the hourly log; the message file is removed; a null file name throws only after the log line is written |
| QueueFiles.NextCount | src/ServiceMq/ServiceMq/InboundQueue.cs:66 | the counter rolls to 0 exactly when it is above 9999 and otherwise grows by one |
| QueueFiles.CountCycle | src/ServiceMq/ServiceMq/InboundQueue.cs:66 | after n messages the counter is n modulo 10001 |
| QueueFiles.CounterWidth | src/ServiceMq/ServiceMq/InboundQueue.cs:54 | every counter value prints as four digits except 10000, which prints as five |
| QueueFiles.FileNameStartsWithStamp | src/ServiceMq/ServiceMq/InboundQueue.cs:52-55 | a message file name starts with its stamp |
| QueueFiles.FileNameCounter | src/ServiceMq/ServiceMq/InboundQueue.cs:52-55 | after the stamp, a message file name holds a dash, the zero-padded counter and a dash, and the digits read back as the counter |
| FastFiles.ClearException | src/ServiceMq/ServiceMq/FastFile.cs:20-23 | clears the last exception and keeps the pending lines, the last-deleted time and the disk |
| FastFiles.DeleteError | src/ServiceMq/ServiceMq/FastFile.cs:97-104 | an error only for a present file the system refuses; a missing file is no error |
| FastFiles.DeleteOne | src/ServiceMq/ServiceMq/FastFile.cs:97-104 | the file is gone unless refused, and every other file is untouched |
| FastFiles.DeleteAsync | src/ServiceMq/ServiceMq/FastFile.cs:47-63 | the name is queued and nothing else changes; whenever more than 64 names are pending a flush starts |
| FastFiles.FlushTriggers | src/ServiceMq/ServiceMq/FastFile.cs:14-15 | a flush starts iff the queue grows past 64 names or more than 4 seconds have passed since the last flush |
| FastFiles.DeleteAll | src/ServiceMq/ServiceMq/FastFile.cs:65-90 | the queue is drained and the time recorded; the files left are exactly those not queued or refused; the last exception is the last refusal |
| FastFiles.DeleteErrorStable | src/ServiceMq/ServiceMq/FastFile.cs:65-90 | deleting earlier names does not change whether a later one is refused |
| FastFiles.FlushResets | src/ServiceMq/ServiceMq/FastFile.cs:53-63 | straight after a flush, one more delete does not trigger another |
| CachingQueues.FillSplits | src/ServiceMq/ServiceMq/CachingQueue.cs:40-63 | `Initialize` loads the first files in order until the queue is full and leaves the rest as cold keys |
| CachingQueues.Create | src/ServiceMq/ServiceMq/CachingQueue.cs:27-38 | a non-persistent queue starts empty; no queue starts reloading or with an error |
| CachingQueues.CreateGood | src/ServiceMq/ServiceMq/CachingQueue.cs:27-63 | a new queue is bounded (at most max in memory) and stocked (enough in memory while cold keys remain) |
| CachingQueues.Count | src/ServiceMq/ServiceMq/CachingQueue.cs:127-135 | the messages in memory plus the keys waiting on disk; every operation's contract states its effect on it |
| CachingQueues.Place | src/ServiceMq/ServiceMq/CachingQueue.cs:101-108 | the count grows by one; the message goes to memory iff there is room and no cold key; otherwise its key goes cold |
| CachingQueues.Enqueue | src/ServiceMq/ServiceMq/CachingQueue.cs:92-110 | the file is written iff the queue persists; the count grows by one; the message goes to memory iff memory has room and no key waits, otherwise its key goes to the back of the cold keys; the bound and the refill state are unchanged |
| CachingQueues.ReEnqueue | src/ServiceMq/ServiceMq/CachingQueue.cs:112-125 | nothing is written; the count grows by one; the message goes to memory iff memory has room and no key waits, otherwise its key goes to the back of the cold keys; the bound and the refill state are unchanged |
| CachingQueues.Peek | src/ServiceMq/ServiceMq/CachingQueue.cs:79-90 | nothing iff memory is empty, otherwise the oldest message in memory |
| CachingQueues.Dequeue | src/ServiceMq/ServiceMq/CachingQueue.cs:65-77 | returns what `Peek` would; removes it; a reload starts iff one is running or cold keys remain and memory fell below the reorder level |
| CachingQueues.RefillPass | src/ServiceMq/ServiceMq/CachingQueue.cs:156-178 | loads at most one batch of cold keys, in order, behind what is in memory; a failing key is dropped and its error kept |
| CachingQueues.RefillTurn | src/ServiceMq/ServiceMq/CachingQueue.cs:146-182 | one pass leaves a good queue that keeps reloading iff cold keys remain and memory is not full |
| CachingQueues.TurnConsumes | src/ServiceMq/ServiceMq/CachingQueue.cs:156-178 | across passes, every cold key consumed is either loaded or lost to a failure |
| CachingQueues.RefillTask | src/ServiceMq/ServiceMq/CachingQueue.cs:146-182 | the background refill ends with no cold keys or full memory; cold keys are used from the front; when every key loads they arrive in order |
| CachingQueues.EnqueueGood | src/ServiceMq/ServiceMq/CachingQueue.cs:92-125 | `Enqueue` and `ReEnqueue` keep the queue bounded and stocked |
| CachingQueues.DequeueGood | src/ServiceMq/ServiceMq/CachingQueue.cs:65-77 | `Dequeue` keeps the queue bounded and stocked |
| CachingQueues.DequeueNothingMeansEmpty | src/ServiceMq/ServiceMq/CachingQueue.cs:65-77 | with reorder and max at least 1 and no reload pending, `Dequeue` returns nothing iff the queue is empty |
| CachingQueues.ZeroReorderStrandsKeys | src/ServiceMq/ServiceMq/CachingQueue.cs:138-144 | with reorder 0, a queue holding one cold key dequeues nothing and starts no reload |
| InboundQueues.Hydrate | src/ServiceMq/ServiceMq/InboundQueue.cs:35-39 | at most one message per listed file; each message names a listed file that is on disk |
| InboundQueues.HydrateDistinct | src/ServiceMq/ServiceMq/InboundQueue.cs:35-39 | distinct files give messages with distinct file names |
| InboundQueues.Open | src/ServiceMq/ServiceMq/InboundQueue.cs:21-42 | the queue starts signaled iff the listing is non-empty, with counter 0 |
| InboundQueues.OpenGood | src/ServiceMq/ServiceMq/InboundQueue.cs:21-42 | a freshly opened queue is good: signaled when non-empty, every file on disk, file names distinct |
| InboundQueues.SortDistinct | src/ServiceMq/ServiceMq/InboundQueue.cs:34 | sorting keeps distinct names distinct |
| InboundQueues.PathFor | src/ServiceMq/ServiceMq/InboundQueue.cs:50-57 | fails iff the sender is null or has no file-name form |
| InboundQueues.Enqueue | src/ServiceMq/ServiceMq/InboundQueue.cs:44-71 | fails iff the path fails, before anything is written; otherwise the record is written, the message is appended with its file name, the counter advances and the queue is signaled |
| InboundQueues.EnqueueGood | src/ServiceMq/ServiceMq/InboundQueue.cs:44-71 | enqueueing under a fresh file name keeps the queue good |
| InboundQueues.EnqueueDurable | src/ServiceMq/ServiceMq/InboundQueue.cs:57-61 | the written file reads back as the stored message |
| InboundQueues.EnqueueNameStamp | src/ServiceMq/ServiceMq/InboundQueue.cs:52-55 | the file name starts with the 24-hour sent stamp, then between dashes the counter padded to four digits, which reads back as the counter; every counter below 10000 takes exactly four digits |
| InboundQueues.LogRead | src/ServiceMq/ServiceMq/InboundQueue.cs:111-118 | the hour's read log gains the record line and a newline, every other surviving file is unchanged, the message file is deleted; throws iff the file name is null; the queue is unchanged |
| InboundQueues.ReceiveStep | src/ServiceMq/ServiceMq/InboundQueue.cs:73-107 | unsignaled times out; signaled and empty resets the signal; otherwise the head is handed out |
| InboundQueues.Receive | src/ServiceMq/ServiceMq/InboundQueue.cs:73-107 | unsignaled gives null and changes nothing; signaled and empty resets the signal and gives null; otherwise the head is removed and returned, or its missing file name throws |
| InboundQueues.ReceiveStepGood | src/ServiceMq/ServiceMq/InboundQueue.cs:73-107 | a step keeps the queue good and never throws |
| InboundQueues.ReceiveFifo | src/ServiceMq/ServiceMq/InboundQueue.cs:73-107 | on a good queue, `Receive` gives null iff the queue is empty and otherwise the oldest message, which it removes |
| InboundQueues.EnqueueThenReceive | src/ServiceMq/ServiceMq/InboundQueue.cs:44-107 | into an empty queue, the message enqueued is the one received |
| OutboundQueues.Lookup | src/ServiceMq/ServiceMq/OutboundQueue.cs:151 | a retry queue is missing iff no entry has the key |
| OutboundQueues.Store | src/ServiceMq/ServiceMq/OutboundQueue.cs:189-193 | the key then maps to the new queue; a new key adds one entry |
| OutboundQueues.StoreIds | src/ServiceMq/ServiceMq/OutboundQueue.cs:189-193 | replacing a queue swaps exactly its identifiers |
| OutboundQueues.RetryDequeue | src/ServiceMq/ServiceMq/OutboundQueue.cs:142 | succeeds iff the key's queue is non-empty, and returns its head |
| OutboundQueues.DequeueIds | src/ServiceMq/ServiceMq/OutboundQueue.cs:178 | a retry dequeue removes exactly the head's identifier |
| OutboundQueues.ReplaceHeadIds | src/ServiceMq/ServiceMq/OutboundQueue.cs:172-173 | stamping a retry head in place changes no identifier |
| OutboundQueues.DestOf | src/ServiceMq/ServiceMq/OutboundQueue.cs:150 | the destination key exists iff there is a destination that is a pipe or has an IP |
| OutboundQueues.Hydrate | src/ServiceMq/ServiceMq/OutboundQueue.cs:47-57 | at most one message per listed file, and every message read back is sendable |
| OutboundQueues.Open | src/ServiceMq/ServiceMq/OutboundQueue.cs:32-58 | the queue starts signaled iff the listing is non-empty, with no retries and counter 0, and is good |
| OutboundQueues.PathFor | src/ServiceMq/ServiceMq/OutboundQueue.cs:73-80 | a path exists iff the destination key does |
| OutboundQueues.Enqueue | src/ServiceMq/ServiceMq/OutboundQueue.cs:67-94 | fails iff the destination is unusable; otherwise the line is written, the message is appended with its file name, the retries are untouched, the counter advances and the queue is signaled |
| OutboundQueues.EnqueueGood | src/ServiceMq/ServiceMq/OutboundQueue.cs:67-94 | enqueueing keeps the queue good and adds exactly the message's identifier |
| OutboundQueues.EnqueueDurable | src/ServiceMq/ServiceMq/OutboundQueue.cs:80-84 | the written file reads back as the message, with the sent hour folded onto the morning |
| OutboundQueues.ChannelFor | src/ServiceMq/ServiceMq/OutboundQueue.cs:208-216 | a pipe when the destination allows it, a socket otherwise; fails only without a destination, or for Both without a sender |
| OutboundQueues.SendMessage | src/ServiceMq/ServiceMq/OutboundQueue.cs:201-269 | success means a channel, a sender and a delivery that did not fail |
| OutboundQueues.Viable | src/ServiceMq/ServiceMq/OutboundQueue.cs:131-132 | a retry is due when it has fewer attempts than the (fractional) seconds elapsed since its last attempt, compared exactly in ticks; OutboundQueues.ScanFindsQueue states its use |
| OutboundQueues.Stamp | src/ServiceMq/ServiceMq/OutboundQueue.cs:172-173 | records the attempt time and count and keeps identity, file, addresses and sent time |
| OutboundQueues.ScanFrom | src/ServiceMq/ServiceMq/OutboundQueue.cs:123-139 | the chosen key is the starting key or a retry queue whose head is due |
| OutboundQueues.ScanKeepsKey | src/ServiceMq/ServiceMq/OutboundQueue.cs:121-139 | when no non-empty queue has a due head attempted strictly before the running oldest time, the scan keeps its starting key |
| OutboundQueues.EligibleTail | src/ServiceMq/ServiceMq/OutboundQueue.cs:123-139 | the scan's eligibility test and head time of a queue do not depend on the queues before it |
| OutboundQueues.EligibleBehindHead | src/ServiceMq/ServiceMq/OutboundQueue.cs:128-136 | once an eligible queue lowers `oldest` to its head's time, a later queue stays eligible iff it was eligible and its head is strictly older |
| OutboundQueues.SelectedSkip | src/ServiceMq/ServiceMq/OutboundQueue.cs:125-138 | a queue that fails the test does not change which later queue is picked |
| OutboundQueues.SelectedBehindHead | src/ServiceMq/ServiceMq/OutboundQueue.cs:128-136 | a later queue strictly older than an eligible earlier one, and picked among the rest, is the pick of the whole scan |
| OutboundQueues.SelectedHead | src/ServiceMq/ServiceMq/OutboundQueue.cs:128-136 | an eligible queue that no later queue strictly beats is the pick, so the first wins a tie |
| OutboundQueues.ScanSelects | src/ServiceMq/ServiceMq/OutboundQueue.cs:121-139 | the selection rule: with no eligible queue the starting key stays; otherwise the result is the key of the eligible queue whose head was attempted earliest, the first such on a tie |
| OutboundQueues.ScanFindsQueue | src/ServiceMq/ServiceMq/OutboundQueue.cs:121-139 | a key chosen by the scan names a present queue whose head is due |
| OutboundQueues.TryBlock | src/ServiceMq/ServiceMq/OutboundQueue.cs:174-179 | a failed delivery changes nothing and passes the exception on |
| OutboundQueues.TryBlockFacts | src/ServiceMq/ServiceMq/OutboundQueue.cs:174-179 | a failed delivery changes nothing; a delivered message's file is deleted, and its retry queue is dequeued when it came from one |
| OutboundQueues.Catch | src/ServiceMq/ServiceMq/OutboundQueue.cs:180-195 | dead-letters iff more than 24 hours separate the sent time and the attempt; otherwise a regular message joins the back of its retry queue and a retry is left as is |
| OutboundQueues.Settle | src/ServiceMq/ServiceMq/OutboundQueue.cs:174-195 | the outcome is sent, kept, dead-lettered or a crash; the 24-hour rule decides between kept and dead-lettered |
| OutboundQueues.Attempt | src/ServiceMq/ServiceMq/OutboundQueue.cs:172-195 | the stamped message is what is sent, kept or dead-lettered, with the 24-hour rule measured at the attempt time |
| OutboundQueues.Regular | src/ServiceMq/ServiceMq/OutboundQueue.cs:150-196 | a message without a usable destination crashes the step; one whose destination already has retries joins the back of that retry queue; the 24-hour rule decides kept or dead-lettered |
| OutboundQueues.FromRetry | src/ServiceMq/ServiceMq/OutboundQueue.cs:140-196 | a retry attempt is sent, kept, dead-lettered or a crash, by the 24-hour rule |
| OutboundQueues.StepWith | src/ServiceMq/ServiceMq/OutboundQueue.cs:96-199 | unsignaled blocks; a regular message is taken from the front; an empty queue resets the signal; idle when the scan picks no key, which also happens when the oldest due retry queue is keyed `""` |
| OutboundQueues.SendStep | src/ServiceMq/ServiceMq/OutboundQueue.cs:96-199 | the send loop as written: unsignaled blocks, and the 24-hour rule decides kept or dead-lettered |
| OutboundQueues.SendStepCorrected | src/ServiceMq/ServiceMq/OutboundQueue.cs:96-199 | the send loop with the scan peeking instead of dequeuing, with the same guarantees |
| OutboundQueues.SettleConserves | src/ServiceMq/ServiceMq/OutboundQueue.cs:174-195 | settling keeps every retry queue keyed by its destination and removes exactly the identifier sent or dead-lettered |
| OutboundQueues.AttemptConserves | src/ServiceMq/ServiceMq/OutboundQueue.cs:172-195 | the same for a stamped attempt |
| OutboundQueues.RegularConserves | src/ServiceMq/ServiceMq/OutboundQueue.cs:150-196 | the same for a regular message, counting the diverted and kept ones as still held |
| OutboundQueues.DivertConserves | src/ServiceMq/ServiceMq/OutboundQueue.cs:151-166 | a diverted regular message joins its destination's retry queue and no identifier is lost |
| OutboundQueues.FromRetryConserves | src/ServiceMq/ServiceMq/OutboundQueue.cs:140-196 | with a peeking scan, a retry attempt removes exactly the identifier sent or dead-lettered |
| OutboundQueues.CorrectedStepConserves | src/ServiceMq/ServiceMq/OutboundQueue.cs:96-199 | the corrected step keeps the queue good and never crashes; sent or dead-lettered removes exactly that identifier; otherwise the identifiers are unchanged |
| OutboundQueues.RegularStepConserves | src/ServiceMq/ServiceMq/OutboundQueue.cs:102-197 | a step on a regular message keeps every identifier not sent or dead-lettered |
| OutboundQueues.ScanPath | src/ServiceMq/ServiceMq/OutboundQueue.cs:118-145 | with no regular message and one due retry queue, both versions attempt that queue's head |
| OutboundQueues.SettleRetrySent | src/ServiceMq/ServiceMq/OutboundQueue.cs:174-179 | a delivered retry is logged, its file removed, and its queue dequeued once more |
| OutboundQueues.ScanSuccessDropsNext | src/ServiceMq/ServiceMq/OutboundQueue.cs:142-178 | as written, a successful retry also drops the next message in its queue while that message's file stays on disk |
| OutboundQueues.ScanSuccessKeepsNext | src/ServiceMq/ServiceMq/OutboundQueue.cs:140-179 | corrected, the next message stays at the head of the queue |
| OutboundQueues.ScanFailureForgets | src/ServiceMq/ServiceMq/OutboundQueue.cs:140-195 | as written, a retry that fails again inside 24 hours leaves every queue, its file stays on disk, and the queue forgets it; corrected, it stays queued |
| OutboundQueues.RetriesWaitForEnqueue | src/ServiceMq/ServiceMq/OutboundQueue.cs:102-115 | after a turn with no regular message the signal is reset, so the next turn blocks whatever retries are due |
| OutboundQueues.RegularInOrder | src/ServiceMq/ServiceMq/OutboundQueue.cs:102-179 | when its destination has no retries, the oldest regular message is the one attempted |
| MessageServices.Build | src/ServiceMq/MessageService.cs:30-40 | the inbound message records its sender and has no file yet |
| MessageServices.Accept | src/ServiceMq/MessageService.cs:23-42 | a null sender throws; success reports the payload length |
| MessageServices.EnqueueString | src/ServiceMq/MessageService.cs:23-42 | null or blank text is ignored and reports 0 (the .NET 3.5 build only ignores empty); otherwise exactly one message is appended, with the given identifier, times, attempt, type and text, and its `Length` in UTF-16 code units, which is positive, is reported |
| MessageServices.EnqueueBytes | src/ServiceMq/MessageService.cs:44-59 | null or empty bytes are ignored and report 0; otherwise the message is enqueued and its length reported |
| MessageServices.EnqueueMessageText | src/ServiceMq/ServiceMq/MessageService.cs:23-37 | the older text endpoint: null or blank text is ignored and reports 0; otherwise one message with the text and attempt 0 is appended, and its `Length` in UTF-16 code units reported |
| MessageServices.EnqueueMessageBytes | src/ServiceMq/ServiceMq/MessageService.cs:39-53 | the older byte endpoint: empty bytes are ignored, otherwise the message is enqueued |
| MessageServices.OlderTextIsNewerAtAttemptZero | src/ServiceMq/ServiceMq/MessageService.cs:23-37 | the older text endpoint behaves as the newer one with attempt 0 |
| MessageServices.OlderBytesIsNewerAtAttemptZero | src/ServiceMq/ServiceMq/MessageService.cs:39-53 | the older byte endpoint behaves as the newer one with attempt 0 |
| MessageServices.BuildsDifferOnBlankText | src/ServiceMq/MessageService.cs:25-29 | the two builds disagree exactly on non-empty all-whitespace text |
| MessageServices.AcceptFailsOnlyOnSender | src/ServiceMq/MessageService.cs:23-59 | accepting fails iff the sender is null or unreadable; the stored message carries the parsed sender |
| MessageServices.StringThenReceive | src/ServiceMq/MessageService.cs:23-42 | text accepted into an empty queue comes out of the next `Receive` with its identifier |
| Routing.Optimal | src/ServiceMq/ServiceMq/MessageQueue.cs:351-365 | never Both; TCP iff the destination is TCP-only or a dual address on another server; a TCP route keeps the destination's server name and port and takes its IP from the DNS answer for that name, and, when the sender has an IP endpoint, fails exactly when that lookup fails; a pipe route keeps the pipe and always succeeds when the sender has a pipe endpoint; a missing endpoint of the needed kind throws `ArgumentException` with the parameter's name |
| Routing.ForQueue | src/ServiceMq/ServiceMq/MessageQueue.cs:351-365 | never Both; a pipe-only queue throws for a TCP route and a TCP-only queue for a pipe route, reporting parameter "destEndPoint" |
| Routing.ForFlash | src/ServiceMq/ServiceMq/Flash.cs:203-217 | never Both; a sender without an IP throws for a TCP route and one without a pipe for a pipe route, reporting parameter "destEndPoint" |
| Routing.ForFlasher | src/ServiceMq/ServiceMq/Flasher.cs:220-236 | the same as Flash, but reporting parameter "destAddress" |
| Routing.FlasherRoutesAsFlash | src/ServiceMq/ServiceMq/Flasher.cs:220-236 | Flasher succeeds exactly when Flash does and then picks the same address |
| Routing.QueueEndpointsMatchTransport | src/ServiceMq/ServiceMq/MessageQueue.cs:351-365 | a pipe-only queue cannot reach another server; a TCP-only queue cannot use a pipe; a queue with both endpoints always reaches a local pipe |
| Routing.RoutedIsStable | src/ServiceMq/ServiceMq/MessageQueue.cs:351-365 | a routed address makes the same TCP-or-pipe choice as the address it came from |
| Failover.Compose | src/ServiceMq/ServiceMq/Flash.cs:103-131 | the message carries the given identifier, sender and destination, zero attempts, and the payload in its slot |
| Failover.Alternates | src/ServiceMq/ServiceMq/Flash.cs:31-42 | failure is always "Alternative destination send failed"; an empty list wraps the last exception given |
| Failover.Failover | src/ServiceMq/ServiceMq/Flash.cs:22-42 | a primary success is returned; a null list rethrows the primary failure; an empty list rethrows or fails with no inner exception |
| Failover.AlternatesFindFirst | src/ServiceMq/ServiceMq/Flash.cs:31-41 | the loop returns the first alternate that succeeds, against an independent list of outcomes, or wraps the last failure |
| Failover.FirstOkAfterFailure | src/ServiceMq/ServiceMq/Flasher.cs:46-56 | behind a failed attempt, the first success is the first success of the rest, one place later |
| Failover.AlternatesThreadFirst | src/ServiceMq/ServiceMq/Flasher.cs:45-57 | with pool state threaded through the attempts, the loop returns the first alternate that succeeds in the state that attempt left, or wraps the last alternate's failure, against an independent list of trials |
| Failover.FlashSendMsg | src/ServiceMq/ServiceMq/Flash.cs:103-201 | success returns the new message's identifier |
| Failover.FlashSendObject | src/ServiceMq/ServiceMq/Flash.cs:18-43 | a routing error is thrown first; a primary success returns its id; after a primary failure a null list rethrows it wrapped, and an empty list throws "Alternative destination send failed" with no inner exception |
| Failover.FlashObjectTriesAlternates | src/ServiceMq/ServiceMq/Flash.cs:30-42 | after a primary failure, `Send<T>` returns the first alternate that succeeds, or wraps the last alternate's failure |
| Failover.FlashSend | src/ServiceMq/ServiceMq/Flash.cs:45-72 | as written: a routing error is thrown first; the alternates loop resends to the primary |
| Failover.FlashSendCorrected | src/ServiceMq/ServiceMq/Flash.cs:45-72 | corrected: the alternates loop sends to each alternate |
| Failover.FlashCorrectedTriesAlternates | src/ServiceMq/ServiceMq/Flash.cs:59-71 | after a primary failure, the corrected send returns the first alternate that succeeds or wraps the last failure |
| Failover.FlashIgnoresAlternates | src/ServiceMq/ServiceMq/Flash.cs:64 | a failing primary with a working alternate fails as written and succeeds with the correction |
| Failover.Cycle | src/ServiceMq/ServiceMq/Flasher.cs:197-217 | only the chosen pool changes: a success returns the client, a failure disposes it |
| Failover.FlasherSendMessage | src/ServiceMq/ServiceMq/Flasher.cs:148-218 | the sender is unchanged |
| Failover.FlasherPoolDiscipline | src/ServiceMq/ServiceMq/Flasher.cs:153-217 | a send touches only its destination's pool, keeps a client there on success, and loses one on failure |
| Failover.FlasherSend | src/ServiceMq/ServiceMq/Flasher.cs:60-87 | a routing error first; otherwise the primary result, or a rethrown primary failure when the alternates are null or empty |
| Failover.FlasherTriesAlternates | src/ServiceMq/ServiceMq/Flasher.cs:33-116 | after a primary failure, a Flasher send tries the alternates in order, each with the pools the previous attempt left, and returns the first success's id or throws wrapping the last alternate's failure |
| Failover.FlasherTrialOutcome | src/ServiceMq/ServiceMq/Flasher.cs:118-146 | one alternate's attempt gives its id iff the pooled send raised nothing, else that exception, and leaves the pools the send left |
| MessageQueues.Compose | src/ServiceMq/ServiceMq/MessageQueue.cs:139-147 | the outbound message carries the identifier, this queue as sender, the destination and the sent time, with no file and no attempts |
| MessageQueues.OutboundGate | src/ServiceMq/ServiceMq/MessageQueue.cs:134-138 | throws iff the outbound queue has failed |
| MessageQueues.InboundGate | src/ServiceMq/ServiceMq/MessageQueue.cs:261-265 | throws iff the inbound queue has failed |
| MessageQueues.Send | src/ServiceMq/ServiceMq/MessageQueue.cs:113-170 | a routing error is thrown before the failed-state guard; success returns the identifier and appends exactly one message to the outbound queue |
| MessageQueues.RouteAll | src/ServiceMq/ServiceMq/MessageQueue.cs:174-178 | one route per destination, or the failure of some destination |
| MessageQueues.EnqueueAppends | src/ServiceMq/ServiceMq/OutboundQueue.cs:67-94 | an outbound enqueue only appends |
| MessageQueues.EnqueueAllSucceeds | src/ServiceMq/ServiceMq/MessageQueue.cs:212-224 | the loop finishes iff every copy has a usable destination |
| MessageQueues.EnqueueAllAppends | src/ServiceMq/ServiceMq/MessageQueue.cs:212-224 | the loop only appends, one message per copy |
| MessageQueues.EnqueuedAt | src/ServiceMq/ServiceMq/MessageQueue.cs:212-224 | the i-th copy lands i places after the old end |
| MessageQueues.LoopKeepsOrder | src/ServiceMq/ServiceMq/MessageQueue.cs:212-224 | copies land in destination order |
| MessageQueues.TextFanOut | src/ServiceMq/ServiceMq/MessageQueue.cs:210-222 | one copy per destination, all with the same identifier and time |
| MessageQueues.BytesFanOut | src/ServiceMq/ServiceMq/MessageQueue.cs:237-247 | one copy per destination, each with its own identifier and time |
| MessageQueues.TextFanOutExtends | src/ServiceMq/ServiceMq/MessageQueue.cs:210-224 | the queue grows by exactly the text copies, in order |
| MessageQueues.BytesFanOutExtends | src/ServiceMq/ServiceMq/MessageQueue.cs:235-249 | the queue grows by exactly the byte copies, in order |
| MessageQueues.BroadcastText | src/ServiceMq/ServiceMq/MessageQueue.cs:183-226 | returns the shared identifier; a routing failure or failed queue changes nothing |
| MessageQueues.BroadcastBytes | src/ServiceMq/ServiceMq/MessageQueue.cs:193-251 | returns the identifier made first; a routing failure or failed queue changes nothing |
| MessageQueues.BroadcastTextSharesId | src/ServiceMq/ServiceMq/MessageQueue.cs:210-225 | every text copy carries the returned identifier and one time, in destination order |
| MessageQueues.BroadcastBytesIdUnattached | src/ServiceMq/ServiceMq/MessageQueue.cs:235-250 | the returned identifier is on none of the byte copies |
| MessageQueues.RoutedHasFingerprint | src/ServiceMq/ServiceMq/MessageQueue.cs:351-365 | a routed destination always gives a usable outbound file name |
| MessageQueues.Receive | src/ServiceMq/ServiceMq/MessageQueue.cs:259-267 | a failed inbound queue throws; the outbound side is untouched |
| MessageQueues.ReceiveInOrder | src/ServiceMq/ServiceMq/MessageQueue.cs:259-267 | a running queue returns and removes its oldest message |
| MessageQueues.FailedSendChangesNothing | src/ServiceMq/ServiceMq/MessageQueue.cs:134-138 | with a failed outbound queue every send throws and a broadcast changes nothing |

## Left out

- Threads, locks, wait handles and timeouts. Each send or receive is one step of a pure function. `WaitOne` is the queue's `signaled` flag, and a timeout is the unsignaled case.
- The send thread starting before hydration (OutboundQueue.cs:44 against 47-57). The model hydrates first.
- `CachingQueues.Dequeue`: it sets the reloading flag when the refill check fires. The source sets that flag inside the background task (CachingQueue.cs:151). The refill itself is `CachingQueues.RefillTask`, run to completion.
- The clock is one `DateTime` parameter per call. The source reads `DateTime.Now` several times in one step: the scan's `oldest` (OutboundQueue.cs:122), the log-file stems, and `FastFile`'s `lastDeleted`.
- `TimeSpan.TotalSeconds` and `TotalHours` are doubles in the source. The model compares exact tick counts, so rounding at the boundaries is not modelled.
- Network details: channel factories, bindings and the 250 ms send timeout (OutboundQueue.cs:241-250), and Flash/Flasher connect timeouts. Delivery is a `Deliver` function parameter that fails or succeeds.
- DNS lookups are a `Resolver` parameter. The Win32 delete result is a `Refusal` parameter. Win32Utils.cs is not part of this model.
- `TypeSerializer`: the serialized text is an input, and `To<T>` takes the deserializer as a parameter.
- `OutboundQueue.Stop`, `TrimExcess`, `Dispose`, `MessageQueue.ClearState`, the count properties, and the host setup in the `MessageQueue` constructor, including `Directory.CreateDirectory`.
- `MessageQueue.ReceiveBulk`, `Accept`, `AcceptBulk`, `Acknowledge` and `ReEnqueue`: only their failed-state guard (`MessageQueues.InboundGate`) is modelled, because the `InboundQueue` methods they call are not part of this model.
- `Message.ToLine` is not defined in Message.cs. `InboundQueue` is modelled as writing and logging the `ToString` record line.
- `FileText.GetHashCode`: a reference hash with nothing to state.
- Flash/Flasher: a null element inside the alternates array, and a null `from`. The Flasher connection pool is modelled as a count of idle clients per key, not the `PooledDictionary` internals.
- Addresses.ParseTransport: accepts exactly the three member names. `Enum.Parse` also accepts numbers, comma lists and surrounding spaces, which no printed address contains.
- Text.ParseInt32: accepts one optional sign character (`-` or `+`) followed by decimal digits only. `Convert.ToInt32` also allows surrounding white space and culture-specific forms, which no printed record contains.
- Base64.Decode: rejects white space inside the text, which `Convert.FromBase64String` skips. `ToBase64String` never emits it.
- Guids.Parse: accepts only the hyphenated "D" form that `Guid.ToString()` prints. `Guid.Parse` also accepts the braced, parenthesised and plain forms.
- Sorting.Sort: uses ordinal order. `List<string>.Sort()` uses the current culture. They agree on the digit-led file names the queues write, but not in general.
- Exception texts are kept where the source states them. Framework exceptions are reduced to their kind. For example, `Addresses.FromString` keeps its message but not its parameter name.
- `MessageQueues`' `outState` and `inState` are free fields of the model. OutboundQueue.cs and InboundQueue.cs as shown have no `State` member, although MessageQueue.cs reads `State` and `StateException` at lines 134-137 and 261-264.
- `MessageServices.EnqueueString` and `EnqueueMessageText` return the UTF-16 length as an unbounded number; a text longer than `Int32.MaxValue` units cannot reach them.
- A retry queue keyed by the empty string. The source uses `string.Empty` as "no key" (OutboundQueue.cs:121, 140), so such a queue, when it is the oldest due one, leaves the step idle. The model does the same. `Addresses.ToFileNameString` yields that key only for a named-pipe address with an empty pipe name.
- `FastFiles.DeleteAll` runs the flush at once. The source starts it on a task (FastFile.cs:92-95).

## Findings

| source | as written | input that shows it | evidently intended | confidence | as-written member | corrected member |
|---|---|---|---|---|---|---|
| src/ServiceMq/ServiceMq/OutboundQueue.cs:142 | when no regular message is waiting, the scan dequeues the chosen retry at 142. A success dequeues the same queue again at 178, and a failure inside 24 hours is never put back (the re-add at 189-193 is only for regular messages) | no regular message and one due retry queue `[m1, m2]` whose send succeeds: `m2` leaves memory while its file stays in `out`. One due retry queue `[m1]` whose send fails within 24 hours: `m1` is forgotten while its file stays | the scan peeks, so the second dequeue removes the message just sent and a failed retry stays at the head of its queue | high, not executed | OutboundQueues.ScanSuccessDropsNext, OutboundQueues.ScanFailureForgets | OutboundQueues.SendStepCorrected, OutboundQueues.CorrectedStepConserves, OutboundQueues.ScanSuccessKeepsNext |
| src/ServiceMq/ServiceMq/OutboundMessage.cs:12 | the outbound record and file-name stamps use "yyyyMMddhhmmssfff", a 12-hour clock with no AM/PM designator | a message sent at 15:30 is reread after a restart as sent at 03:30. Hydration order and the 24-hour dead-letter rule then use the wrong time | "HH", as `Message` uses, so the sent time survives the round trip | high, not executed | OutboundMessages.RoundTrip, DateTimes.TwelveHourLosesAfternoon | OutboundMessages.RoundTripWith24HourStamp |
| src/ServiceMq/ServiceMq/Flash.cs:64 | the alternates loop of `Flash.Send` (and of `SendBytes` at line 93) resends to `addr`, the primary, instead of `alt` | a primary that refuses the message and one alternate that accepts it: the send throws "Alternative destination send failed" | send to each alternate in turn, as `Flash.Send<T>` and `Flasher` do | high, not executed | Failover.FlashSend, Failover.FlashIgnoresAlternates | Failover.FlashSendCorrected, Failover.FlashCorrectedTriesAlternates |
