# fm350-monitor: verified models of the modem daemon

A Dafny project that models the self-contained cores of a Go daemon for the FM350 5G modem and proves
what they are for, over all inputs and whole runs.

| file | models |
|---|---|
| `Text`, `Sequences` | the string operations of the Go library that the daemon relies on; newest-N of a sequence |
| `Utf16`, `SmsSegments`, `SmsPdu`, `SmsSend` | multipart SMS: UTF-16, segmentation, the SMS-SUBMIT PDU with a decoder for it, the dialogue |
| `SerialRead`, `UrcQueue` | reading an answer from the port; notifications taken out of it |
| `SmsListing`, `SmsInbox`, `SmsCuts` | printing and parsing `+CMGL` listings; `ListSMS` from the port to the messages; inboxes that no cut of the answer can spoil |
| `SmsGuard`, `SmsRate` | the rate limiter and the idempotency table; when a minute stays within the documented limit |
| `TieredCache` | the three-rate poll cache with its setters and bearer operations |
| `AtGate`, `AtOperations` | the lock discipline around the AT port, as interleaved steps; the service's operations as programs |
| `Recovery` | fail streak, rediscovery timer and reset cooldown |
| `Ipv4`, `PdpConfig`, `RndisConfig` | IPv4 texts and masks; the modem-reported configuration; connecting RNDIS |
| `WanEndpoints`, `WanService` | node ownership and selection; the WAN facade with rollback and overrides |
| `HotspotDhcp`, `Hotspot` | the DHCP pool and dnsmasq file; the lifecycle of the access point |
| `SseHub`, `InventoryCache`, `HistoryRing` | fan-out of frames; the single-flight cache; the sample ring and its file |

Conventions. Time is an integer clock that never goes back. Serial, process, file and network calls appear
as their outcomes in parameters; what they do to modem or host is recorded in fields, often ghost ones, or
in a trace. A class keeps the fields of the Go type; its `Valid()` ties them to a log, a trace or a
specification value, and lemmas prove the promises about that value. `Drive` methods run a class through any
sequence of events. Go text is a sequence of Unicode scalar values; white space, decimal numbers, IPv4 texts
and CSV rows are written out as small specifications. Reader locks are taken as exclusive ones.

Where the code and its documentation part, the model follows the code:

- `docs/sms.md:31` speaks of 10 submissions per minute. That holds for the limiter's own windows; another
  minute can see 19 and never more (`SmsGuard.Burst`, `SmsRate.AdmissionsPerMinute`). `SmsRate.Drive` says
  exactly when every minute stays within ten: no request is admitted while the last two windows have ten
  admissions of the past minute.
- The page's segment count is a lower bound for multipart bodies. `SmsSegments.EstimateExact` says, of the body
  alone, when it is exact; for 67 emoji it is not (`SmsSegments.EstimateCanFallShort`).
- `docs/architecture.md:69` has the service mutex free across AT I/O. No thread is at the port while it holds
  it (`AtGate.NoServiceAtPort`); but a listing waits under it for the client's mutex, so it can stay taken, and
  every reader of the status wait, for as long as a serial exchange takes (`AtOperations.ReaderWaitsForPort`).
- The comment on `GenerateDnsmasqConf` promises a safe derived pool. It is one exactly if the network address
  plus 200 stays below 2^32 (`HotspotDhcp.DerivedExact`, `HotspotDhcp.WrappedPool`).
- A session can stay on show when it is no longer real: after a connect that reaches the modem, fails and is
  rolled back (`WanService.ConnectedTwice`), and after a USB reset, by request or by the poller, or a change of
  USB mode of the device that carries it (`WanService.ResetWhileConnected`). `WanService.Loses` is exactly that.
- A session is shown with the name servers that the modem reported even where setting them on the host failed
  (the exact condition is in `WanService.WanService.ConnectEndpoint`).
- A hotspot start that fails on its files leaves the LAN address on the interface, and the next start there
  is refused (`Hotspot.FailedFilesBlockTheNextStart`).
- A single message of printable ASCII is sent in the GSM character set. Twelve of these characters, such as `$`
  and `@`, are others there (section 6.2.1 of 3GPP TS 23.038), so a body with one of them does not arrive as it was
  written (`SmsSend.GsmAlphabetExact`).
- On a host with hotspot rules or a table left over from an earlier daemon, a start that fails, or an nft
  session, takes them along (`Hotspot.Drive` says exactly when).
- Address queries of the control paths keep operator and temperature from being asked
  (`TieredCache.TieredClient.GetFullStatus`, `TieredCache.StarveOperator`).
- A gateway reported with a sign or a leading zero counts as usable, and is then refused on the host
  (`PdpConfig.LooseGateway`).
- An SMS listing depends on the texts stored. A body that looks like a notification loses its line
  (`SmsListing.SwallowedBody`); one that starts with `+CMS ERROR:` turns the whole listing into an error
  (`SmsInbox.CmsBodyFailsAll`); one with a stop word such as `OK`, at the end of a read, cuts the listing short
  (`SmsInbox.OkBodyCutsShort`). `SmsCuts.EveryCut` is the exact condition on the stored messages,
  `SmsInbox.ListedAndConsumed` that for a given cut.

## Model

| member | source | states |
|---|---|---|
| Utf16.DecodeEncode | internal/repository/at_sms.go:105-112 | decoding the UTF-16 units of any text gives the text back |
| Utf16.Ucs2RoundTrip | internal/repository/at_sms.go:105-112 | the big-endian octets of a text read back as that text |
| Utf16.Ucs2Bytes | internal/repository/at_sms.go:105-112 | the loop writes every code unit, high octet first |
| SmsSegments.SplitUCS2Units | internal/repository/at_sms.go:82-103 | pieces concatenate to the body, are nonempty, never split a surrogate pair, fit the limit, and none could have taken the next character |
| SmsSegments.GreedyStaysAhead | internal/repository/at_sms.go:82-103 | against any other split, even one given a head start, the greedy one never needs more pieces |
| SmsSegments.GreedyIsOptimal | internal/repository/at_sms.go:82-103 | no split into pieces that fit is shorter |
| SmsSegments.UnitAccounting | internal/repository/at_sms.go:82-103 | every piece but the last is full or one unit short, and short only before a supplementary character |
| SmsSegments.SegmentCount | internal/repository/at_sms.go:80-103 | the count lies between ceil(U/67) and ceil(U/66), and is the former exactly if the last piece exceeds the units lost |
| SmsSegments.CountFromText | internal/repository/at_sms.go:80-103 | the count is ceil((U + b)/67), b being the boundaries that fall inside a surrogate pair when code units are counted off in sixty-sevens |
| SmsSegments.EstimateIsLowerBound | internal/template/assets/features/sms/sms.js:6-13 | for multipart bodies the page's count never exceeds the real one, equals it exactly under the condition of `SegmentCount`, and always without supplementary characters |
| SmsSegments.EstimateExact | internal/template/assets/features/sms/sms.js:6-13 | it equals the real one exactly if those boundaries need no further segment: a condition on the body alone |
| SmsSegments.EstimateCanFallShort | internal/template/assets/features/sms/sms.js:6-13 | 67 emoji are predicted as 2 segments and sent as 3 |
| SmsSegments.MultipartCount | internal/repository/at_sms.go:256-275 | a multipart body of at most 1000 characters takes 2 to 31 segments |
| SmsSegments.DetectEncoding | internal/repository/at_sms.go:54-61 | a body is GSM text exactly if all its characters are printable ASCII |
| SmsSegments.OneMessageExact | internal/repository/at_sms.go:256-260 | it is one message exactly up to 160 characters of such text, or 70 code units of any other |
| SmsPdu.HexRoundTrip | internal/repository/at_sms.go:114-116 | hexadecimal text decodes to the octets it was made from |
| SmsPdu.AddressRoundTrip | internal/repository/at_sms.go:118-143 | swapped semi-octets with their filler read back as the digits |
| SmsPdu.PackDigits | internal/repository/at_sms.go:134-141 | the loop over digit pairs writes the semi-octets of the specification |
| SmsPdu.SemiOctetAddress | internal/repository/at_sms.go:118-143 | digits, type of address and octets, refusing exactly empty or non-digit numbers |
| SmsPdu.BuildConcatUCS2Pdu | internal/repository/at_sms.go:147-173 | the three errors occur exactly on their causes; any other PDU decodes to number, type, reference, total, sequence and text, and announces its octets less one |
| SmsSend.ConsecutiveReferences | internal/repository/at_sms.go:277-280 | two consecutive messages share a reference exactly if the counter is a multiple of 256; it is the counter modulo 256 except there, where it is one |
| SmsSend.ReassembleSegments | internal/repository/at_sms.go:281-291 | a receiver of all segments in order gets number, type of address, reference and body |
| SmsSend.EncodeSegment | internal/repository/at_sms.go:281-285 | for an accepted number no guard fires, and the PDU reads back as the segment |
| SmsSend.SubmitSegments | internal/repository/at_sms.go:281-296 | what was submitted is a prefix of the segments, ended only by a refusal of the modem |
| SmsSend.SendMultipart | internal/repository/at_sms.go:256-296 | no guard rejects a body of at most 1000 characters; a complete run reassembles to number, type and body |
| SmsSend.SendSMS | internal/repository/at_sms.go:245-327 | rejection exactly for bad numbers and blank bodies; printable ASCII of up to 160 characters goes out as GSM text, another body of up to 70 code units in hexadecimal, each as one submission that reads back, and any other body as PDUs that reassemble; a modem that accepts everything gets everything not rejected |
| SmsSend.EncodeText | internal/repository/at_sms.go:298-306 | the one submission reads back as number and body, where the GSM reader refuses all but printable ASCII |
| SmsSend.SmsNumberExact | internal/repository/at_sms.go:25 | the numbers accepted are five to twenty digits with or without a plus |
| SmsSend.GsmAlphabetExact | internal/repository/at_sms.go:298-306 | by the alphabet that `AT+CSCS="GSM"` names, such a body arrives as written exactly if it has none of twelve characters |
| UrcQueue.Queue.Push | internal/repository/at_urc.go:43-49 | the queue holds the newest 128 of the notifications seen |
| UrcQueue.Queue.StoreAndStrip | internal/repository/at_urc.go:38-55 | notifications are appended in order; the response keeps the other lines |
| UrcQueue.Queue.Drain | internal/repository/at_urc.go:57-64 | delivers the newest 128 seen since the last drain, and empties the queue |
| UrcQueue.StripConserves | internal/repository/at_urc.go:38-55 | the nonblank lines of a stripped response are, in order, those of the raw one that are no notifications; the rest are the notifications |
| UrcQueue.StrippedHasNoUrc | internal/repository/at_urc.go:28-55 | no line of a stripped response is a notification |
| UrcQueue.UrcExact | internal/repository/at_urc.go:28-33 | a line is a notification exactly if one of the three result codes follows its leading white space |
| UrcQueue.Drive | internal/repository/at_urc.go:38-64 | over any sequence of responses and drains, each drain delivers the newest 128 pending |
| SmsListing.SplitCsvQuoted | internal/repository/at_sms.go:463-485 | the loop with its quoted flag yields the trimmed fields, commas inside quotes kept |
| SmsListing.ParseCmgl | internal/repository/at_sms.go:399-418 | header and body lines are paired as the specification pairs them |
| SmsListing.HeaderRoundTrip | internal/repository/at_sms.go:440-461 | a printed header parses to index, status, address and timestamp |
| SmsListing.CutHeader | internal/repository/at_sms.go:440-461 | a header that ends before its timestamp is a message without one; one that ends earlier is none |
| SmsListing.SpacedMessage | internal/repository/at_sms.go:399-418 | white space around a header or a body is no part of the message |
| SmsListing.ListingRoundTrip | internal/repository/at_sms.go:399-418 | a printed list of messages parses to the same list, even with bodies that start with `+CMGL:` |
| SmsListing.ParsePrinted | internal/repository/at_sms.go:399-418 | the same for the whole response text with line ends and final OK |
| SmsListing.FilteredListing | internal/repository/at_urc.go:38-55 | the notification filter leaves a listing alone if no body looks like one |
| SmsListing.SwallowedBody | internal/repository/at_urc.go:38-55 | a body that looks like one is removed, and whatever follows, the listing no longer reads as the messages stored |
| SmsListing.FilteredResponse | internal/repository/at_urc.go:38-55 | filter, then parser: the messages of a whole response come out exactly if no body looks like a notification |
| SerialRead.ReadAnswer | internal/repository/at_client.go:142-167 | the loop takes reads up to the first that fails or completes a stop word; an error exactly if nothing was read |
| SerialRead.SendRaw | internal/repository/at_client.go:124-170 | the text read comes back without its notifications, which are queued |
| SerialRead.ReadToTheEnd | internal/repository/at_client.go:147-161 | a prefix of the answer is read, and all of it exactly if nothing follows where a read fails or a stop word is complete; empty reads end nothing |
| SerialRead.StopExact | internal/repository/at_client.go:151-153 | an answer ends with either of two words: the third contains one of them |
| SmsInbox.ParseCmsError | internal/repository/at_sms.go:41-52 | the first line that starts with `+CMS ERROR:` is the error |
| SmsInbox.CmsAnswer | internal/repository/at_sms.go:41-52 | an answer that is just a modem error fails with its number |
| SmsInbox.ListSms | internal/repository/at_sms.go:179-199 | not listed without port, text mode or answer; otherwise what was read decides |
| SmsInbox.CmsOfStripped | internal/repository/at_sms.go:188-193 | the filter neither hides nor makes a modem error |
| SmsInbox.InboxExactly | internal/repository/at_sms.go:179-199 | of any part of an answer that was read, the stored messages are listed exactly if no body looks like a notification or a modem error and the last message has arrived |
| SmsInbox.ListedAndConsumed | internal/repository/at_client.go:142-169 | however the port cuts the answer, with empty and failing reads, the listing is right exactly if no body looks like a notification or a modem error and the last message was read, and nothing of it stays on the port exactly if no read fails or completes a stop word before the end |
| SmsCuts.QuietExact | internal/repository/at_client.go:151-153 | every prefix of the answer that a stop word can end has the last message, exactly if no stop word stands before the end of the last body or, where that is empty, before its header reads as it does |
| SmsCuts.EveryCut | internal/repository/at_sms.go:179-199 | an inbox is listed right however a port that does not fail cuts the answer, exactly if no body looks like a notification or a modem error and no stop word stands that early: a condition on the stored messages alone |
| SmsInbox.CmsBodyFailsAll | internal/repository/at_sms.go:188-193 | one stored body that starts with `+CMS ERROR:` makes the whole listing fail |
| SmsInbox.OkBodyCutsShort | internal/repository/at_client.go:147-154 | a first body with `OK` at the end of a read: every other message is lost and stays on the port |
| SmsGuard.Guard.Expire | internal/usecase/sms.go:135-139 | the loop drops exactly the entries older than ten minutes |
| SmsGuard.Guard.TakeSlot | internal/usecase/sms.go:146-154 | admits into the open window if it holds fewer than ten, or opens the next |
| SmsGuard.Guard.Begin | internal/usecase/sms.go:132-155 | a success recorded under the key in the last ten minutes is returned, using no quota; otherwise the limiter decides |
| SmsGuard.Guard.Finish | internal/usecase/sms.go:170-174 | a success is recorded under a nonempty key, a failure never |
| SmsGuard.RateBound | internal/usecase/sms.go:146-154 | windows of at most ten, each a minute after the last began, put at most 19 admissions into any minute |
| SmsRate.AdmissionsPerMinute | internal/usecase/sms.go:132-155 | in every run of the guard no minute sees more than nineteen admissions, and some minute sees more than ten exactly if two windows in a row do, counted from an admission after the first of the earlier one |
| SmsRate.OwnMinute | internal/usecase/sms.go:146-154 | the minute that begins with a window never sees more than ten |
| SmsRate.MinutesByAdmission | internal/usecase/sms.go:146-154 | every minute stays within ten exactly if every minute that ends with an admission does |
| SmsRate.Begin | internal/usecase/sms.go:132-155 | a request is refused only if the past minute had ten admissions, and an admission makes an eleventh in the minute it ends exactly if the last two windows had ten of them |
| SmsRate.Drive | internal/usecase/sms.go:132-174 | in any interleaving of requests, every minute stays within ten exactly if no request was admitted so |
| SmsGuard.Burst | internal/usecase/sms.go:146-154 | a run with 19 admissions in one minute |
| SmsGuard.SendSMS | internal/usecase/sms.go:117-176 | a repeated request within ten minutes of its recorded success reaches no modem; any other is refused exactly if the window is full |
| TieredCache.TieredClient.SetPortName | internal/repository/at_tiered.go:103-109 | a new port forgets everything cached |
| TieredCache.TieredClient.SetUSBMode | internal/repository/at_tiered.go:127-133 | an accepted mode change forgets everything cached |
| TieredCache.TieredClient.SetSettings | internal/repository/at_tiered.go:111-125 | an accepted APN or RAT change outdates the slow values |
| TieredCache.TieredClient.ActivatePDP | internal/repository/at_tiered_control.go:7-15 | after an accepted activation no earlier address query counts as fresh |
| TieredCache.TieredClient.QueryPDP | internal/repository/at_tiered_control.go:18-32 | a successful query becomes the cached session and counts as an address query, not as an operator query |
| TieredCache.TieredClient.DeactivatePDP | internal/repository/at_pdp_control.go:30-42 | after an accepted deactivation the session is forgotten and no earlier query counts |
| TieredCache.SlowIsLatest | internal/repository/at_tiered.go:258-305 | every slow value is the latest its command told since the port changed: a failed command keeps the value, and so does an empty answer for card numbers and identity |
| TieredCache.MediumIsLatest | internal/repository/at_tiered.go:225-256 | so is every medium value, among rounds, explicit queries and deactivations |
| TieredCache.OperatorIsLatest | internal/repository/at_tiered.go:225-233 | the operator is the latest one named, and unknown only if none was named on this port |
| TieredCache.TieredClient.RefreshDue | internal/repository/at_tiered.go:155-167 | after it slow queries are less than 60 s old and follow the last setter or port change; the address query is less than 10 s old and follows the last bearer operation |
| TieredCache.TieredClient.GetFullStatus | internal/repository/at_tiered.go:138-223 | every successful poll returns slow values less than 60 s old and an address less than 10 s old; it asks the port for exactly what was older, the slow values first; operator and temperature are less than 10 s old exactly if they were at entry or no address query of the last 10 s counts; unknown operator, PDP type, context and address are filled in as shown |
| TieredCache.StarveOperator | internal/repository/at_tiered_control.go:18-32 | address queries every 9 s keep the operator unasked through any number of polls, all of which succeed |
| AtGate.StepKeepsInv | internal/usecase/modem.go:108-115 | every step of every disciplined thread keeps the invariant; no store drops another thread's write |
| AtGate.MutualExclusion | docs/architecture.md:66-71 | at most one thread is at the port or the cache, and it owns the gate |
| AtGate.NoServiceAtPort | docs/architecture.md:69 | no thread is at the port while it holds the service lock |
| AtGate.FindEnabled | docs/architecture.md:66-71 | from any blocked thread the chain of lock owners ends at one that can step |
| AtGate.NoDeadlock | docs/architecture.md:66-71 | no reachable state with work left is stuck |
| AtGate.EveryRun | internal/repository/at_tiered.go:77-99 | in every interleaving the cache reflects every write in order, and a run never exceeds the work there was |
| AtGate.UngatedStoreLosesInvalidation | internal/repository/at_tiered.go:77-99 | under the cache mutex alone a store can overwrite an invalidation |
| AtOperations.CommandsReturn | internal/repository/at_client.go:118-170 | serial commands hold the client's mutex, inside it the notification queue's, and give both back |
| AtOperations.InvalidateReturns | internal/repository/at_tiered.go:89-101 | an invalidation is one gated critical section of the cache |
| AtOperations.RediscoverReturns | internal/usecase/modem.go:886-902 | a rediscovery keeps to the gate and the lock order |
| AtOperations.BuildInventoryReturns | internal/usecase/modem.go:584-664 | listing takes client and inventory mutexes inside the service lock only |
| AtOperations.RefreshReturns | internal/repository/at_tiered.go:155-167 | snapshot, commands and store run inside one gated section |
| AtOperations.OperationDisciplined | internal/usecase/modem.go:138-240 | each operation (poll, control, select, reset, USB mode, SMS, RNDIS connect, PDP deactivation), on every branch, takes locks in order and touches port and cache only inside the gate |
| AtOperations.OperationCounts | internal/repository/at_tiered.go:103-167 | each operation, on every branch, sends so many commands, stores once exactly for an answered poll, and changes the cache once for each setter, activation, session, deactivation, mode or port change that is accepted |
| AtOperations.RefreshOrder | internal/repository/at_tiered.go:155-167 | what a poll stores was asked after its snapshot |
| AtOperations.ChangeOrder | internal/repository/at_tiered.go:111-125 | a change follows the commands that the modem accepted |
| AtOperations.ConnectOrder | internal/usecase/rndis_config.go:27-44 | an activated context outdates the session before it is queried, and the answer replaces it |
| AtOperations.ServiceWrites | internal/repository/at_tiered.go:77-167 | when the work is done, the cache reflects of every thread exactly its accepted changes and its answered polls, in any interleaving |
| AtOperations.ServiceRun | internal/usecase/modem.go:441-563 | exclusion, no lost invalidation, no serial command under the service lock and freedom from deadlock in every interleaving of any number of threads of such operations |
| AtOperations.ReaderWaitsForPort | internal/usecase/modem.go:584-588 | a run in which a reader of the status waits for the service lock, whose owner waits for the client's mutex, whose owner is at the port |
| AtOperations.ServiceStarts | internal/usecase/modem.go:825-862 | the service's threads are a start the run theorem applies to |
| Recovery.ModemService.PollStatus | internal/usecase/modem.go:140-185 | one poll extends the trace by what it did, legally under the policy; a failed one rediscovers exactly as `FailureRediscovers` says |
| Recovery.ModemService.HandleAtFailure | internal/usecase/modem.go:188-240 | a failed poll without permission error rediscovers exactly if the answer was empty or the last rediscovery is at least the interval ago; a good second read then ends it well; then comes the reset check |
| Recovery.ModemService.MaybeHardReset | internal/usecase/modem.go:904-932 | resets exactly if streak, cooldown, modem and error allow it |
| Recovery.ModemService.SetUSBMode | internal/usecase/modem.go:842-848 | a mode change clears the rediscovery timer and rediscovers |
| Recovery.ResetsSpaced | internal/usecase/modem.go:904-932 | any two automatic resets are at least the cooldown apart |
| Recovery.ResetRate | internal/usecase/modem.go:904-932 | n resets take at least n - 1 cooldowns |
| Recovery.ResetNeeds | internal/usecase/modem.go:188-240 | a reset follows enough failures with no success, absent modem or reset between them, and no permission error |
| Recovery.RediscoverySpaced | internal/usecase/modem.go:188-240 | rediscoveries closer than the interval come from an empty answer or a mode change |
| Recovery.FailureRediscovers | internal/usecase/modem.go:188-240 | exactly then, once, and after it the last rediscovery is less than the interval ago |
| Recovery.RediscoveryGoesOn | internal/usecase/modem.go:209-226 | while polls fail, rediscoveries are never as much as the interval and one poll apart |
| Recovery.DeadModemIsReset | internal/usecase/modem.go:140-240 | a run of failing polls without permission errors resets the modem exactly if one of them finds the streak long enough and the cooldown over, and first at the first such one |
| Ipv4.DottedRoundTrip | internal/repository/hotspot_conf.go:125-129 | the printed address parses to the address |
| Ipv4.ParsedIsDotted | internal/repository/hotspot_conf.go:125-129 | and nothing else parses to it |
| Ipv4.MaskLengthExact | internal/repository/at_pdp_ipconfig.go:129-133 | a mask has a length exactly if its bits are contiguous, and the length expands back to it |
| Ipv4.CidrRoundTrip | internal/repository/at_pdp_ipconfig.go:134-135 | the emitted CIDR text reads as its address and prefix |
| Ipv4.SameNetwork | internal/repository/hotspot_conf.go:87-89 | being in the network is lying between its first and last address |
| PdpConfig.ParseLocal | internal/repository/at_pdp_ipconfig.go:103-136 | both forms of local address, with the loop over octets, yield the canonical CIDR of the specification or fail |
| PdpConfig.EightOctetsExact | internal/repository/at_pdp_ipconfig.go:117-135 | a printed address and mask is accepted exactly if the mask is contiguous; the text emitted reads as that address with a prefix that expands to the mask |
| PdpConfig.EightFieldsExact | internal/repository/at_pdp_ipconfig.go:117-135 | the same of any eight octets, signs and leading zeros included |
| PdpConfig.LocalOfCidr | internal/repository/at_pdp_ipconfig.go:103-116 | an address with a prefix says what it says |
| PdpConfig.CsvRoundTrip | internal/repository/at_pdp_ipconfig.go:52-54 | a row of quoted and bare fields reads back as its fields |
| PdpConfig.ReadRow | internal/repository/at_pdp_ipconfig.go:47-95 | one line is ignored, faulty or usable as specified |
| PdpConfig.ParseCgcontrdp | internal/repository/at_pdp_ipconfig.go:41-101 | the loop over lines returns the first usable row, or the first fault |
| PdpConfig.FirstUsableRow | internal/repository/at_pdp_ipconfig.go:46-100 | a configuration results exactly if some row is usable, and it is the first such row's |
| PdpConfig.FirstFault | internal/repository/at_pdp_ipconfig.go:46-100 | without a usable row the first fault is the error, and without a fault that no row is for the context |
| PdpConfig.SpacedColumns | internal/repository/at_pdp_ipconfig.go:61-93 | white space around a column is no part of it |
| PdpConfig.ReportUnderstood | internal/repository/at_pdp_ipconfig.go:38-96 | a reported row yields address with prefix, gateway, servers and the MTU of its twelfth column; it is refused exactly for a mask with holes or gateway 0.0.0.0, and passed over exactly if it is of another context |
| PdpConfig.StaticExact | internal/repository/net_repo.go:35-56 | of all texts (an IPv4 address in IPv6 notation counting as none), exactly an address on a /24 with that network's first address as gateway, canonically written and not the host's own, is accepted |
| PdpConfig.LooseGateway | internal/repository/at_parser.go:487-499 | a gateway with a plus sign or a leading zero counts as usable in the report and is refused on the host, where its canonical form is accepted |
| RndisConfig.PollExact | internal/usecase/rndis_config.go:104-133 | the first complete answer is taken; giving up takes six seconds; at most 13 queries are made |
| RndisConfig.WaitConfig | internal/usecase/rndis_config.go:104-133 | the retry loop does that |
| RndisConfig.ReportedExact | internal/usecase/rndis_config.go:104-133 | what is reported is the first complete answer; it is the first answer if that is complete |
| RndisConfig.InstantPolls | internal/usecase/rndis_config.go:111-128 | queries that take no time are made thirteen times, half a second apart |
| RndisConfig.HostAcceptsExact | internal/repository/net_iface.go:64-86 | of what the repository lets through, the host refuses the address 0.0.0.0 only |
| RndisConfig.HostAcceptsParsed | internal/repository/net_iface.go:64-86 | the same of any address with a prefix and any gateway that parses, or none |
| RndisConfig.RndisService.ConnectStatic | internal/repository/net_repo.go:21-29 | checks before commands; a failed route leaves the address, every other failure nothing |
| RndisConfig.RndisService.TryReported | internal/usecase/rndis_config.go:54-88 | the static branch: success, failure or handing over to DHCP, with the session cached on success only |
| RndisConfig.RndisService.Connect | internal/usecase/rndis_config.go:21-142 | result, host effects, session and WAN method of a connect, in every case: `static` and `dhcp` connect exactly if the context, the interface, the report or the lease, and the host commands allow it; the address shown with the APN stays that of the session, and a known one is never forgotten |
| RndisConfig.OnlyReportedAddresses | internal/usecase/rndis_config.go:54-102 | no address is applied but the one the modem reported and the validator accepted; `static` never takes a lease |
| RndisConfig.AutoFallsBack | internal/usecase/rndis_config.go:90-101 | `auto` equals `static` where that works or the context is not active, and otherwise falls to DHCP |
| RndisConfig.OutcomeExact | internal/usecase/rndis_config.go:21-102 | what becomes of a connect, method by method, from the facts about modem and host |
| RndisConfig.ConnectsExactly | internal/usecase/rndis_config.go:21-102 | it connects, statically or by DHCP, exactly under these conditions |
| RndisConfig.EffectsExact | internal/usecase/rndis_config.go:54-102 | address, route, name servers and lease are set exactly when and as reported |
| RndisConfig.StaticRunWorks | internal/repository/net_repo.go:21-56 | whatever was reported, static works exactly if the texts are accepted, the address is not 0.0.0.0 and the host commands work |
| RndisConfig.StaticFromReport | internal/usecase/rndis_config.go:54-77 | from the modem's row to the host: static works exactly for an active context, mask 255.255.255.0 and gateway a.b.c.1 other than the address, which is not 0.0.0.0, when host commands work |
| RndisConfig.ShownExact | internal/usecase/rndis_config.go:62-72 | gateway and servers shown are those configured, where there are fewer those of the session query; the address is the configured one exactly unless the query named another |
| WanEndpoints.FoundById | internal/usecase/wan_service.go:104-111 | with distinct identifiers every modem is found under its own |
| WanEndpoints.ChosenIsSelected | internal/usecase/modem.go:507-539 | choosing a modem leaves its nodes selected, the requested ones or the previous ones where they fit |
| WanEndpoints.ResolvedIsOwned | internal/usecase/wan_service.go:197-272 | whatever is asked, an endpoint consists of nodes of the selected modem |
| WanEndpoints.AutoResolves | internal/usecase/wan_service.go:206-225 | when the plain automatic connect finds an endpoint; a control node left from an earlier modem defeats it |
| WanEndpoints.RndisResolves | internal/usecase/wan_service.go:257-267 | an explicit RNDIS connect finds the selected interface exactly if the modem has one |
| WanEndpoints.MbimResolves | internal/usecase/wan_service.go:237-256 | an explicit MBIM connect finds the selected control node, on the selected interface or else the modem's first, exactly if the node is the modem's, nothing else was named and it has an interface |
| WanEndpoints.NamedResolves | internal/usecase/wan_service.go:206-225 | an automatic connect that names a node uses MBIM for a control node or an interface of a modem with control nodes, else RNDIS on the selected interface |
| WanEndpoints.FoundByPath | internal/usecase/wan_service.go:122-138 | a node belongs to the first modem that has it, and to none exactly if no modem does |
| WanEndpoints.ChosenExact | internal/usecase/wan_service.go:146-177 | a request is about the modem with the identifier it names, else the first with the AT port, else with the control node, else with the interface |
| WanEndpoints.MeantExact | internal/usecase/modem.go:441-563 | the underlying selection takes that modem where identifier or AT port name it; an AT port that discovery does not know stands for a modem of its own |
| WanEndpoints.ConsistentExact | internal/usecase/wan_service.go:157-177 | a request fits a modem exactly if its nodes belong to that modem, and its AT port too, unless the modem has none or stands for a port of its own |
| WanEndpoints.CleanupOwned | internal/usecase/wan_service.go:445-450 | the interface cleared is the selected one where that is the modem's, and belongs to the modem exactly if it has one, or none is selected |
| WanEndpoints.PreferredAt | internal/usecase/modem.go:565-582 | the AT port chosen is one of the modem's: the preferred one if it is there, else a ready one if any is |
| WanService.WanService.SelectModem | internal/usecase/wan_service.go:142-187 | a request about a discovered modem succeeds exactly if it names nothing of another; then the selection is that modem's and the overrides are gone; a refusal changes nothing |
| WanService.WanService.Check | internal/usecase/wan_service.go:147-177 | the ownership checks accept exactly consistent endpoints |
| WanService.WanService.Select | internal/usecase/modem.go:441-563 | the underlying selection and the AT port it returns, case by case |
| WanEndpoints.DefaultsFill | internal/usecase/modem.go:584-664 | listing never changes a selection that is there; it fills an empty one with the first modem that has the open AT port, else with the first, and with the first node of the first modem that has one |
| WanService.DecorateExact | internal/usecase/wan_service.go:59-84 | session and PDP come from the facade where it has them; counters are live exactly without an override or for one connected on the polled interface, else those stored with it |
| WanService.WanService.ListModems | internal/usecase/modem.go:584-664 | empty selections get defaults, others stay |
| WanService.ConnectedIsReal | internal/usecase/wan_service.go:398-430 | a session that comes up is real: bearer, address, default route and applied name servers, shown as reported field by field; the host then has the name servers shown exactly if there were some and setting them worked, or had them before |
| WanService.AnsweredExact | internal/usecase/wan_service.go:361-378 | the answer used is the first usable one of three |
| WanService.FailureExact | internal/usecase/wan_service.go:350-389 | an MBIM connect succeeds exactly if every step does; of a gateway that is an address, or none, the host refuses only the address 0.0.0.0 |
| WanService.RndisConfigured | internal/usecase/wan_service.go:283-289 | a successful RNDIS connect leaves the address reported, its gateway as default route and the servers that could be set on the interface, or a lease |
| WanService.FailedOverReal | internal/usecase/wan_service.go:350-389 | a real session shown before a failing connect stays real exactly if the modem was not reached or could not be disconnected again; an address that the connect added does not matter |
| WanService.RndisFailedOverReal | internal/usecase/wan_service.go:283-289 | over a failing RNDIS connect it stays real on any interface |
| WanService.ReenumeratedOverReal | internal/usecase/modem.go:369-385 | over a re-enumeration, exactly if the device carries neither its control node nor its interface |
| WanService.WanService.UsbReset | internal/usecase/modem.go:369-385 | a reset that is carried out takes bearers and interfaces of the device down and touches no override; what is shown stays true exactly on that condition |
| WanService.WanService.SetUsbMode | internal/usecase/modem.go:825-862 | so does an accepted mode; a refused one changes nothing |
| WanService.WanService.ConnectMbim | internal/usecase/wan_service.go:350-432 | roll-back on the same device whenever the bearer came up and a later step failed; what modem and host are afterwards; on success address, gateway and the first two servers shown are those reported; a failure shows what was shown |
| WanService.WanService.ConnectEndpoint | internal/usecase/wan_service.go:350-432 | only the paired interface is touched, and the default route moved to it at most; on success the session shown is real; after a failure one shown before stays real exactly on the condition above |
| WanService.WanService.MbimConnect | internal/usecase/wan_service.go:342-348 | an owned endpoint or none; roll-back; a session shown before stays true exactly on that condition |
| WanService.WanService.DataConnect | internal/usecase/wan_service.go:274-290 | every interface handed to RNDIS, static or DNS configuration belongs to the selected modem; roll-back; a session shown before stays true over a failing RNDIS connect, and over a failing MBIM connect exactly on that condition |
| WanService.WanService.MbimDisconnect | internal/usecase/wan_service.go:434-475 | only the selected modem's own control node is disconnected; what is cleared; success shows and is a bearer down |
| WanService.WanService.RndisDisconnect | internal/usecase/wan_service.go:315-339 | a failed teardown keeps what was shown; a successful one clears the overrides |
| WanService.WanService.DataDisconnect | internal/usecase/wan_service.go:292-339 | a session shown with its PDP, or an explicit MBIM request, is ended by taking the selected bearer down; anything else leaves bearers alone; success shows no connection |
| WanService.Serve | internal/usecase/wan_service.go:86-102 | every request and every reset by the poller keeps the truth of what is shown, exactly unless, over a session shown, it is a connect that fails and is rolled back or a reset or mode change of the device that carries the session |
| WanService.Drive | internal/usecase/wan_service.go:182-187 | so in any run, up to the first such step and no longer: a session shown as connected with a PDP has its bearer up, its address on its interface, its gateway as the default route, and its applied name servers |
| WanService.ConnectedTwice | internal/usecase/wan_service.go:372-389 | such a connect: a second one without IP configuration takes the bearer down and leaves the first session on show |
| WanService.ResetWhileConnected | internal/usecase/modem.go:369-385 | such a reset: nothing fails, and the session stays on show without a bearer |
| HotspotDhcp.AcceptedLan | internal/pkg/domain/hotspot.go:156-181 | a LAN is accepted exactly if its text names one of the hosts of a network with room for another |
| HotspotDhcp.DerivedExact | internal/repository/hotspot_conf.go:102-123 | a derived pool is right exactly if the network address plus 200 does not wrap, and is then the largest free stretch, the upper of two equal ones |
| HotspotDhcp.DhcpRange | internal/repository/hotspot_conf.go:72-123 | a usable request is honoured as it stands, any other derived; the pool is right exactly if honoured or not wrapping |
| HotspotDhcp.RequestExact | internal/repository/hotspot_conf.go:90-100 | a pool asked for is given exactly if it is a right one |
| HotspotDhcp.WrappedPool | internal/repository/hotspot_conf.go:102-123 | 255.255.255.249/29 is accepted and gets the pool 0.0.0.2 to 0.0.0.192 |
| HotspotDhcp.GenerateDnsmasqConf | internal/repository/hotspot_conf.go:48-70 | fails exactly for a LAN text that is none or a LAN without pool; otherwise writes the chosen pool |
| HotspotDhcp.ConfRoundTrip | internal/repository/hotspot_conf.go:57-69 | a reader of the file finds the interface, the pool, and the gateway as router and name server |
| HotspotDhcp.UntrimmedLanIsBad | internal/repository/hotspot_conf.go:49-52 | an accepted LAN text yields a configuration only if it has no white space around it |
| Hotspot.RollBackExact | internal/repository/hotspot.go:356-394 | rolling back after k rules restores the rules exactly if the host had no copy of the others |
| Hotspot.HotspotManager.EnableForwarding | internal/repository/hotspot.go:284-301 | forwarding is on with what is needed to turn it back, or nothing changed |
| Hotspot.HotspotManager.RestoreForwarding | internal/repository/hotspot.go:303-316 | the previous value is written back, at most once |
| Hotspot.HotspotManager.ApplyNat | internal/repository/hotspot.go:326-369 | the table or all three rules; with them in force packets from the LAN out on the uplink, and no others, are masqueraded by the session, and they and their replies are accepted; a failure leaves the rolled-back state |
| Hotspot.NatShares | internal/repository/hotspot.go:326-369 | what the rules in place do to a packet, for the nft table and the iptables rules |
| Hotspot.RulesDo | internal/repository/hotspot.go:338-361 | what each of the three rules does |
| Hotspot.StartedExact | internal/repository/hotspot.go:77-230 | a start succeeds exactly if every check and every command on its way does |
| Hotspot.HotspotManager.RemoveNat | internal/repository/hotspot.go:371-394 | the table, or one copy of each rule, is gone |
| Hotspot.FailedNatExact | internal/repository/hotspot.go:326-369 | a failed NAT leaves no trace exactly if the host had no old table, or no copy of a rule not yet added |
| Hotspot.RemovalUndoesNat | internal/repository/hotspot.go:371-394 | removing NAT in place gives back the rules, and the table there was with iptables |
| Hotspot.HotspotManager.Prepare | internal/repository/hotspot.go:77-135 | refused, not set up or ready, exactly by its checks; only addresses are touched |
| Hotspot.HotspotManager.BringUp | internal/repository/hotspot.go:137-219 | from forwarding on, success has everything in place; a failure gives back forwarding, address and daemons, and rules and table exactly if NAT was not reached or nothing was left over that it takes along |
| Hotspot.HotspotManager.Open | internal/repository/hotspot.go:137-230 | the same with the session recorded on success only |
| Hotspot.HotspotManager.Start | internal/repository/hotspot.go:77-230 | every exit on any host: refused, not set up (the LAN address may stay), failed (all given back, on that exact condition), started (both daemons, a DHCP configuration that serves the LAN, NAT that shares the uplink, forwarding, address); on every exit the rules of others are untouched |
| Hotspot.HotspotManager.StopLocked | internal/repository/hotspot.go:239-275 | a stop gives back forwarding, rules and address, and with iptables the table; it ends the daemons and leaves the rules of others alone |
| Hotspot.HotspotManager.IsRunning | internal/repository/hotspot.go:43-55 | true exactly for a session with both daemons; a dead daemon is cleaned up like a stop |
| Hotspot.Serve | internal/repository/hotspot.go:77-275 | every event keeps that, and leaves what was left over on the host exactly if it is harmless |
| Hotspot.Drive | internal/repository/hotspot.go:77-275 | over any sequence of starts, stops, checks and daemon deaths on any host, whenever nothing runs forwarding is as it was, no daemon is left and the rules of others are untouched; rules and table are as they were exactly if every event was harmless |
| Hotspot.FailedFilesBlockTheNextStart | internal/repository/hotspot.go:122-135 | after a start that failed on its files the next one on the interface is refused |
| SseHub.InOrder | internal/handler/sse_hub.go:64-90 | a subscriber gets frames in order, none twice, from the last one at subscription |
| SseHub.MissedExactly | internal/handler/sse_hub.go:132-138 | a frame is missed exactly if an earlier one was still unread |
| SseHub.CaughtUpExactly | internal/handler/sse_hub.go:132-138 | a subscriber that has read everything shows the latest status exactly if nothing was waiting when it was sent |
| SseHub.SseHub.Subscribe | internal/handler/sse_hub.go:64-90 | the last frame, if any, waits for the new subscriber |
| SseHub.SseHub.Unsubscribe | internal/handler/sse_hub.go:79-88 | removes one subscriber; a second call does nothing |
| SseHub.SseHub.Broadcast | internal/handler/sse_hub.go:92-138 | a status is sent exactly if it can be encoded and differs from the last ignoring `UpdatedAt` |
| SseHub.SseHub.SendAll | internal/handler/sse_hub.go:132-138 | every empty channel gets the frame, a full one keeps what it has |
| SseHub.Drive | internal/handler/sse_hub.go:64-138 | in any run each subscriber has received exactly the frames its story tells, and consecutive broadcasts differ |
| InventoryCache.CachedInventory.ListModems | internal/usecase/inventory_cache.go:53-80 | a read after `Prime` never waits and returns a list the base produced for the recorded key; one for that key within the time to live starts nothing; any other leaves exactly one refresh under way |
| InventoryCache.CachedInventory.Prime | internal/usecase/inventory_cache.go:49-51 | the first discovery establishes that; a later one keeps it exactly if no refresh is under way |
| InventoryCache.CachedInventory.Land | internal/usecase/inventory_cache.go:97-107 | a refresh commits its answer and is over |
| InventoryCache.Drive | internal/usecase/inventory_cache.go:53-108 | in any interleaving one refresh is under way exactly while the flag is set |
| InventoryCache.PrimedTwice | internal/usecase/inventory_cache.go:49-51 | a second `Prime` during a refresh lets two run at once |
| InventoryCache.CachedInventory.Answer | internal/usecase/inventory_cache.go:86-95 | the base's answer belongs to the key its refresh was started for |
| HistoryRing.WindowPut | internal/repository/history_ring.go:46-50 | writing at the head appends to the window, dropping the oldest when full |
| HistoryRing.WindowAt | internal/repository/history_ring.go:60-67 | reading around the end enumerates the window from the oldest |
| HistoryRing.Ring.Add | internal/repository/history_ring.go:40-51 | the ring holds the newest samples of its log, which grows by the sample, stamped if it had no time |
| HistoryRing.Ring.Snapshot | internal/repository/history_ring.go:54-69 | exactly the newest samples that fit, oldest first |
| HistoryRing.Ring.LoadFile | internal/repository/history_persist.go:14-52 | a readable list replaces the contents, anything else leaves them; an error exactly if unreadable or malformed |
| HistoryRing.SaveAndLoad | internal/repository/history_persist.go:32-75 | saving one ring and loading into another of any capacity keeps the newest samples that both can hold |
| Sequences.LastNTwice | internal/repository/history_persist.go:38-41 | keeping the newest twice keeps the newest of the smaller count |

## Left out

- HTTP handlers, authentication, templates and all JavaScript but the segment estimate: plumbing and display.
- Serial ports, sysfs, `ip`, `nft`, `iptables`, `hostapd`, `mbimcli` and signals: their outcomes are parameters; a failed command is taken to change nothing, and no other program changes forwarding, rules or addresses meanwhile.
- Radio telemetry parsing, downlink and byte-rate heuristics, enum normalisers, configuration files, USB lookup, MBIM text scraping: only easy members.
- Raw AT commands that change modem settings behind the cache, and the shutdown order in `main.go`: outside the stated invariants.
- `ReadSMS`, `DeleteSMS` and `ParseCMGR`: the same patterns as the listing, on one message.
- SerialRead.ReadAnswer: reads are cut between characters, and those after the three seconds are not in the list.
- SmsInbox.ListedAndConsumed: the answer to `AT+CMGL` is the first thing on the port; `SmsInbox.ListSms` covers others.
- The window in `broadcast` between releasing the lock and sending, where a send to a channel closed meanwhile would panic: a broadcast is one step here.
- TieredCache.TieredClient.GetFullStatus: the parsed answers of the commands are parameters; the fast fields of a poll are not modelled.
- AtGate.EveryRun: one writer excludes readers and writers alike, as with plain mutexes; time spent waiting is not modelled.
- Recovery.ModemService.PollStatus: the USB check, the AT answers and the outcome of a reset are parameters, and polls run one at a time.
- SmsGuard.SendSMS: a request with no other in between; interleavings are runs of `Begin` and `Finish`.
- SmsGuard.Guard.Begin: the code reads the clock before it takes the lock (sms.go:133-134); here requests enter in the order of their readings.
- Ipv4.ParsedIsDotted: IPv4 addresses in IPv6 notation (`::ffff:a.b.c.d`) count as not IPv4.
- PdpConfig.StaticExact: such a gateway passes this check in the code; the host then refuses it (net_iface.go:82), so `RndisConfig.StaticRunWorks` is not affected.
- RndisConfig.RndisService.Connect: the text of the notes is not modelled.
- WanService.WanService.SelectModem: the AT port switch on the client belongs to `AtOperations`; one discovery result serves a whole request, and a modem without an identifier is outside the statement.
- WanService.WanService.DataConnect: request texts arrive trimmed, modes and methods parsed; a failed MBIM disconnect is taken to leave the bearer up, and bearers that the network, a raw command or a change of APN or radio mode drops are not modelled. A DHCP client's own route is not the default route of metric 100 that is modelled. Setting name servers stands for `resolvectl dns`; the two commands after it, which make the link a default route for queries, are not modelled, and `revert` is taken to work.
- HotspotDhcp.AcceptedLan: the other checks of the hotspot configuration (SSID, password, channel, country) are left out.
- Hotspot.HotspotManager.Start: the checks of tools, wireless ability and names are one flag; `hostapd` is probed once, `dnsmasq` not at all, as in the code, so a session can begin with a `dnsmasq` that ends at once. The probe sends signal 0 to a child not yet waited for, which succeeds even if it has ended, so the branch where `hostapd` does not stay is the code's but hardly taken.
- Hotspot.Drive: teardown commands are taken to work; what a failed one leaves is not followed.
- SseHub.SseHub.Unsubscribe: a frame still waiting in the closed channel can be read in Go; here it goes with the subscriber.
- InventoryCache.PrimedTwice: the daemon itself primes once, at start, so this is what a second call would do.
- InventoryCache.CachedInventory.ListModems: lists are values, so the copying in `cloneModems` is not modelled; the cached MBIM flag and hint are left out.
- HistoryRing.Ring.LoadFile: JSON is a parameter; writing the file is not modelled beyond its content.
