# A model of the SMS gateway and its back end

The repository is an SMS gateway. A Go program speaks SMPP v3.4 to customers (inbound) and to upstream carriers
(outbound); a Python back end prices, charges, refunds and reports. This project models the parts of both where
correctness depends on several functions or on many interleaved steps, and proves properties of the model.

Code that changes state is written as classes and methods whose postconditions fix the whole new state; code that only
computes is written as functions. Behaviour under concurrency is modelled as runs: a list of events, each one lock
section, atomic table operation or guarded database statement, applied in any order. Clocks, random draws, broker
answers, database snapshots and map iteration order are parameters.

| file | component |
|---|---|
| Wrappers, Unicode, Packing, Maps, Grouping, Aggregation | optional values, encodings, greedy splitting, maps and their listings, grouping, GROUP BY sums |
| Segmenter, Billing | outbound splitters and submit plan; billed part count |
| Udh, Reassembly, Inbound, LongMessage | UDH parsing, the reassembly buffer, its runs, the whole long-message path |
| PduCodec | framing, submit_sm and deliver_sm bodies |
| Keys, InFlight | formatted keys; the in-flight table and the parties that claim its entries |
| Envelope, Settlement, Throttle | queue payloads on the wire, settling a delivery, the throttle retry and the done mark |
| Pool | bind sessions and pending binds of one channel |
| Ledger, LedgerLaws | charges, refunds, channel switch, batch states; what every run keeps |
| TokenBucket, FixedWindow, DialGate | the three rate limits |
| Rollup, DailyTable, Commission | day cache of the reports; the daily sums with their coverage; monthly commission from them |
| RetryBuffer, ShortLink | two small Redis protocols |

## What turned out conditional

These properties hold only under a condition. The lemmas named `…Iff` (and the round trips) give it exactly, in both
directions and for all inputs; the others are concrete counterexamples or remarks on the same code.

- A 255-part group never finishes joining: the loop counter of `assembleParts` is one byte and wraps
  (`Reassembly.AssembleEndsIff`). Totals up to 254 are unaffected. The reaper joins the same way, so a single expired
  part of 255 is enough for a sweep that never returns and keeps the buffer locked (`Reassembly.ReassemblyStore.Reap`).
- The buffer forgets a message once it is complete. Late duplicates open a new round: it is forwarded again exactly when
  they bring all distinct parts again, and otherwise whatever has come is forwarded, truncated, when it expires
  (`Inbound.AfterCompletion`, `Inbound.ForwardedTwice`, `LongMessage.LeftoverIsTruncated`).
- Two conversations can share a reassembly key exactly when an address contains `|` (`Keys.ReassemblyKeyAmbiguity`).
- An inbound long message equals the text that was sent exactly when every character lies in the BMP; a surrogate pair
  is decoded as two separate units (`LongMessage.LongMessageRoundTrip`, `Udh.DecodeRoundTrip`).
- The comment on wire sanitizing promises that billed and sent parts agree. For UCS-2 with UDH segmentation, texts of 71
  to 127 UTF-16 units go out as one PDU and are billed as two (`Billing.Ucs2BilledAgainstSubmitted`). On any channel, a
  text billed as several parts is billed for no more than is submitted exactly when the channel segments it
  (`Billing.BilledAtMostSubmittedIff`).
- A PDU survives `writePDU` and `readPDU` exactly when its body has at most 65520 octets; a built deliver_sm is read back
  exactly when no address contains a zero octet (`PduCodec.ReadInvertsWrite`, `PduCodec.DeliverRoundTrip`).
- An in-flight entry is lost without a claim exactly when a store reuses a key that is still in flight
  (`InFlight.LostIffKeyReused`).
- Payload lists survive every envelope exactly when their numbers are multiples of the float64 spacing at their size,
  which covers all up to 2^53 (`Envelope.EnvelopeRoundTrip`). The retry counter survives for every configured maximum up
  to 2^53 and no larger one (`Throttle.CounterSurvivesIff`).
- A batch delivery whose republishing is refused in part either loses payloads or doubles them
  (`Settlement.SettledOnceIff`).
- After a done mark a message is submitted again exactly when a copy had already passed the check
  (`Throttle.MarkBlocksIff`).
- The pool bound fails when a reload falls between a removal and the registration of its replacement, and when the stale
  monitor acts on a session that is no longer pooled (`Pool.PoolBoundIff`, `Pool.BoundCanBreak`).
- Balance plus unrefunded prices is conserved exactly as long as no switch reprices refunded rows by a nonzero total;
  an automatically refunded row that is still queued does, and the bulk sender refunds rows its queue rejects without
  changing their status (`LedgerLaws.ConservedIff`, `LedgerLaws.DriftHappens`). The
  switch also demands a covering balance from postpaid accounts, which may go negative everywhere else.
- A send-limit key holds its bound exactly for schedules that end less than 100 ms past the second: at the millisecond of
  expiry the remaining time reads 0, and the caller takes a wait of 0 as permission (`FixedWindow.PerSecondIff`).
- An account bucket below one message a second never grants anything (`TokenBucket.EverGrantsIff`).
- A report range that ends "now" equals the direct query exactly when no row is dated between its upper bound and
  midnight (`Rollup.ByDaysIff`).
- A complete coverage means that every daily entry was true when its day was refreshed (`DailyTable.CompleteMeansTrue`).
  The commission is then the live month if no row of those days has changed since, and from every day on and for every
  assignment of accounts exactly when no entry of an account and channel is stale; the coverage check does not check
  that (`Commission.MonthlyCommission`, `Commission.NoneStaleIff`, `Commission.CoveredButStale`). The comments in the
  reporting code speak of sums net of refunds; the queries add gross prices and costs, and so does the model.
- The retry buffer's hash and index agree exactly as long as no retry is counted for an item already gone
  (`RetryBuffer.AgreementIff`). Such an item is out of reach until the index is empty, and then expires later than it was
  first given (`RetryBuffer.OrphanReachedIff`, `RetryBuffer.OrphanOutlivesExpiry`). A pop with limit 0 returns everything
  (`RetryBuffer.PopTakesEarliest`).

## Model

| member | source | states |
|---|---|---|
| Segmenter.SplitGsm7Text | go-smpp-gateway/connector.go:423-448 | The loop returns the greedy split of an encodable text, and nothing for an empty text, a limit below 1 or a character without a code. |
| Segmenter.SegmentUcs2Text | go-smpp-gateway/connector.go:464-486 | The loop returns the UTF-16BE encodings of the greedy split by characters, or one empty segment for an empty text. |
| Segmenter.SplitIsCorrectAndOptimal | go-smpp-gateway/connector.go:423-486 | For every text and limit the pieces join up to the text and are non-empty, they all fit exactly when each character fits, and no split between characters has fewer pieces. |
| Packing.PackOptimal | go-smpp-gateway/connector.go:430-446 | No fitting split of the same text has fewer segments than the greedy one. |
| Packing.PackFromFlatten | go-smpp-gateway/connector.go:430-446 | Whatever has been accumulated, the remaining segments join up to it followed by the rest of the text, so nothing is cut inside a character. |
| Packing.PackFitsIff | go-smpp-gateway/connector.go:430-446 | All segments stay within the limit exactly when every character does. |
| Packing.PackCount | go-smpp-gateway/connector.go:430-446 | With characters of 1 to m units and n units in all, the number of segments lies between n / limit and n / (limit - m + 1), both rounded up. |
| Segmenter.SendSms | go-smpp-gateway/connector.go:1443-1635 | Through all branches from Latin-1 to message_payload, what reaches the wire is the submit plan as far as the submits succeed: a failing first one is an error and sends nothing, a later one is skipped, a closing session ends the loop. |
| Segmenter.SentAllIff | go-smpp-gateway/connector.go:1570-1624 | The whole plan is sent exactly when every submit succeeds, and nothing exactly when the first fails, the only case reported as an error. |
| Billing.NormalizeForSegmentCount | backend/app/utils/sms_segment.py:50-79 | The loop replaces exactly the listed characters. |
| Billing.NormalizedIdempotent | backend/app/utils/sms_segment.py:87-103 | Normalizing a normalized text changes nothing, as the wire sanitizer promises. |
| Billing.Gsm7SeptetCount | backend/app/utils/sms_segment.py:23-36 | The number of septets, or none as soon as one character has no GSM-7 code. |
| Billing.CountSmsParts | backend/app/utils/sms_segment.py:137-158 | The billed parts of a message: 160 then 153 septets, or 70 then 67 units, of its normalized text. |
| Billing.Gsm7BilledAgainstSubmitted | backend/app/utils/sms_segment.py:144-152 | GSM-7 texts are never billed above what is submitted; above 160 septets the billed count is n/153 rounded up and at most n/152 rounded up are submitted; without escaped characters the two are equal. |
| Billing.Ucs2BilledAgainstSubmitted | backend/app/utils/sms_segment.py:153-158 | The UCS-2 splitter yields between n/67 and n/66 segments, both rounded up, but billed is at most submitted exactly outside 71..127 units; there, BMP texts are billed what is submitted. |
| Billing.BilledAtMostSubmittedIff | go-smpp-gateway/connector.go:1443-1635 | For every channel configuration: billed is at most submitted exactly when one part is billed or the channel segments the text; otherwise one PDU goes out. |
| Udh.ParseUdh | go-smpp-gateway/inbound_udh_reassembly.go:38-72 | The index loop finds the last concatenation element and the octets behind the header, and leaves a malformed header in place. |
| Udh.ParseInvertsEncode | go-smpp-gateway/inbound_udh_reassembly.go:38-72 | Parsing an encoded list of information elements followed by a body gives back the last concatenation element and the body. |
| Udh.ConcatHeaderRoundTrip | go-smpp-gateway/connector.go:1594-1596 | The six header octets the sender writes are parsed to its reference, total, part and body. |
| Udh.DecodeShortMessage | go-smpp-gateway/inbound_pdu.go:295-311 | data_coding 8 with an even length is decoded unit by unit; everything else is kept as it is. |
| Udh.DecodeRoundTrip | go-smpp-gateway/inbound_pdu.go:295-311 | The decoded UTF-16BE of a text is its UTF-8 exactly when every character lies in the BMP. |
| Keys.ReassemblyKeyEqual | go-smpp-gateway/inbound_udh_reassembly.go:89-91 | Equal keys mean equal account, reference and total and the same joined addresses. |
| Keys.ReassemblyKeyAmbiguity | go-smpp-gateway/inbound_udh_reassembly.go:89-91 | Another pair of addresses has the same key exactly when one of the two contains the separator. |
| Keys.TotalOfReassemblyKey | go-smpp-gateway/inbound_udh_reassembly.go:89-91 | A key determines the total it was built with, so a group is only offered segments of its own total. |
| Reassembly.AssembleParts | go-smpp-gateway/inbound_udh_reassembly.go:131-139 | For totals up to 254 the loop ends and joins the present parts in order. |
| Reassembly.AssembleEndsIff | go-smpp-gateway/inbound_udh_reassembly.go:133 | The byte counter passes the total exactly for totals up to 254. |
| Reassembly.ReassemblyStore.AddSegment | go-smpp-gateway/inbound_udh_reassembly.go:96-128 | One segment: room made if needed, the part stored, the group kept waiting, completed and removed, or stuck. |
| Reassembly.ReassemblyStore.EvictOldest | go-smpp-gateway/inbound_udh_reassembly.go:142-155 | Exactly one oldest group goes, and nothing from an empty buffer. |
| Reassembly.ReassemblyStore.Reap | go-smpp-gateway/inbound_udh_reassembly.go:158-178 | The sweep hangs exactly when some expired group has 255 parts; otherwise exactly the expired groups leave, each flushed once with the parts it holds, in the order visited. |
| Reassembly.PartsPigeonhole | go-smpp-gateway/inbound_udh_reassembly.go:119-121 | Part numbers drawn from 1..total reach the total only by being all of 1..total. |
| Reassembly.BuiltKeyAdmitted | go-smpp-gateway/inbound_session.go:426-435 | The guard and the key of the handler give the buffer what its invariant needs. |
| Reassembly.AddOutcome | go-smpp-gateway/inbound_udh_reassembly.go:114-128 | A group completes exactly when its parts are all of 1..total, then leaves, and no other group changes. |
| Reassembly.AddKeepsInv | go-smpp-gateway/inbound_udh_reassembly.go:96-128 | A segment keeps: at most 20000 groups, each with fewer parts than its total and part numbers in range. |
| Reassembly.ReapKeepsInv | go-smpp-gateway/inbound_udh_reassembly.go:158-178 | So does a sweep. |
| Inbound.StepKeepsBuffer | go-smpp-gateway/inbound_udh_reassembly.go:96-178 | One lock section that returns keeps the invariant and the count created = completed + evicted + flushed + live. |
| Inbound.RunKeepsBuffer | go-smpp-gateway/inbound_udh_reassembly.go:96-178 | Over every run of segments, evictions and sweeps that return, the invariant holds and each group leaves exactly once. |
| Inbound.LastDistinctPartCompletes | go-smpp-gateway/inbound_udh_reassembly.go:96-139 | Segments in any order, with duplicates and other traffic between: the one that brings the last distinct part yields the job with all parts in order; every earlier one is answered with the same id and yields nothing. |
| Inbound.RoundsForwarded | go-smpp-gateway/inbound_udh_reassembly.go:96-139 | At every point of a conversation the buffer holds exactly the round under way, and as many jobs have been handed on as rounds are complete. |
| Inbound.AfterCompletion | go-smpp-gateway/inbound_udh_reassembly.go:114-128 | After the completing step: no second job exactly when the later segments bring fewer than all distinct parts, and then something is left under the key exactly when one arrives. |
| Inbound.LeftoverSwept | go-smpp-gateway/inbound_udh_reassembly.go:158-178 | An incomplete round is forwarded, as the parts it has and under its own id, by the sweep that finds it expired. |
| Inbound.ForwardedTwice | go-smpp-gateway/inbound_udh_reassembly.go:96-139 | Two segments arriving as 1, 2, 1, 2 into an empty buffer give two jobs with the same text. |
| LongMessage.Receive | go-smpp-gateway/inbound_session.go:411-450 | The decoding branch of the handler: a numbered segment, a text of its own with the header stripped, or the message_payload parameter in place of short_message. |
| LongMessage.SegmentReceived | go-smpp-gateway/connector.go:1570-1596 | Each planned segment is received as its own part number and text. |
| LongMessage.LongMessageRoundTrip | go-smpp-gateway/connector.go:1567-1596 | A long UCS-2 text of up to 254 segments, sent as planned and received in any order with duplicates, is first forwarded when the last distinct part arrives; it is the original text exactly when that lies in the BMP. |
| LongMessage.EveryForwardingIsTheText | go-smpp-gateway/inbound_udh_reassembly.go:96-139 | Over the whole conversation each forwarding, first or repeated, carries the whole text, and there are as many as complete rounds. |
| LongMessage.LeftoverIsTruncated | go-smpp-gateway/inbound_udh_reassembly.go:158-178 | What late duplicates leave behind is forwarded by the sweep as a strictly shorter text. |
| PduCodec.WritePdu | go-smpp-gateway/inbound_pdu.go:86-96 | The filled buffer is the encoded PDU, with the length field truncated to 32 bits. |
| PduCodec.Connection.ReadPdu | go-smpp-gateway/inbound_pdu.go:61-83 | What one read takes off the stream, with both ways of running short and the length limits. |
| PduCodec.ReadInvertsWrite | go-smpp-gateway/inbound_pdu.go:61-96 | A written PDU in front of any rest is read back, leaving the rest, exactly when its body has at most 65520 octets. |
| PduCodec.StreamRoundTrip | go-smpp-gateway/inbound_pdu.go:61-96 | Any such PDUs written back to back are read back as the same list. |
| PduCodec.ReadCString | go-smpp-gateway/inbound_pdu.go:99-105 | It fails exactly without a zero octet ahead, and otherwise returns the octets in front of the first one and the position after it. |
| PduCodec.FieldsComplete | go-smpp-gateway/inbound_pdu.go:180-219 | Well-formed field values, encoded one after the other, are parsed back with what follows. |
| PduCodec.FieldsSound | go-smpp-gateway/inbound_pdu.go:180-219 | Whatever parses is the encoding of the values returned. |
| PduCodec.ParseSubmitSm | go-smpp-gateway/inbound_pdu.go:180-248 | Total on every octet string: no index is out of range, and the result is that of the field grammar. |
| PduCodec.ParseTlvs | go-smpp-gateway/inbound_pdu.go:233-246 | The parameter loop ends, stops at a truncated entry and lets a repeated tag win. |
| PduCodec.TlvsComplete | go-smpp-gateway/inbound_pdu.go:233-246 | Encoded optional parameters, followed by octets too short for another, are scanned to exactly those parameters. |
| PduCodec.TlvsSound | go-smpp-gateway/inbound_pdu.go:233-246 | Every octet string is such a list and a truncated rest, and is scanned to that list laid over in order. |
| PduCodec.AcceptedIff | go-smpp-gateway/inbound_pdu.go:180-248 | A body is accepted as given fields exactly when it is their encoding, with no zero octet in a string and the announced text length, followed by octets that scan to its parameters. |
| PduCodec.BuildDeliverSm | go-smpp-gateway/inbound_pdu.go:267-291 | The written octets are the encoding of the delivery with its text cut to 254 octets. |
| PduCodec.DeliverRoundTrip | go-smpp-gateway/inbound_pdu.go:180-291 | The parser reads a built deliver_sm as meant exactly when neither address contains a zero octet. |
| Keys.SeqMapKeyInjective | go-smpp-gateway/connector.go:221-223 | Formatted in-flight keys are equal exactly when channel, session and number are. |
| Keys.SessionPrefixExact | go-smpp-gateway/connector.go:226-228 | The prefix test picks exactly the entries of that channel and session. |
| Keys.ChannelPrefixExact | go-smpp-gateway/connector.go:1391-1404 | The in-flight window counts exactly the entries of its channel. |
| InFlight.SequenceMap.SubmitOneAndTrack | go-smpp-gateway/connector.go:1641-1677 | The entry is stored before the write and taken back if the write fails. |
| InFlight.SequenceMap.LoadAndDelete | go-smpp-gateway/connector.go:833 | A claim returns the entry and removes it, or finds none. |
| InFlight.SequenceMap.Collect | go-smpp-gateway/connector.go:1003-1009 | The visit collects exactly the matching keys, each once. |
| InFlight.SequenceMap.Sweep | go-smpp-gateway/connector.go:1169-1199 | An uninterrupted sweep claims exactly the collected entries and leaves all others. |
| InFlight.CloseSweepIsOwn | go-smpp-gateway/connector.go:1003-1021 | A close sweep collects an entry exactly when it belongs to that channel and session. |
| InFlight.LeaveIsTableDelete | go-smpp-gateway/connector.go:833 | Claims and deletions in the run model are deletions of the formatted key in the shared table. |
| InFlight.StoreIsTableUpdate | go-smpp-gateway/connector.go:1649-1654 | A store in the run model is an update of the formatted key. |
| InFlight.VisitIsPrefixTest | go-smpp-gateway/connector.go:1171-1181 | The run model's sweep test is the prefix and age test of the code. |
| InFlight.RunKeepsOk | go-smpp-gateway/connector.go:833-1199 | Under every interleaving each stored entry is either live under its own key or has one fate, and the numbers agree. |
| InFlight.SweepClaimsOwnSession | go-smpp-gateway/connector.go:1003-1021 | Whatever a close or stale sweep ever claims is an entry of its own session. |
| InFlight.StaleClaimWasStale | go-smpp-gateway/connector.go:1169-1199 | What a stale sweep claims it saw over 20 s after submission, unless its key was stored again since. |
| InFlight.FatesAreFinal | go-smpp-gateway/connector.go:833-1199 | Once claimed, deleted or replaced, an entry is never claimed again. |
| InFlight.Conservation | go-smpp-gateway/connector.go:833-1199 | Entries stored = claimed + deleted on a submit error + replaced + live, over every run. |
| InFlight.LostIffKeyReused | go-smpp-gateway/connector.go:1649-1654 | An entry is replaced unclaimed exactly when a store reuses a live key. |
| Envelope.WireNumber | go-smpp-gateway/consumer.go:60-72 | A number read through float64 and converted back is unchanged exactly when it is a multiple of the float64 spacing. |
| Envelope.SmallIsExact | go-smpp-gateway/consumer.go:60-72 | All numbers up to 2^53 in size survive, and 2^53 + 1 becomes 2^53. |
| Envelope.ParseSmsLogData | go-smpp-gateway/consumer.go:58-130 | The two required fields, the defaults of the others and the conversions, field by field. |
| Envelope.SmsOfEncoded | go-smpp-gateway/types.go:49-63 | An encoded payload, with its omitted empty fields, parses to itself up to the number conversions; in particular the retry counter comes back. |
| Envelope.SmsPayloadsFromFirstTaskArg | go-smpp-gateway/consumer.go:203-230 | One object, an array of objects, or poison as soon as one element is bad. |
| Envelope.ExtractWrapped | go-smpp-gateway/consumer.go:146-244 | Every published shape is recognised and yields the carried payloads. |
| Envelope.EnvelopeRoundTrip | go-smpp-gateway/consumer.go:146-244 | Native array, argument array, "args" object and bare object all give back the published list, exactly when all its numbers survive the wire. |
| Envelope.ShapesNeverConfused | go-smpp-gateway/consumer.go:146-199 | No body is an envelope of two kinds or of two distinguishable lists. |
| Settlement.QueuesApart | go-smpp-gateway/per_channel_consumer.go:44-46 | Two groups share a queue only if they are the same channel or both go to the legacy queue. |
| Settlement.Broker.Republish | go-smpp-gateway/consumer.go:513-567 | Exactly the accepted groups are published, each with its payloads in order; an error is reported exactly when a group is refused. |
| Grouping.TakenAll | go-smpp-gateway/consumer.go:537-565 | The published groups together hold exactly the payloads of the accepted channels, as a multiset. |
| Settlement.OnOwnQueue | go-smpp-gateway/consumer.go:537-565 | Every republished payload sits on the queue of its own channel. |
| Settlement.Worker.Receive | go-smpp-gateway/consumer.go:256-266 | Poison is rejected without requeue and an empty list acknowledged. |
| Settlement.Worker.SettleSingle | go-smpp-gateway/consumer.go:268-278 | A single payload is acknowledged on success and requeued only after a transient failure or a panic. |
| Settlement.Count | go-smpp-gateway/consumer.go:283-318 | The tallies: success + permanent + transient = payloads, a panic counting as permanent. |
| Settlement.Worker.SettleBatch | go-smpp-gateway/consumer.go:280-338 | The transient payloads are republished and the batch is acknowledged, or requeued whole. |
| Settlement.Worker.ProcessDelivery | go-smpp-gateway/consumer.go:248-339 | Every delivery is settled by exactly one operation, and only batches republish. |
| Settlement.RequeuedWholeOnlyIfAllTransient | go-smpp-gateway/consumer.go:320-328 | A batch goes back whole only if every payload failed transiently. |
| Settlement.SettledOnceIff | go-smpp-gateway/consumer.go:320-338 | Exactly the transient payloads are back on a queue, each once, if and only if no group was refused, or all payloads were transient and every group was refused. |
| Throttle.OutboundDedup.IsAlreadySubmitted | go-smpp-gateway/outbound_dedup.go:109-124 | True exactly for a non-empty id that carries the mark. |
| Throttle.OutboundDedup.MarkSubmitted | go-smpp-gateway/outbound_dedup.go:128-136 | The mark is added, except for the empty id. |
| Throttle.OutboundDedup.CheckBeforeSend | go-smpp-gateway/consumer.go:604-645 | The four checks in front of a submission, as one condition on the trimmed statuses, the batch (looked up if missing), the database status and the marks. |
| Throttle.CounterSurvivesIff | go-smpp-gateway/consumer.go:117-129 | Raising the counter is undone by no trip over the wire exactly when the configured maximum is at most 2^53. |
| Throttle.RetryIsExtracted | go-smpp-gateway/connector.go:855-859 | The republished payload is extracted by the consumer as its carried form. |
| Throttle.StepPaid | go-smpp-gateway/connector.go:833-878 | No step raises submissions so far plus submissions still possible, except an injection, by max + 1. |
| Throttle.SubmissionsBounded | go-smpp-gateway/connector.go:850-878 | Over every run a message is submitted at most (1 + max) times for each time it is injected. |
| Throttle.RetryPassesIff | go-smpp-gateway/connector.go:857-858 | A throttled message that comes round is let through exactly unless cancelled, advanced in the database or marked. |
| Throttle.NoneAfterMark | go-smpp-gateway/outbound_dedup.go:109-136 | With the mark set and no copy past its check, the message is never submitted again in any run. |
| Throttle.MarkBlocksIff | go-smpp-gateway/consumer.go:636-647 | After the mark a further submission is possible exactly if a copy is between check and submission. |
| Pool.ChannelPool.AddPendingBind | go-smpp-gateway/connector.go:183-186 | The counter goes up by one and the sessions stay. |
| Pool.ChannelPool.BindDone | go-smpp-gateway/connector.go:188-198 | The release lowers the counter, never below zero. |
| Pool.ChannelPool.RemoveSession | go-smpp-gateway/connector.go:908-920 | The loop removes the first occurrence of the session and says whether it was there. |
| Pool.ChannelPool.Reload | go-smpp-gateway/connector.go:588-632 | Sessions kept and closed, and binds asked for given live and pending. |
| Pool.StepKeepsBoundIff | go-smpp-gateway/connector.go:588-697 | A step keeps live sessions plus coming ones within the concurrency exactly when its guard holds. |
| Pool.PoolBoundIff | go-smpp-gateway/connector.go:902-996 | Over every run with constant concurrency the bound holds throughout exactly when every step is safe. |
| Pool.ReloadRefills | go-smpp-gateway/connector.go:604-621 | With no registration outstanding a reload is safe and fills the channel up exactly. |
| Pool.BoundCanBreak | go-smpp-gateway/connector.go:1201-1220 | Two runs from the start that exceed the concurrency. |
| Ledger.Account.CalculateAndCharge | backend/app/core/pricing.py:145-277 | Without a price nothing happens; price times billed units, one for RCS, leaves the balance if it covers them or the account is postpaid, and is logged or left to a summary. |
| Ledger.Account.DoRefund | backend/app/services/sms_refund.py:164-235 | Only a positive amount on a row not yet refunded is credited and logged. |
| Ledger.Account.ExecuteRefund | backend/app/services/sms_refund.py:238-296 | The three refund kinds with their eligibility; success credits exactly the selling price. |
| Ledger.Account.ExecuteRefundBatch | backend/app/services/sms_refund.py:299-397 | Successes and failures add up to the ids given, and the total is what the balance gained. |
| Ledger.ComputeRepricing | backend/app/services/batch_admin.py:143-183 | The caching loop gives the prices, costs and total difference of uncached lookups, and fails exactly when an unsent row has no price. |
| Ledger.AllMoved | backend/app/services/batch_admin.py:256-264 | The row updates, one by one, leave every unsent row of the batch moved and repriced and no other row changed. |
| Ledger.Account.SwitchChannelForUnsent | backend/app/services/batch_admin.py:186-296 | The checks in order, and on success balance, rows and log together; every refusal changes nothing. |
| Ledger.Account.PauseBatch | backend/app/services/batch_admin.py:90-106 | Only a pending or processing batch is paused. |
| Ledger.Account.ClearBatchQueue | backend/app/services/batch_admin.py:111-138 | Only a paused batch is cleared; its unsent rows are cancelled. |
| Ledger.Account.ResumeBatch | backend/app/services/batch_admin.py:351-397 | Only a paused batch resumes, after a successful switch if one is asked for; its unsent rows are queued again. |
| Ledger.UnsentIdsExact | backend/app/services/batch_admin.py:377-383 | The rows queued again are exactly the unsent ones, each once and in order. |
| LedgerLaws.BalanceIsLog | backend/app/core/pricing.py:217-277 | Over every run the balance is the opening balance plus the log, less bulk charges not yet summarized. |
| LedgerLaws.StepWorth | backend/app/services/batch_admin.py:233-281 | A step changes balance plus unrefunded prices by exactly the repricing of already refunded rows. |
| LedgerLaws.ConservedIff | backend/app/services/batch_admin.py:233-281 | Balance plus unrefunded prices is the opening balance throughout exactly as long as no switch has such a drift. |
| LedgerLaws.NoDriftWithoutRefunds | backend/app/services/batch_admin.py:55-60 | No unsent row refunded, no drift. |
| LedgerLaws.DriftHappens | backend/app/workers/batch_worker.py:690-698 | A run of two charges, a refund of a row that stays queued and a switch, after which balance plus unrefunded prices is one short. |
| LedgerLaws.PrepaidStaysSolvent | backend/app/core/pricing.py:209-234 | A prepaid balance never goes negative in any run. |
| LedgerLaws.RefundedOnce | backend/app/services/sms_refund.py:181-203 | Every message is refunded at most once, and exactly when its row says so. |
| LedgerLaws.RefundBatchIdempotent | backend/app/services/sms_refund.py:299-336 | Sending the same list of refunds again changes nothing. |
| LedgerLaws.ClearIsFinal | backend/app/services/batch_admin.py:111-138 | Clearing cancels exactly the unsent rows, and no later operation on the batch has any effect. |
| LedgerLaws.PauseThenResume | backend/app/services/batch_admin.py:90-106 | Pausing and resuming gives back the batch, except that a pending or paused one ends up processing. |
| TokenBucket.TpsLimiter.Allow | go-smpp-gateway/inbound_session.go:44-60 | Refill up to the capacity, then one token or a refusal. |
| TokenBucket.TpsLimiter.UpdateRate | go-smpp-gateway/inbound_session.go:64-72 | Rate and capacity change and tokens are only ever cut. |
| TokenBucket.AccountLimiters.GetAccountTpsLimiter | go-smpp-gateway/inbound_session.go:83-93 | All sessions of an account get the same bucket, refreshed; other accounts' buckets are untouched. |
| TokenBucket.TokensInRange | go-smpp-gateway/inbound_session.go:44-72 | Tokens stay between zero and the capacity for calls at non-decreasing times. |
| TokenBucket.WindowBound | go-smpp-gateway/inbound_session.go:44-72 | In any window the grants are at most the largest capacity plus the largest rate times its length, rate changes included. |
| TokenBucket.EverGrantsIff | go-smpp-gateway/inbound_session.go:35-60 | A new bucket ever grants anything exactly when its rate is at least one a second. |
| FixedWindow.RateLimiter.RunScript | backend/app/utils/rate_limiter.py:29-43 | The script: count, expiry on the first increment, remaining time on refusal. |
| FixedWindow.RateLimiter.AcquireSendSlot | backend/app/utils/rate_limiter.py:48-72 | A wait of zero is permission, a positive one is cut to 50..1100 ms; a limit of zero or less always allows. |
| FixedWindow.PerSecond | backend/app/utils/rate_limiter.py:29-43 | Punctual calls are granted at most max times per second key. |
| FixedWindow.PerSecondIff | backend/app/utils/rate_limiter.py:32-41 | The bound holds for all schedules up to a deadline exactly when that is less than 100 ms past the second. |
| FixedWindow.WindowBound | backend/app/utils/rate_limiter.py:29-72 | In any n seconds of caller time punctual calls are granted at most (n + 1) * max times. |
| DialGate.Gate.WaitSlot | go-smpp-gateway/tls_dialer.go:27-48 | Each recorded slot of a channel is at least 500 ms after the one before, whatever the callers do. |
| DialGate.AnyWindow | go-smpp-gateway/connector.go:155-178 | At most W / 500 + 1 slots of a channel fall into any W milliseconds. |
| Aggregation.AgreesIff | backend/app/services/reports_service.py:200-212 | A table of groups is the GROUP BY exactly when every sum is right and only groups with rows are listed. |
| Aggregation.MergedGroups | backend/app/services/reports_service.py:245-252 | Merging the groups of two exclusive conditions is the GROUP BY of their union. |
| Rollup.ByDaysIff | backend/app/services/reports_service.py:111-129 | Whole days give the half-open query exactly when no row lies between the bound and the end of the last day. |
| Rollup.BucketsPartition | backend/app/services/reports_service.py:288-306 | The SMS and RCS buckets share no row and, merged, are the report without the split. |
| Rollup.MergeOne | backend/app/services/reports_service.py:245-252 | The merging loop adds one day's groups. |
| Rollup.ReadCache | backend/app/services/reports_service.py:175-190 | Only past days are taken from the cache; all others are missing. |
| Rollup.DayPartIsGrouped | backend/app/services/reports_service.py:191-213 | Of one GROUP BY day and column over the whole span, each day's part is that day's own GROUP BY. |
| Rollup.Distribute | backend/app/services/reports_service.py:218-222 | The loop files each result row under its day, and drops rows of days that are not missing. |
| Rollup.QueryMissing | backend/app/services/reports_service.py:190-222 | One query from the first to the last missing day answers exactly the missing days, each with its own GROUP BY. |
| Rollup.FillGaps | backend/app/services/reports_service.py:223-236 | The missing days, and only they, take their share of the query, and only past ones are written back. |
| Rollup.SmsGroupRollup | backend/app/services/reports_service.py:147-259 | For any true subset of cached days the result is the GROUP BY over the whole range, and the cache stays true and never gains today. |
| DailyTable.CountMeansAll | backend/app/services/sms_daily_stats.py:26-37 | As many covered days as the range has means every day is covered, and conversely. |
| DailyTable.DailyStats.Refresh | backend/app/services/sms_daily_stats.py:54-120 | The range is deleted, rebuilt by one GROUP BY and covered now; every covered day stays true to the rows it was built from, with one entry per day and key. |
| DailyTable.RebuiltTrue | backend/app/services/sms_daily_stats.py:75-98 | The inserted groups are, for every day of the range, exactly the sums of its rows, none missing. |
| DailyTable.CompleteMeansTrue | backend/app/services/sms_daily_stats.py:15-51 | A range that passes the coverage check has, on every day, the sums of the rows of its last refresh. |
| Commission.TableIsRows | backend/app/services/staff_commission.py:70-92 | Summing the daily entries of any account, channel and status condition is summing, day by day, the rows behind them. |
| Commission.CommissionIff | backend/app/services/staff_commission.py:95-129 | For one condition: rolled-up days plus live today is the live month exactly when the earlier days earn what they earned when refreshed. |
| Commission.MonthIff | backend/app/services/staff_commission.py:95-129 | A fixed month agrees for all salespersons under every assignment exactly when each account and channel agrees over its recorded days. |
| Commission.NoneStaleIff | backend/app/services/staff_commission.py:95-129 | From every day of the range on, all totals agree exactly when no entry is stale, day by day and key by key. |
| Commission.UnchangedAgrees | backend/app/services/staff_commission.py:95-129 | If no row of a recorded day has changed, whatever their order, the two agree for every condition. |
| Commission.CoveredButStale | backend/app/services/sms_daily_stats.py:15-51 | A day refreshed too early counts as complete and its later rows are missing from the commission. |
| Commission.Accumulate | backend/app/services/staff_commission.py:29-33 | The loop adds each result to its salesperson and skips rows without one. |
| Commission.MonthlyCommission | backend/app/services/staff_commission.py:95-137 | From its own queries: the daily sums and today when the table is complete, the live month otherwise; and the live month of every salesperson in either case when no row of a covered day has changed since its refresh. |
| RetryBuffer.Buffer.BufferUnmatched | backend/app/utils/dlr_buffer.py:69-123 | First write wins for item and expiry; a foreign receipt is dropped from both. |
| RetryBuffer.Buffer.PopRetryBuffer | backend/app/utils/dlr_buffer.py:126-174 | The earliest members with their items, index entries without an item removed; if the index yields none, the first of the hash, indexed anew. |
| RetryBuffer.Buffer.RemoveRetryItem | backend/app/utils/dlr_buffer.py:177-192 | Both entries go. |
| RetryBuffer.Buffer.IncrementRetryCount | backend/app/utils/dlr_buffer.py:195-210 | The count is raised, or both entries go at the twentieth. |
| RetryBuffer.Buffer.CleanupExpired | backend/app/utils/dlr_buffer.py:221-241 | Exactly the given expired fields leave both structures. |
| RetryBuffer.StepAgreeIff | backend/app/utils/dlr_buffer.py:195-210 | An operation keeps hash and index in agreement exactly when it does not count a retry of an item already gone. |
| RetryBuffer.AgreementIff | backend/app/utils/dlr_buffer.py:69-241 | Over every run from empty, hash and index agree throughout exactly when every counted retry is safe. |
| RetryBuffer.CountsStayBelow | backend/app/utils/dlr_buffer.py:201-210 | Stored counts stay below 20 in every run. |
| RetryBuffer.ExpiryNeverExtended | backend/app/utils/dlr_buffer.py:107-112 | While a receipt stays buffered its expiry never changes. |
| RetryBuffer.PopTakesEarliest | backend/app/utils/dlr_buffer.py:132-149 | In agreement a pop changes nothing and returns the items that expire first, all of them for limit 0. |
| RetryBuffer.OrphanReachedIff | backend/app/utils/dlr_buffer.py:132-165 | A field without an index entry is out of reach of the cleanup and indexed again by a pop exactly when the index is empty and it is among the first of the hash. |
| RetryBuffer.OrphanOutlivesExpiry | backend/app/utils/dlr_buffer.py:151-165 | A run in which a removed receipt comes back through a counted retry and expires later than first given. |
| ShortLink.Links.MintToken | backend/app/utils/short_link.py:287-317 | The first draw free in Redis and in the table is reserved and inserted; clashes leave nothing behind. |
| ShortLink.Links.GenerateShared | backend/app/utils/short_link.py:340-358 | An existing slot is returned; otherwise the minted token takes it. |
| ShortLink.SameTokenForGroup | backend/app/utils/short_link.py:340-358 | All callers of a group that return, return the same token, over every interleaving, and it is stored in the table and in Redis. |
| ShortLink.GroupsApart | backend/app/utils/short_link.py:340-358 | Different groups never share a token. |
| ShortLink.MintsDistinct | backend/app/utils/short_link.py:287-317 | Distinct mints give distinct tokens, over every interleaving. |

## Left out

- JSON text, regular expressions and the GSM-7 character tables: payloads are JSON values, a table gives each character its septets, and numerals with a fraction or exponent do not occur.
- Envelope.WireNumber: the conversion of an out-of-range float64 is that of amd64; other platforms saturate.
- LongMessage.LongMessageRoundTrip: covers the UCS-2 path; a segment whose submit failed (Segmenter.SentAllIff) never arrives, and the message then stays a leftover. Inbound packed GSM-7 is not decoded by the gateway.
- Inbound.LastDistinctPartCompletes: assumes no eviction or timeout of that group meanwhile; both are separate events of the runs. So do the statements on what follows a completion, up to the sweep they speak of.
- InFlight.SweepClaimsOwnSession: leaves out the moment in which a new session is not yet known to its own callback, so that a response is looked up under none.
- Pool.PoolBoundIff: one channel at constant concurrency; sessions already handed to the delayed close are not counted as live.
- Throttle.SubmissionsBounded: counts payloads one by one; later UDH segments of a message belong to its one submission, and a repeated broker delivery counts as an injection.
- Throttle.MarkBlocksIff: marks do not expire and the mark store is reachable.
- Ledger.Account.CalculateAndCharge: one account, whole money units; what the price and cost look-ups yield is a parameter.
- TokenBucket.WindowBound: reals instead of float64.
- FixedWindow.PerSecond: the fail-open branch for an unreachable Redis is not modelled.
- DialGate.AnyWindow: bounds the recorded slots; a dial itself starts some time after its record.
- Rollup.SmsGroupRollup: cache write failures only lose entries; virtual and RCS channel sets are fixed during a call.
- Commission.MonthlyCommission: whole money units; index hints and the fallback on a failing coverage check are left out.
- RetryBuffer.Buffer.PopRetryBuffer: every item can be decoded, and one pop reads the clock once.
- ShortLink.SameTokenForGroup: Redis entries do not expire.
- Billing.Gsm7BilledAgainstSubmitted: takes the gateway's GSM-7 encoder and the billing tables to agree on every character; gosmpp is not part of this model.
- The placeholder estimate in the billed part count, Redis and MySQL failures, logging, statistics, TLS, bind authentication, router selection, configuration, the admin and front-end code: thin lookups or plumbing with only easy claims.
