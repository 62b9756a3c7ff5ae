/** A long message from the sender's submit plan, over the wire, to the joined text. */
module LongMessage {
  import opened Unicode
  import opened Packing
  import opened Segmenter
  import opened Udh
  import opened Reassembly
  import opened Inbound

  /** What handleSubmitSM makes of a short message: a segment to buffer, or a text of its own. */
  datatype Arrival = Part(ci: ConcatInfo, text: seq<Byte>) | Whole(text: seq<Byte>)

  /** Tag of the message_payload parameter. */
  const MESSAGE_PAYLOAD: CodeUnit := 0x0424

  predicate HasUdhi(esmClass: Byte) {
    esmClass / 0x40 % 2 == 1
  }

  /** A header in short_message is looked at even when message_payload is present, and one that does not number
      a segment hides it; otherwise a non-empty message_payload replaces short_message. */
  function Classify(esmClass: Byte, dataCoding: Byte, shortMessage: seq<Byte>, tlvs: map<CodeUnit, seq<Byte>>): Arrival {
    if HasUdhi(esmClass) && |shortMessage| > 0 then
      var (ci, payload) := Parsed(shortMessage);
      var text := Decoded(payload, dataCoding);
      if ci.hasConcat && ci.total > 1 && 1 <= ci.part <= ci.total then Part(ci, text) else Whole(text)
    else if MESSAGE_PAYLOAD in tlvs && tlvs[MESSAGE_PAYLOAD] != [] then Whole(Decoded(tlvs[MESSAGE_PAYLOAD], dataCoding))
    else Whole(Decoded(shortMessage, dataCoding))
  }

  /** The decoding of handleSubmitSM. */
  method Receive(esmClass: Byte, dataCoding: Byte, shortMessage: seq<Byte>, tlvs: map<CodeUnit, seq<Byte>>) returns (a: Arrival)
    ensures a == Classify(esmClass, dataCoding, shortMessage, tlvs)
  {
    var rawMsg := shortMessage;
    if MESSAGE_PAYLOAD in tlvs && |tlvs[MESSAGE_PAYLOAD]| > 0 {
      rawMsg := tlvs[MESSAGE_PAYLOAD];
    }
    if HasUdhi(esmClass) && |shortMessage| > 0 {
      var ci, payload := ParseUdh(shortMessage);
      var segText := DecodeShortMessage(payload, dataCoding);
      if ci.hasConcat && ci.total > 1 && ci.part >= 1 && ci.part <= ci.total {
        return Part(ci, segText);
      }
      rawMsg := payload;
    }
    var text := DecodeShortMessage(rawMsg, dataCoding);
    a := Whole(text);
  }

  /** The short_message octets of a planned segment. */
  function OnWire(p: Pdu): seq<Byte>
    requires p.Pdu?
  {
    if p.udh.Concat? then ConcatHeader(p.udh.ref, p.udh.total, p.udh.part) + p.body else p.body
  }

  /** A planned PDU as its receiver takes it. */
  function Received(p: Pdu): Arrival {
    if p.Pdu? then Classify(p.esmClass, p.dataCoding, OnWire(p), map[])
    else Classify(0, 8, [], map[MESSAGE_PAYLOAD := p.data])
  }

  function Arrivals(plan: seq<Pdu>): seq<Arrival> {
    seq(|plan|, i requires 0 <= i < |plan| => Received(plan[i]))
  }

  /** The event is the arrival of one of the planned segments. */
  predicate CameFrom(e: Event, plan: seq<Pdu>) {
    e.Segment? && Part(e.ci, e.text) in Arrivals(plan)
  }

  /** The texts that need UDH segments: UCS-2 and more than 254 octets. */
  predicate NeedsSegments(text: seq<Rune>, o: Options, table: Gsm7Table) {
    !o.latin1Single && !(o.gsm7Enabled && Encodable(text, table)) && o.udhSegmentation && |Utf16Be(text)| > SM_MSG_LEN
  }

  lemma NumberedSegmentReceived(ref: Byte, total: Byte, part: Byte, body: seq<Byte>)
    requires total > 1 && 1 <= part <= total
    ensures Classify(ESM_UDHI, 8, ConcatHeader(ref, total, part) + body, map[]) ==
            Part(ConcatInfo(ref, total, part, true), Decoded(body, 8))
  {
    var sm := ConcatHeader(ref, total, part) + body;
    assert HasUdhi(ESM_UDHI) && |sm| > 0;
    ConcatHeaderRoundTrip(ref, total, part, body);
    assert Parsed(sm) == (ConcatInfo(ref, total, part, true), body);
  }

  /** A planned segment is received as what it carries, unless there are too many to number. */
  lemma SegmentReceived(ref: Byte, segs: seq<seq<Rune>>, j: nat)
    requires j < |segs| && 2 <= |segs| <= 255
    ensures var p := Numbered(8, ref, Ucs2EncodeAll(segs))[j];
            p.Pdu? && Received(p) == Part(ConcatInfo(ref, |segs|, j + 1, true), Utf8(SeenPerUnit(segs[j])))
  {
    var total: Byte, part: Byte := |segs|, j + 1;
    var p := Numbered(8, ref, Ucs2EncodeAll(segs))[j];
    assert p == Pdu(ESM_UDHI, 8, Concat(ref, total, part), Utf16Be(segs[j]));
    assert OnWire(p) == ConcatHeader(ref, total, part) + Utf16Be(segs[j]);
    NumberedSegmentReceived(ref, total, part, Utf16Be(segs[j]));
    DecodeRoundTrip(segs[j]);
  }

  /** Parts that each hold their own segment join to the whole text. */
  lemma {:induction false} JoinedSegments(parts: map<Byte, seq<Byte>>, segs: seq<seq<Rune>>, n: Byte)
    requires n <= |segs|
    requires forall p: Byte :: 1 <= p <= n ==> p in parts && parts[p] == Utf8(SeenPerUnit(segs[p - 1]))
    ensures Joined(parts, n) == Utf8(SeenPerUnit(Flatten(segs[..n])))
  {
    if n == 0 {
      assert segs[..0] == [];
    } else {
      JoinedSegments(parts, segs, n - 1);
      var front, last := segs[..n - 1], segs[n - 1];
      assert segs[..n] == front + [last];
      FlattenSnoc(front, last);
      FlatMapConcat(Flatten(front), last, SeenAs);
      FlatMapConcat(SeenPerUnit(Flatten(front)), SeenPerUnit(last), Utf8Char);
      assert Joined(parts, n) == Joined(parts, n - 1) + parts[n];
    }
  }

  lemma {:induction false} FlattenSnoc(segs: seq<seq<Rune>>, last: seq<Rune>)
    ensures Flatten(segs + [last]) == Flatten(segs) + last
  {
    if segs == [] {
      assert segs + [last] == [last] && Flatten([last]) == last + Flatten([]);
    } else {
      FlattenSnoc(segs[1..], last);
      assert (segs + [last])[0] == segs[0] && (segs + [last])[1..] == segs[1..] + [last];
      Assoc(segs[0], Flatten(segs[1..]), last);
    }
  }

  /** Each part holds its own segment's text. */
  ghost predicate FromPlan(parts: map<Byte, seq<Byte>>, segs: seq<seq<Rune>>)
    requires |segs| <= 255
  {
    forall p :: p in parts ==> IsPart(p, |segs|) && parts[p] == Utf8(SeenPerUnit(segs[p - 1]))
  }

  /** Whatever concerns the conversation is a segment of the plan. */
  ghost predicate AllPlanned(events: seq<Event>, key: string, plan: seq<Pdu>) {
    forall i :: 0 <= i < |events| && Concerns(events[i], key) ==> CameFrom(events[i], plan)
  }

  function NumberedTexts(ref: Byte, segs: seq<seq<Rune>>): seq<Arrival>
    requires |segs| <= 255
  {
    seq(|segs|, j requires 0 <= j < |segs| => Part(ConcatInfo(ref, |segs|, j + 1, true), Utf8(SeenPerUnit(segs[j]))))
  }

  lemma ArrivalsOfPlan(ref: Byte, segs: seq<seq<Rune>>)
    requires 2 <= |segs| <= 255
    ensures Arrivals(Numbered(8, ref, Ucs2EncodeAll(segs))) == NumberedTexts(ref, segs)
  {
    forall j | 0 <= j < |segs|
      ensures Received(Numbered(8, ref, Ucs2EncodeAll(segs))[j]) == NumberedTexts(ref, segs)[j]
    {
      SegmentReceived(ref, segs, j);
    }
  }

  lemma SegmentFromPlan(ref: Byte, segs: seq<seq<Rune>>, e: Event)
    requires 2 <= |segs| <= 255 && CameFrom(e, Numbered(8, ref, Ucs2EncodeAll(segs)))
    ensures IsPart(e.ci.part, |segs|) && e.text == Utf8(SeenPerUnit(segs[e.ci.part - 1]))
  {
    ArrivalsOfPlan(ref, segs);
    var j :| 0 <= j < |segs| && NumberedTexts(ref, segs)[j] == Part(e.ci, e.text);
  }

  lemma {:induction false} CollectedFromPlan(ref: Byte, segs: seq<seq<Rune>>, events: seq<Event>, key: string, n: nat)
    requires 2 <= |segs| <= 255 && n <= |events| && AllPlanned(events, key, Numbered(8, ref, Ucs2EncodeAll(segs)))
    ensures FromPlan(Collected(events, key, n), segs)
  {
    if n > 0 {
      CollectedFromPlan(ref, segs, events, key, n - 1);
      if Concerns(events[n - 1], key) {
        FromPlanNext(ref, segs, Collected(events, key, n - 1), events[n - 1]);
      }
    }
  }

  lemma FromPlanNext(ref: Byte, segs: seq<seq<Rune>>, parts: map<Byte, seq<Byte>>, e: Event)
    requires 2 <= |segs| <= 255 && FromPlan(parts, segs) && CameFrom(e, Numbered(8, ref, Ucs2EncodeAll(segs)))
    ensures FromPlan(parts[e.ci.part := e.text], segs)
  {
    SegmentFromPlan(ref, segs, e);
  }

  lemma {:induction false} ProgressFromPlan(ref: Byte, segs: seq<seq<Rune>>, events: seq<Event>, key: string, n: nat)
    requires 2 <= |segs| <= 254 && n <= |events| && AllPlanned(events, key, Numbered(8, ref, Ucs2EncodeAll(segs)))
    ensures FromPlan(ProgressAt(events, key, |segs|, n).parts, segs)
  {
    if n > 0 {
      ProgressFromPlan(ref, segs, events, key, n - 1);
      if Concerns(events[n - 1], key) {
        FromPlanNext(ref, segs, ProgressAt(events, key, |segs|, n - 1).parts, events[n - 1]);
      }
    }
  }

  function Segments(text: seq<Rune>): seq<seq<Rune>> {
    Pack(text, Units(), UCS2_PART_OCTETS / 2)
  }

  lemma PlanIsNumbered(text: seq<Rune>, o: Options, ref: Byte, table: Gsm7Table)
    requires NeedsSegments(text, o, table)
    ensures Plan(text, o, ref, table) == Numbered(8, ref, Ucs2EncodeAll(Segments(text)))
    ensures |Plan(text, o, ref, table)| == |Segments(text)|
  {
  }

  lemma SegmentsJoin(text: seq<Rune>)
    ensures Flatten(Segments(text)) == text
    ensures forall i :: 0 <= i < |Segments(text)| ==> Segments(text)[i] != []
  {
    SplitIsCorrectAndOptimal(text, Units(), UCS2_PART_OCTETS / 2, []);
  }

  /** As many parts of the plan as there are segments join to the whole text, as decoding shows it. */
  lemma PartsJoinToText(text: seq<Rune>, parts: map<Byte, seq<Byte>>)
    requires 2 <= |Segments(text)| <= 254 && FromPlan(parts, Segments(text)) && |parts| >= |Segments(text)|
    ensures Joined(parts, |Segments(text)|) == Utf8(SeenPerUnit(text))
  {
    var segs := Segments(text);
    CollectedAll(parts, |segs|);
    JoinedSegments(parts, segs, |segs|);
    SegmentsJoin(text);
    assert segs[..|segs|] == segs;
  }

  lemma CollectedAll(parts: map<Byte, seq<Byte>>, total: Byte)
    requires Within(parts.Keys, total) && |parts| >= total
    ensures forall p: Byte :: 1 <= p <= total ==> p in parts
  {
    PartsPigeonhole(parts.Keys, total);
    assert |parts| == |parts.Keys|;
    forall p: Byte | 1 <= p <= total ensures p in parts {
      assert IsPart(p, total);
      assert p in PartNumbers(total);
    }
  }

  /** The round trip of a long UCS-2 message of up to 254 segments: delivered in any order and with any
      duplicates, among any other traffic, it is first forwarded when the last distinct segment is in. The text
      forwarded is the original exactly when every character lies in the BMP. */
  lemma LongMessageRoundTrip(text: seq<Rune>, o: Options, ref: Byte, table: Gsm7Table,
                             bs: seq<Buffer>, events: seq<Event>, rs: seq<Outcome>, key: string, last: nat)
    requires NeedsSegments(text, o, table) && |Plan(text, o, ref, table)| <= 254
    requires Conversation(bs, events, rs, key, |Plan(text, o, ref, table)|)
    requires AllPlanned(events, key, Plan(text, o, ref, table))
    requires last < |events|
    requires |Collected(events, key, last)| < |Plan(text, o, ref, table)| <= |Collected(events, key, last + 1)|
    ensures Completed(rs[last], RoundId(events, key, last + 1), Utf8(SeenPerUnit(text)))
    ensures rs[last].r.job.message == Utf8(text) <==> AllBmp(text)
    ensures forall i :: 0 <= i < last && Concerns(events[i], key) ==> rs[i] == Added(Waiting(RoundId(events, key, last + 1)))
  {
    PlanIsNumbered(text, o, ref, table);
    LastDistinctPartCompletes(bs, events, rs, key, |Segments(text)|, last);
    CollectedFromPlan(ref, Segments(text), events, key, last + 1);
    PartsJoinToText(text, Collected(events, key, last + 1));
    SeenPerUnitFaithful(text);
  }

  /** Over the whole conversation the message is forwarded as often as its segments arrive completely, round by
      round: every job, the first and any later one, carries the same text. */
  lemma EveryForwardingIsTheText(text: seq<Rune>, o: Options, ref: Byte, table: Gsm7Table,
                                 bs: seq<Buffer>, events: seq<Event>, rs: seq<Outcome>, key: string, i: nat)
    requires NeedsSegments(text, o, table) && |Plan(text, o, ref, table)| <= 254
    requires Conversation(bs, events, rs, key, |Plan(text, o, ref, table)|)
    requires AllPlanned(events, key, Plan(text, o, ref, table)) && i < |events| && ReadyAt(events, rs, key, i)
    ensures rs[i].r.job.message == Utf8(SeenPerUnit(text))
    ensures Forwarded(events, rs, key, |events|) == ProgressAt(events, key, |Plan(text, o, ref, table)|, |events|).rounds
  {
    PlanIsNumbered(text, o, ref, table);
    var total := |Segments(text)|;
    var p := ProgressAt(events, key, total, i);
    RoundsForwarded(bs, events, rs, key, total, i);
    RoundsForwarded(bs, events, rs, key, total, |events|);
    RoundStep(bs, events, rs, key, total, i);
    ProgressFromPlan(ref, Segments(text), events, key, i);
    FromPlanNext(ref, Segments(text), p.parts, events[i]);
    PartsJoinToText(text, p.parts[events[i].ci.part := events[i].text]);
  }

  lemma {:induction false} TextNotEmpty(s: seq<Rune>)
    ensures |Utf8(SeenPerUnit(s))| >= |s|
  {
    SeenPerUnitLength(s);
    if s != [] {
      TextNotEmpty(s[1..]);
      SeenPerUnitLength(s[1..]);
    }
  }

  /** The octets of the first n segments' texts. */
  function Octets(segs: seq<seq<Rune>>, n: nat): nat
    requires n <= |segs|
  {
    if n == 0 then 0 else Octets(segs, n - 1) + |Utf8(SeenPerUnit(segs[n - 1]))|
  }

  lemma {:induction false} OctetsOfText(segs: seq<seq<Rune>>, n: nat)
    requires n <= |segs|
    ensures Octets(segs, n) == |Utf8(SeenPerUnit(Flatten(segs[..n])))|
  {
    if n > 0 {
      OctetsOfText(segs, n - 1);
      var front, last := segs[..n - 1], segs[n - 1];
      assert segs[..n] == front + [last];
      FlattenSnoc(front, last);
      FlatMapConcat(Flatten(front), last, SeenAs);
      FlatMapConcat(SeenPerUnit(Flatten(front)), SeenPerUnit(last), Utf8Char);
    } else {
      assert segs[..0] == [];
    }
  }

  /** Joining some of the parts gives at most the octets of all of them, ... */
  lemma {:induction false} PartsAtMost(parts: map<Byte, seq<Byte>>, segs: seq<seq<Rune>>, n: Byte)
    requires n <= |segs| <= 255 && FromPlan(parts, segs)
    ensures |Joined(parts, n)| <= Octets(segs, n)
  {
    if n > 0 {
      PartsAtMost(parts, segs, n - 1);
    }
  }

  /** ... and fewer if one is missing. */
  lemma {:induction false} PartsShorter(parts: map<Byte, seq<Byte>>, segs: seq<seq<Rune>>, n: Byte, missing: Byte)
    requires 1 <= missing <= n <= |segs| <= 255 && FromPlan(parts, segs) && missing !in parts && segs[missing - 1] != []
    ensures |Joined(parts, n)| < Octets(segs, n)
  {
    if n == missing {
      PartsAtMost(parts, segs, n - 1);
      TextNotEmpty(segs[n - 1]);
    } else {
      PartsShorter(parts, segs, n - 1, missing);
    }
  }

  /** What is left of a message after its last completion is forwarded by the sweep that finds it expired: a
      second, strictly shorter text under its own id. */
  lemma LeftoverIsTruncated(text: seq<Rune>, o: Options, ref: Byte, table: Gsm7Table,
                            bs: seq<Buffer>, events: seq<Event>, rs: seq<Outcome>, key: string, at: int)
    requires NeedsSegments(text, o, table) && |Plan(text, o, ref, table)| <= 254
    requires Conversation(bs, events, rs, key, |Plan(text, o, ref, table)|)
    requires AllPlanned(events, key, Plan(text, o, ref, table))
    requires key in bs[|events|].groups && Expired(bs[|events|].groups[key], at) && Enabled(bs[|events|], Sweep(at))
    ensures var o := Apply(bs[|events|], Sweep(at)).1;
            key in o.flushed && |o.flushed[key].message| < |Utf8(SeenPerUnit(text))|
  {
    PlanIsNumbered(text, o, ref, table);
    var segs := Segments(text);
    var parts := ProgressAt(events, key, |segs|, |events|).parts;
    LeftoverSwept(bs, events, rs, key, |segs|, at);
    ProgressFromPlan(ref, segs, events, key, |events|);
    SegmentsJoin(text);
    assert segs[..|segs|] == segs;
    OctetsOfText(segs, |segs|);
    SomeMissing(parts, |segs|);
    var p: Byte :| 1 <= p <= |segs| && p !in parts;
    PartsShorter(parts, segs, |segs|, p);
  }

  lemma SomeMissing(parts: map<Byte, seq<Byte>>, total: Byte)
    requires |parts| < total
    ensures exists p: Byte :: 1 <= p <= total && p !in parts
  {
    PartNumbersSize(total);
    assert |parts.Keys| == |parts|;
    if forall p: Byte :: 1 <= p <= total ==> p in parts {
      SubsetSize(PartNumbers(total), parts.Keys);
    }
  }
}
