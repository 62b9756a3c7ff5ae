/** The outbound splitters and the submit plan of one message (go-smpp-gateway/connector.go). */
module Segmenter {
  import opened Unicode
  import opened Packing

  /** Unpacked GSM-7 code of a character: one septet, two for an escaped one, none if it has no code. */
  type Gsm7Table = Rune -> seq<Byte>

  function Septets(table: Gsm7Table): Rune -> nat {
    (r: Rune) => |table(r)|
  }

  function Units(): Rune -> nat {
    (r: Rune) => Utf16Units(r)
  }

  predicate Encodable(text: seq<Rune>, table: Gsm7Table) {
    forall r :: r in text ==> table(r) != []
  }

  function Gsm7Encode(text: seq<Rune>, table: Gsm7Table): (bytes: seq<Byte>) {
    FlatMap(text, table)
  }

  lemma {:induction false} Gsm7EncodeWidth(text: seq<Rune>, table: Gsm7Table)
    ensures |Gsm7Encode(text, table)| == Width(text, Septets(table))
  {
    if text != [] {
      Gsm7EncodeWidth(text[1..], table);
    }
  }

  function Ucs2EncodeAll(segs: seq<seq<Rune>>): seq<seq<Byte>> {
    seq(|segs|, i requires 0 <= i < |segs| => Utf16Be(segs[i]))
  }

  lemma EncodeAllSnoc(segs: seq<seq<Rune>>, last: seq<Rune>)
    ensures Ucs2EncodeAll(segs + [last]) == Ucs2EncodeAll(segs) + [Utf16Be(last)]
  {
  }

  lemma {:induction false} Utf16BeWidth(text: seq<Rune>)
    ensures |Utf16Be(text)| == 2 * Width(text, Units())
  {
    if text != [] {
      Utf16BeWidth(text[1..]);
    }
  }

  /** splitGSM7Text; the empty result stands for Go's nil. */
  method SplitGsm7Text(text: seq<Rune>, maxSeptets: int, table: Gsm7Table) returns (segments: seq<seq<Rune>>)
    ensures text == [] || maxSeptets <= 0 || !Encodable(text, table) ==> segments == []
    ensures text != [] && maxSeptets > 0 && Encodable(text, table) ==>
              segments == Pack(text, Septets(table), maxSeptets)
  {
    segments := [];
    if text == [] || maxSeptets <= 0 {
      return;
    }
    ghost var w := Septets(table);
    var current, currentSeptets := [], 0;
    assert text[0..] == text;
    for i := 0 to |text|
      invariant Encodable(text[..i], table)
      invariant currentSeptets == Width(current, w) && (currentSeptets == 0 <==> current == [])
      invariant segments + PackFrom(current, text[i..], w, maxSeptets) == Pack(text, w, maxSeptets)
    {
      var septets := |table(text[i])|;
      if septets == 0 {
        return [];
      }
      assert text[i..][1..] == text[i + 1..];
      PackStep(segments, current, text[i..], w, maxSeptets);
      if currentSeptets > 0 && currentSeptets + septets > maxSeptets {
        segments := segments + [current];
        current, currentSeptets := [], 0;
      }
      WidthSnoc(current, text[i], w);
      current, currentSeptets := current + [text[i]], currentSeptets + septets;
    }
    if currentSeptets > 0 {
      segments := segments + [current];
    }
  }

  /** segmentUCS2Text: at least one segment, each the encoding of whole characters. */
  method SegmentUcs2Text(text: seq<Rune>, maxOctets: int) returns (segs: seq<seq<Byte>>)
    ensures segs == if text == [] then [[]] else Ucs2EncodeAll(Pack(text, Units(), maxOctets / 2))
  {
    segs := [];
    var cur: seq<Byte> := [];
    ghost var w, limit := Units(), maxOctets / 2;
    ghost var done: seq<seq<Rune>>, open: seq<Rune> := [], [];
    assert text[0..] == text;
    for i := 0 to |text|
      invariant segs == Ucs2EncodeAll(done) && cur == Utf16Be(open)
      invariant i > 0 ==> open != []
      invariant done + PackFrom(open, text[i..], w, limit) == Pack(text, w, limit)
    {
      var rb := Utf16BeChar(text[i]);
      Utf16BeWidth(open);
      assert text[i..][1..] == text[i + 1..];
      PackStep(done, open, text[i..], w, limit);
      if |cur| + |rb| > maxOctets && |cur| > 0 {
        segs := segs + [cur];
        EncodeAllSnoc(done, open);
        done := done + [open];
        cur, open := [], [];
      }
      FlatMapSnoc(open, text[i], Utf16BeChar);
      cur, open := cur + rb, open + [text[i]];
    }
    Utf16BeWidth(open);
    if |cur| > 0 {
      segs := segs + [cur];
      EncodeAllSnoc(done, open);
      done := done + [open];
      WidthPositive(open, w);
    }
    if |segs| == 0 {
      segs := segs + [[]];
    }
  }

  lemma WidthPositive(s: seq<Rune>, w: Rune -> nat)
    requires s != [] && Positive(s, w)
    ensures Width(s, w) > 0
  {
    WidthAtLeastOf(s, s[0], w);
  }

  /** Both splitters, for every text and limit: the pieces join up again and none is empty; they all fit
      exactly when each character does; and then no cut between characters needs fewer pieces. */
  lemma SplitIsCorrectAndOptimal(text: seq<Rune>, w: Rune -> nat, limit: int, other: seq<seq<Rune>>)
    ensures Flatten(Pack(text, w, limit)) == text
    ensures forall i :: 0 <= i < |Pack(text, w, limit)| ==> Pack(text, w, limit)[i] != []
    ensures (forall i :: 0 <= i < |Pack(text, w, limit)| ==> Width(Pack(text, w, limit)[i], w) <= limit)
            <==> AtMost(text, w, limit)
    ensures Flatten(other) == text && (forall i :: 0 <= i < |other| ==> Width(other[i], w) <= limit)
            ==> |Pack(text, w, limit)| <= |other|
  {
    PackFromFlatten([], text, w, limit);
    PackFitsIff(text, w, limit);
    if Flatten(other) == text && (forall i :: 0 <= i < |other| ==> Width(other[i], w) <= limit) {
      PackOptimal(text, w, limit, other);
    }
  }

  // ---- the submit plan ----

  const SM_MSG_LEN := 254
  const GSM7_SINGLE := 160
  const GSM7_PART := 153
  const UCS2_PART_OCTETS := 134
  const ESM_UDHI: Byte := 0x40

  /** Concatenation element of a segment: reference, number of parts, part number, one byte each. */
  datatype Concat = None | Concat(ref: Byte, total: Byte, part: Byte)

  datatype Pdu = Pdu(esmClass: Byte, dataCoding: Byte, udh: Concat, body: seq<Byte>)
               | PayloadTlv(data: seq<Byte>)

  datatype Options = Options(latin1Single: bool, gsm7Enabled: bool, udhSegmentation: bool)

  predicate IsLatin1(text: seq<Rune>) {
    forall r :: r in text ==> r <= 0xFF
  }

  function Latin1Byte(r: Rune): Byte {
    if r <= 0xFF then r else 0
  }

  function Latin1(text: seq<Rune>): seq<Byte>
    requires IsLatin1(text)
  {
    seq(|text|, i requires 0 <= i < |text| => Latin1Byte(text[i]))
  }

  function Single(dataCoding: Byte, body: seq<Byte>): seq<Pdu> {
    [Pdu(0, dataCoding, None, body)]
  }

  /** Numbered segments; the part and total bytes wrap at 256. */
  function Numbered(dataCoding: Byte, ref: Byte, bodies: seq<seq<Byte>>): seq<Pdu> {
    seq(|bodies|, i requires 0 <= i < |bodies| =>
      Pdu(ESM_UDHI, dataCoding, Concat(ref, |bodies| % 0x100, (i + 1) % 0x100), bodies[i]))
  }

  function Gsm7EncodeAll(segs: seq<seq<Rune>>, table: Gsm7Table): seq<seq<Byte>> {
    seq(|segs|, i requires 0 <= i < |segs| => Gsm7Encode(segs[i], table))
  }

  /** The PDUs of one message when every submit succeeds. */
  function Plan(text: seq<Rune>, o: Options, ref: Byte, table: Gsm7Table): seq<Pdu> {
    var ucs2 := Utf16Be(text);
    if o.latin1Single && IsLatin1(text) && |text| <= SM_MSG_LEN then
      Single(3, Latin1(text))
    else if o.gsm7Enabled && Encodable(text, table) then
      var gsm7 := Gsm7Encode(text, table);
      if |gsm7| <= GSM7_SINGLE then Single(0, gsm7)
      else Numbered(0, ref, Gsm7EncodeAll(Pack(text, Septets(table), GSM7_PART), table))
    else if |ucs2| <= SM_MSG_LEN then Single(8, ucs2)
    else if o.udhSegmentation then
      Numbered(8, ref, Ucs2EncodeAll(Pack(text, Units(), UCS2_PART_OCTETS / 2)))
    else [PayloadTlv(ucs2)]
  }

  /** What a submit comes to: on the wire, failed because the session closes, or failed otherwise. */
  datatype Write = Written | Closing | Refused

  /** Later segments: a closing session ends the loop, any other failure skips the segment. */
  function SentFrom(plan: seq<Pdu>, writes: nat -> Write, i: nat): seq<Pdu>
    requires i <= |plan|
    decreases |plan| - i
  {
    if i == |plan| || writes(i) == Closing then []
    else (if writes(i) == Written then [plan[i]] else []) + SentFrom(plan, writes, i + 1)
  }

  /** The PDUs that reach the wire; none when the first submit fails. */
  function Sent(plan: seq<Pdu>, writes: nat -> Write): seq<Pdu>
    requires plan != []
  {
    if writes(0) == Written then SentFrom(plan, writes, 0) else []
  }

  lemma {:induction false} SentFromAll(plan: seq<Pdu>, writes: nat -> Write, i: nat)
    requires i <= |plan|
    ensures |SentFrom(plan, writes, i)| <= |plan| - i
    ensures forall p :: p in SentFrom(plan, writes, i) ==> p in plan
    ensures |SentFrom(plan, writes, i)| == |plan| - i <==> forall k :: i <= k < |plan| ==> writes(k) == Written
    ensures |SentFrom(plan, writes, i)| == |plan| - i ==> SentFrom(plan, writes, i) == plan[i..]
    decreases |plan| - i
  {
    if i < |plan| && writes(i) != Closing {
      SentFromAll(plan, writes, i + 1);
    }
  }

  /** The whole plan is sent exactly when every submit succeeds; nothing is sent exactly when the first one fails,
      and only then does the caller get an error to repeat the message on. */
  lemma SentAllIff(plan: seq<Pdu>, writes: nat -> Write)
    requires plan != []
    ensures Sent(plan, writes) == plan <==> forall k :: 0 <= k < |plan| ==> writes(k) == Written
    ensures Sent(plan, writes) == [] <==> writes(0) != Written
    ensures forall p :: p in Sent(plan, writes) ==> p in plan
  {
    SentFromAll(plan, writes, 0);
    assert plan[0..] == plan;
  }

  lemma SentNext(sent: seq<Pdu>, plan: seq<Pdu>, writes: nat -> Write, i: nat)
    requires i < |plan|
    ensures sent + SentFrom(plan, writes, i)
            == match writes(i)
               case Written => (sent + [plan[i]]) + SentFrom(plan, writes, i + 1)
               case Refused => sent + SentFrom(plan, writes, i + 1)
               case Closing => sent
  {
  }

  method SubmitSegments(dataCoding: Byte, ref: Byte, bodies: seq<seq<Byte>>, writes: nat -> Write)
    returns (sent: seq<Pdu>, err: bool)
    requires bodies != []
    ensures sent == Sent(Numbered(dataCoding, ref, bodies), writes) && err == (writes(0) != Written)
  {
    sent, err := [], false;
    ghost var plan := Numbered(dataCoding, ref, bodies);
    for i := 0 to |bodies|
      invariant i > 0 ==> writes(0) == Written
      invariant sent + SentFrom(plan, writes, i) == SentFrom(plan, writes, 0)
    {
      SentNext(sent, plan, writes, i);
      var p := Pdu(ESM_UDHI, dataCoding, Concat(ref, |bodies| % 0x100, (i + 1) % 0x100), bodies[i]);
      var write := writes(i);
      if i == 0 && write != Written {
        return [], true;
      }
      if write == Closing {
        return;
      }
      if write == Written {
        sent := sent + [p];
      }
    }
  }

  /** SendSMS from the choice of encoding to the last submit. */
  method SendSms(text: seq<Rune>, o: Options, ref: Byte, table: Gsm7Table, writes: nat -> Write)
    returns (sent: seq<Pdu>, err: bool)
    ensures Plan(text, o, ref, table) != []
    ensures sent == Sent(Plan(text, o, ref, table), writes) && err == (writes(0) != Written)
  {
    if o.latin1Single && IsLatin1(text) && |text| <= SM_MSG_LEN {
      sent, err := SubmitOne(Single(3, Latin1(text))[0], writes);
      return;
    }
    if o.gsm7Enabled && Encodable(text, table) {
      var encoded := Gsm7Encode(text, table);
      if |encoded| <= GSM7_SINGLE {
        sent, err := SubmitOne(Single(0, encoded)[0], writes);
        return;
      }
      assert text != [];
      var segments := SplitGsm7Text(text, GSM7_PART, table);
      PackFromFlatten([], text, Septets(table), GSM7_PART);
      if |segments| > 0 {
        sent, err := SubmitSegments(0, ref, Gsm7EncodeAll(segments, table), writes);
        return;
      }
    }
    var encoded := Utf16Be(text);
    if |encoded| <= SM_MSG_LEN {
      sent, err := SubmitOne(Single(8, encoded)[0], writes);
      return;
    }
    if o.udhSegmentation {
      var segments := SegmentUcs2Text(text, UCS2_PART_OCTETS);
      PackFromFlatten([], text, Units(), UCS2_PART_OCTETS / 2);
      sent, err := SubmitSegments(8, ref, segments, writes);
      return;
    }
    sent, err := SubmitOne(PayloadTlv(encoded), writes);
  }

  method SubmitOne(p: Pdu, writes: nat -> Write) returns (sent: seq<Pdu>, err: bool)
    ensures sent == Sent([p], writes) && err == (writes(0) != Written)
  {
    if writes(0) != Written {
      return [], true;
    }
    assert SentFrom([p], writes, 1) == [];
    sent, err := [p], false;
  }
}
