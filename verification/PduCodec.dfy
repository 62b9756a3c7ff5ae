/** SMPP v3.4 framing and the submit_sm / deliver_sm bodies (go-smpp-gateway/inbound_pdu.go). */
module PduCodec {
  import opened Unicode

  type U32 = x: int | 0 <= x < 0x1_0000_0000

  type Bytes = seq<Byte>

  const HEADER_LEN := 16
  const MAX_PDU_LEN := 65536

  function Be32(n: U32): Bytes {
    [n / 0x100_0000, n / 0x1_0000 % 0x100, n / 0x100 % 0x100, n % 0x100]
  }

  function Read32(b: Bytes): U32
    requires |b| == 4
  {
    (((b[0] as int) * 0x100 + (b[1] as int)) * 0x100 + (b[2] as int)) * 0x100 + (b[3] as int)
  }

  lemma Read32Be32(n: U32)
    ensures Read32(Be32(n)) == n
  {
  }

  // ---- framing (section 3.2) ----

  datatype Pdu = Pdu(commandId: U32, status: U32, sequence: U32, body: Bytes)

  datatype ReadResult = Read(pdu: Pdu) | Failed

  function Encoded(p: Pdu): Bytes {
    Be32((HEADER_LEN + |p.body|) % 0x1_0000_0000) + Be32(p.commandId) + Be32(p.status) + Be32(p.sequence) + p.body
  }

  /** What one read takes off a stream. */
  function ReadOne(s: Bytes): (ReadResult, Bytes) {
    if |s| < HEADER_LEN then (Failed, [])
    else
      var length, rest := Read32(s[0..4]), s[HEADER_LEN..];
      if length < HEADER_LEN || length > MAX_PDU_LEN then (Failed, rest)
      else if |rest| < length - HEADER_LEN then (Failed, [])
      else (Read(Pdu(Read32(s[4..8]), Read32(s[8..12]), Read32(s[12..16]), rest[..length - HEADER_LEN])),
            rest[length - HEADER_LEN..])
  }

  /** The PDUs read until the stream fails or ends. */
  function ReadAll(s: Bytes): seq<Pdu>
    decreases |s|
  {
    var (r, rest) := ReadOne(s);
    if r.Read? then [r.pdu] + ReadAll(rest) else []
  }

  function EncodedAll(ps: seq<Pdu>): Bytes {
    if ps == [] then [] else Encoded(ps[0]) + EncodedAll(ps[1..])
  }

  /** writePDU: fills one buffer and writes it whole. */
  method WritePdu(commandId: U32, status: U32, sequence: U32, body: array<Byte>) returns (buf: array<Byte>)
    ensures fresh(buf) && buf[..] == Encoded(Pdu(commandId, status, sequence, body[..]))
  {
    var total := (HEADER_LEN + body.Length) % 0x1_0000_0000;
    var head := Be32(total) + Be32(commandId) + Be32(status) + Be32(sequence);
    buf := new Byte[HEADER_LEN + body.Length];
    assert |head| == HEADER_LEN;
    for i := 0 to HEADER_LEN
      invariant buf[..i] == head[..i]
    {
      buf[i] := head[i];
    }
    for i := 0 to body.Length
      invariant buf[..HEADER_LEN + i] == head + body[..i]
    {
      buf[HEADER_LEN + i] := body[i];
    }
    assert buf[..] == buf[..HEADER_LEN + body.Length] && body[..] == body[..body.Length];
  }

  /** The receiving end of a connection: octets that have arrived and are not yet read. */
  class Connection {
    var incoming: Bytes

    constructor (data: Bytes)
      ensures incoming == data
    {
      incoming := data;
    }

    /** io.ReadFull: a short stream is used up. */
    method ReadFull(n: nat) returns (ok: bool, data: Bytes)
      modifies this
      ensures ok == (n <= |old(incoming)|)
      ensures ok ==> data == old(incoming)[..n] && incoming == old(incoming)[n..]
      ensures !ok ==> incoming == []
    {
      ok := n <= |incoming|;
      if ok {
        data, incoming := incoming[..n], incoming[n..];
      } else {
        data, incoming := [], [];
      }
    }

    /** readPDU. */
    method ReadPdu() returns (r: ReadResult)
      modifies this
      ensures (r, incoming) == ReadOne(old(incoming))
    {
      ghost var s := incoming;
      var ok, hdr := ReadFull(HEADER_LEN);
      if !ok {
        return Failed;
      }
      assert hdr[0..4] == s[0..4] && hdr[4..8] == s[4..8] && hdr[8..12] == s[8..12] && hdr[12..16] == s[12..16];
      var commandLength := Read32(hdr[0..4]);
      if commandLength < HEADER_LEN || commandLength > MAX_PDU_LEN {
        return Failed;
      }
      var body: Bytes;
      ok, body := ReadFull(commandLength - HEADER_LEN);
      if !ok {
        return Failed;
      }
      r := Read(Pdu(Read32(hdr[4..8]), Read32(hdr[8..12]), Read32(hdr[12..16]), body));
    }
  }

  lemma EncodedParts(p: Pdu, rest: Bytes)
    ensures var s := Encoded(p) + rest;
            && |s| == HEADER_LEN + |p.body| + |rest|
            && s[0..4] == Be32((HEADER_LEN + |p.body|) % 0x1_0000_0000) && s[4..8] == Be32(p.commandId)
            && s[8..12] == Be32(p.status) && s[12..16] == Be32(p.sequence)
            && s[HEADER_LEN..] == p.body + rest
  {
  }

  /** A written PDU is read back exactly when its body has at most 65520 octets. */
  lemma ReadInvertsWrite(p: Pdu, rest: Bytes)
    ensures ReadOne(Encoded(p) + rest) == (Read(p), rest) <==> |p.body| <= MAX_PDU_LEN - HEADER_LEN
  {
    var s := Encoded(p) + rest;
    var total := (HEADER_LEN + |p.body|) % 0x1_0000_0000;
    EncodedParts(p, rest);
    Read32Be32(total);
    Read32Be32(p.commandId);
    Read32Be32(p.status);
    Read32Be32(p.sequence);
    if |p.body| <= MAX_PDU_LEN - HEADER_LEN {
      assert (p.body + rest)[..|p.body|] == p.body && (p.body + rest)[|p.body|..] == rest;
    } else {
      var (r, left) := ReadOne(s);
      assert r.Read? ==> |r.pdu.body| <= MAX_PDU_LEN - HEADER_LEN;
    }
  }

  /** Any sequence of such PDUs survives being written back to back and read again. */
  lemma {:induction false} StreamRoundTrip(ps: seq<Pdu>)
    requires forall p :: p in ps ==> |p.body| <= MAX_PDU_LEN - HEADER_LEN
    ensures ReadAll(EncodedAll(ps)) == ps
  {
    if ps != [] {
      ReadInvertsWrite(ps[0], EncodedAll(ps[1..]));
      StreamRoundTrip(ps[1..]);
    }
  }

  // ---- fields ----

  datatype Field = CString | Octets(n: nat)

  datatype Fields = Malformed | Fields(values: seq<Bytes>, rest: Bytes)

  /** Position of the first zero octet, or the length. */
  function ZeroAt(b: Bytes): (i: nat)
    ensures i <= |b| && 0 !in b[..i] && (i < |b| ==> b[i] == 0)
  {
    if b == [] || b[0] == 0 then 0 else 1 + ZeroAt(b[1..])
  }

  function ParsedFields(schema: seq<Field>, b: Bytes): Fields {
    if schema == [] then Fields([], b)
    else match schema[0] {
      case CString =>
        var i := ZeroAt(b);
        if i == |b| then Malformed else Prepend(b[..i], ParsedFields(schema[1..], b[i + 1..]))
      case Octets(n) =>
        if |b| < n then Malformed else Prepend(b[..n], ParsedFields(schema[1..], b[n..]))
    }
  }

  function Prepend(v: Bytes, f: Fields): Fields {
    if f.Malformed? then f else Fields([v] + f.values, f.rest)
  }

  predicate FieldOk(f: Field, v: Bytes) {
    match f
    case CString => 0 !in v
    case Octets(n) => |v| == n
  }

  predicate FieldsOk(schema: seq<Field>, values: seq<Bytes>) {
    |values| == |schema| && forall i :: 0 <= i < |schema| ==> FieldOk(schema[i], values[i])
  }

  function FieldBytes(f: Field, v: Bytes): Bytes {
    if f.CString? then v + [0] else v
  }

  function EncodedFields(schema: seq<Field>, values: seq<Bytes>): Bytes
    requires |values| == |schema|
  {
    if schema == [] then [] else FieldBytes(schema[0], values[0]) + EncodedFields(schema[1..], values[1..])
  }

  lemma {:induction false} EncodedSnoc(schema: seq<Field>, values: seq<Bytes>, f: Field, v: Bytes)
    requires |values| == |schema|
    ensures EncodedFields(schema + [f], values + [v]) == EncodedFields(schema, values) + FieldBytes(f, v)
  {
    var s, vs := schema + [f], values + [v];
    if schema == [] {
      assert EncodedFields(s, vs) == FieldBytes(f, v) + EncodedFields([], []) && s[1..] == [] && vs[1..] == [];
    } else {
      assert s[1..] == schema[1..] + [f] && vs[1..] == values[1..] + [v];
      EncodedSnoc(schema[1..], values[1..], f, v);
      Assoc(FieldBytes(schema[0], values[0]), EncodedFields(schema[1..], values[1..]), FieldBytes(f, v));
    }
  }

  lemma {:induction false} FieldsComplete(schema: seq<Field>, values: seq<Bytes>, rest: Bytes)
    requires FieldsOk(schema, values)
    ensures ParsedFields(schema, EncodedFields(schema, values) + rest) == Fields(values, rest)
  {
    if schema == [] {
      assert EncodedFields(schema, values) + rest == rest;
    } else {
      var tail := EncodedFields(schema[1..], values[1..]);
      assert FieldOk(schema[0], values[0]);
      FieldsComplete(schema[1..], values[1..], rest);
      Assoc(FieldBytes(schema[0], values[0]), tail, rest);
      FieldFirst(schema, values[0], tail + rest);
    }
  }

  lemma FieldFirst(schema: seq<Field>, v: Bytes, tail: Bytes)
    requires schema != [] && FieldOk(schema[0], v)
    ensures ParsedFields(schema, FieldBytes(schema[0], v) + tail) == Prepend(v, ParsedFields(schema[1..], tail))
  {
    var b := FieldBytes(schema[0], v) + tail;
    if schema[0].CString? {
      ZeroAfter(v, tail);
      assert b == v + [0] + tail;
      assert b[..|v|] == v && b[|v| + 1..] == tail;
    } else {
      assert b[..|v|] == v && b[|v|..] == tail;
    }
  }

  lemma ZeroAfter(v: Bytes, tail: Bytes)
    requires 0 !in v
    ensures ZeroAt(v + [0] + tail) == |v|
  {
    var b := v + [0] + tail;
    var i := ZeroAt(b);
    assert b[|v|] == 0;
    assert 0 in b[..|v| + 1];
    assert forall k :: 0 <= k < |v| ==> b[k] in v;
  }

  lemma {:induction false} FieldsSound(schema: seq<Field>, b: Bytes)
    ensures var f := ParsedFields(schema, b);
            f.Fields? ==> FieldsOk(schema, f.values) && b == EncodedFields(schema, f.values) + f.rest
  {
    if schema != [] {
      if schema[0].CString? {
        var i := ZeroAt(b);
        if i < |b| {
          FieldsSound(schema[1..], b[i + 1..]);
          assert b == b[..i] + [0] + b[i + 1..];
        }
      } else if schema[0].n <= |b| {
        FieldsSound(schema[1..], b[schema[0].n..]);
        assert b == b[..schema[0].n] + b[schema[0].n..];
      }
    }
  }

  // ---- submit_sm (section 4.4.1) ----

  datatype SubmitSm = SubmitSm(
    serviceType: Bytes, sourceTon: Byte, sourceNpi: Byte, sourceAddr: Bytes,
    destTon: Byte, destNpi: Byte, destAddr: Bytes,
    esmClass: Byte, protocolId: Byte, priorityFlag: Byte, scheduleDelivery: Bytes, validityPeriod: Bytes,
    registeredDelivery: Byte, replaceIfPresent: Byte, dataCoding: Byte, smDefaultMsgId: Byte, smLength: Byte,
    shortMessage: Bytes, tlvs: map<CodeUnit, Bytes>)

  datatype Submit = Rejected | Accepted(sm: SubmitSm)

  const SUBMIT_FIELDS: seq<Field> :=
    [CString, Octets(2), CString, Octets(2), CString, Octets(3), CString, CString, Octets(5)]

  function FixedOf(s: SubmitSm): seq<Bytes> {
    [s.serviceType, [s.sourceTon, s.sourceNpi], s.sourceAddr, [s.destTon, s.destNpi], s.destAddr,
     [s.esmClass, s.protocolId, s.priorityFlag], s.scheduleDelivery, s.validityPeriod,
     [s.registeredDelivery, s.replaceIfPresent, s.dataCoding, s.smDefaultMsgId, s.smLength]]
  }

  function FromFixed(v: seq<Bytes>, shortMessage: Bytes, tlvs: map<CodeUnit, Bytes>): SubmitSm
    requires |v| == 9 && |v[1]| == 2 && |v[3]| == 2 && |v[5]| == 3 && |v[8]| == 5
  {
    SubmitSm(v[0], v[1][0], v[1][1], v[2], v[3][0], v[3][1], v[4], v[5][0], v[5][1], v[5][2], v[6], v[7],
             v[8][0], v[8][1], v[8][2], v[8][3], v[8][4], shortMessage, tlvs)
  }

  /** No C string holds a zero octet, and the short message has the announced length. */
  predicate Sendable(s: SubmitSm) {
    && 0 !in s.serviceType && 0 !in s.sourceAddr && 0 !in s.destAddr
    && 0 !in s.scheduleDelivery && 0 !in s.validityPeriod
    && |s.shortMessage| == s.smLength
  }

  function EncodedSubmit(s: SubmitSm): Bytes {
    EncodedFields(SUBMIT_FIELDS, FixedOf(s)) + s.shortMessage
  }

  lemma FixedFacts(v: seq<Bytes>)
    requires FieldsOk(SUBMIT_FIELDS, v)
    ensures |v| == 9 && |v[1]| == 2 && |v[3]| == 2 && |v[5]| == 3 && |v[8]| == 5
    ensures 0 !in v[0] && 0 !in v[2] && 0 !in v[4] && 0 !in v[6] && 0 !in v[7]
  {
    assert FieldOk(SUBMIT_FIELDS[0], v[0]) && FieldOk(SUBMIT_FIELDS[1], v[1]) && FieldOk(SUBMIT_FIELDS[2], v[2]);
    assert FieldOk(SUBMIT_FIELDS[3], v[3]) && FieldOk(SUBMIT_FIELDS[4], v[4]) && FieldOk(SUBMIT_FIELDS[5], v[5]);
    assert FieldOk(SUBMIT_FIELDS[6], v[6]) && FieldOk(SUBMIT_FIELDS[7], v[7]) && FieldOk(SUBMIT_FIELDS[8], v[8]);
  }

  /** Optional parameters (section 3.2.4): scanning stops at a truncated one, and a repeated tag replaces the
      earlier value. */
  function TlvsOf(b: Bytes, before: map<CodeUnit, Bytes>): map<CodeUnit, Bytes> {
    if |b| < 4 then before
    else
      var tag, length := Word(b[0], b[1]), Word(b[2], b[3]);
      if 4 + length > |b| then before else TlvsOf(b[4 + length..], before[tag := b[4..4 + length]])
  }

  function SubmitOf(body: Bytes): Submit {
    var f := ParsedFields(SUBMIT_FIELDS, body);
    if f.Malformed? then Rejected
    else
      FieldsSound(SUBMIT_FIELDS, body);
      FixedFacts(f.values);
      var length := f.values[8][4];
      if |f.rest| < length then Rejected
      else Accepted(FromFixed(f.values, f.rest[..length], TlvsOf(f.rest[length..], map[])))
  }

  /** readCString from an offset. */
  method ReadCString(buf: Bytes, idx: nat) returns (ok: bool, s: Bytes, next: nat)
    requires idx <= |buf|
    ensures ok == (ZeroAt(buf[idx..]) < |buf| - idx)
    ensures ok ==> next <= |buf| && buf[idx..] == s + [0] + buf[next..] && 0 !in s
  {
    var end := idx;
    while end < |buf| && buf[end] != 0
      invariant idx <= end <= |buf|
      invariant end - idx + ZeroAt(buf[end..]) == ZeroAt(buf[idx..])
    {
      assert buf[end..][1..] == buf[end + 1..];
      end := end + 1;
    }
    if end == |buf| {
      return false, [], idx;
    }
    assert buf[idx..end] == buf[idx..][..ZeroAt(buf[idx..])];
    ok, s, next := true, buf[idx..end], end + 1;
  }

  /** The fields after `values` are to be read from idx on. */
  ghost predicate At(schema: seq<Field>, body: Bytes, idx: nat, values: seq<Bytes>) {
    && idx <= |body| && |values| <= |schema|
    && ParsedFields(schema, body) == PrependAll(values, ParsedFields(schema[|values|..], body[idx..]))
  }

  ghost function PrependAll(vs: seq<Bytes>, f: Fields): Fields {
    if f.Malformed? then f else Fields(vs + f.values, f.rest)
  }

  lemma AtStart(schema: seq<Field>, body: Bytes)
    ensures At(schema, body, 0, [])
  {
    assert body[0..] == body && schema[0..] == schema;
  }

  lemma AtNext(schema: seq<Field>, body: Bytes, idx: nat, values: seq<Bytes>, v: Bytes, next: nat)
    requires At(schema, body, idx, values) && |values| < |schema| && idx <= next <= |body|
    requires FieldOk(schema[|values|], v) && body[idx..] == FieldBytes(schema[|values|], v) + body[next..]
    ensures At(schema, body, next, values + [v])
  {
    var k := |values|;
    var tail := schema[k..];
    assert tail[0] == schema[k] && tail[1..] == schema[k + 1..];
    FieldFirst(tail, v, body[next..]);
    PrependTwice(values, v, ParsedFields(tail[1..], body[next..]));
  }

  lemma PrependTwice(vs: seq<Bytes>, v: Bytes, f: Fields)
    ensures PrependAll(vs, Prepend(v, f)) == PrependAll(vs + [v], f)
  {
    if f.Fields? {
      assert vs + ([v] + f.values) == (vs + [v]) + f.values;
    }
  }

  lemma AtStop(schema: seq<Field>, body: Bytes, idx: nat, values: seq<Bytes>)
    requires At(schema, body, idx, values) && |values| < |schema|
    requires match schema[|values|]
             case CString => ZeroAt(body[idx..]) == |body| - idx
             case Octets(n) => |body| - idx < n
    ensures ParsedFields(schema, body).Malformed?
  {
    assert schema[|values|..][0] == schema[|values|];
  }

  method ParseCString(body: Bytes, idx: nat, ghost values: seq<Bytes>) returns (ok: bool, s: Bytes, next: nat)
    requires At(SUBMIT_FIELDS, body, idx, values) && |values| < 9 && SUBMIT_FIELDS[|values|].CString?
    ensures ok ==> At(SUBMIT_FIELDS, body, next, values + [s])
    ensures !ok ==> SubmitOf(body).Rejected?
  {
    ok, s, next := ReadCString(body, idx);
    if ok {
      AtNext(SUBMIT_FIELDS, body, idx, values, s, next);
    } else {
      AtStop(SUBMIT_FIELDS, body, idx, values);
    }
  }

  method ParseOctets(body: Bytes, idx: nat, n: nat, ghost values: seq<Bytes>) returns (ok: bool, v: Bytes, next: nat)
    requires At(SUBMIT_FIELDS, body, idx, values) && |values| < 9 && SUBMIT_FIELDS[|values|] == Octets(n)
    ensures ok ==> |v| == n && At(SUBMIT_FIELDS, body, next, values + [v])
    ensures !ok ==> SubmitOf(body).Rejected?
  {
    if idx + n > |body| {
      AtStop(SUBMIT_FIELDS, body, idx, values);
      return false, [], idx;
    }
    ok, v, next := true, body[idx..idx + n], idx + n;
    assert body[idx..] == v + body[next..];
    AtNext(SUBMIT_FIELDS, body, idx, values, v, next);
  }

  /** Two octets of an address type, then the address. */
  method ParseAddress(body: Bytes, start: nat, ghost values: seq<Bytes>) returns (ok: bool, kind: Bytes, address: Bytes, idx: nat)
    requires At(SUBMIT_FIELDS, body, start, values) && |values| in {1, 3}
    ensures ok ==> |kind| == 2 && At(SUBMIT_FIELDS, body, idx, values + [kind] + [address])
    ensures !ok ==> SubmitOf(body).Rejected?
  {
    address := [];
    ok, kind, idx := ParseOctets(body, start, 2, values);
    if !ok { return; }
    ok, address, idx := ParseCString(body, idx, values + [kind]);
  }

  /** parseSubmitSM up to the destination address. */
  method ParseAddresses(body: Bytes)
    returns (ok: bool, serviceType: Bytes, source: Bytes, sourceAddr: Bytes, dest: Bytes, destAddr: Bytes, idx: nat,
             ghost done: seq<Bytes>)
    ensures ok ==> |source| == 2 && |dest| == 2 && At(SUBMIT_FIELDS, body, idx, done)
    ensures ok ==> done == [serviceType] + [source] + [sourceAddr] + [dest] + [destAddr]
    ensures !ok ==> SubmitOf(body).Rejected?
  {
    done := [];
    AtStart(SUBMIT_FIELDS, body);
    source, sourceAddr, dest, destAddr := [], [], [], [];
    ok, serviceType, idx := ParseCString(body, 0, done);
    if !ok { return; }
    assert [] + [serviceType] == [serviceType];
    done := [serviceType];
    ok, source, sourceAddr, idx := ParseAddress(body, idx, done);
    if !ok { return; }
    done := done + [source] + [sourceAddr];
    ok, dest, destAddr, idx := ParseAddress(body, idx, done);
    done := done + [dest] + [destAddr];
  }

  /** parseSubmitSM: total on every octet string. */
  method ParseSubmitSm(body: Bytes) returns (r: Submit)
    ensures r == SubmitOf(body)
  {
    var ok, serviceType, source, sourceAddr, dest, destAddr, idx;
    ghost var done;
    ok, serviceType, source, sourceAddr, dest, destAddr, idx, done := ParseAddresses(body);
    if !ok { return Rejected; }
    var flags, schedule, validity;
    ok, flags, idx := ParseOctets(body, idx, 3, done);
    if !ok { return Rejected; }
    done := done + [flags];
    ok, schedule, idx := ParseCString(body, idx, done);
    if !ok { return Rejected; }
    done := done + [schedule];
    ok, validity, idx := ParseCString(body, idx, done);
    if !ok { return Rejected; }
    done := done + [validity];
    r := ParseMessage(body, idx, done, serviceType, source, sourceAddr, dest, destAddr, flags, schedule, validity);
  }

  /** parseSubmitSM from registered_delivery on. */
  method ParseMessage(body: Bytes, start: nat, ghost done: seq<Bytes>,
                      serviceType: Bytes, source: Bytes, sourceAddr: Bytes, dest: Bytes, destAddr: Bytes,
                      flags: Bytes, schedule: Bytes, validity: Bytes)
    returns (r: Submit)
    requires |done| == 8 && done[0] == serviceType && done[1] == source && done[2] == sourceAddr && done[3] == dest
    requires done[4] == destAddr && done[5] == flags && done[6] == schedule && done[7] == validity
    requires |source| == 2 && |dest| == 2 && |flags| == 3
    requires At(SUBMIT_FIELDS, body, start, done)
    ensures r == SubmitOf(body)
  {
    var ok, last, idx := ParseOctets(body, start, 5, done);
    if !ok { return Rejected; }
    var smLength := last[4];
    AtEnd(body, idx, done, last);
    if idx + smLength > |body| {
      return Rejected;
    }
    var shortMessage := body[idx..idx + smLength];
    assert body[idx..][..smLength] == shortMessage && body[idx..][smLength..] == body[idx + smLength..];
    var tlvs := ParseTlvs(body, idx + smLength);
    r := Accepted(SubmitSm(serviceType, source[0], source[1], sourceAddr, dest[0], dest[1], destAddr,
                           flags[0], flags[1], flags[2], schedule, validity,
                           last[0], last[1], last[2], last[3], smLength, shortMessage, tlvs));
  }

  lemma AtEnd(body: Bytes, idx: nat, done: seq<Bytes>, last: Bytes)
    requires At(SUBMIT_FIELDS, body, idx, done + [last]) && |done| == 8
    ensures ParsedFields(SUBMIT_FIELDS, body) == Fields(done + [last], body[idx..])
  {
    var values := done + [last];
    assert SUBMIT_FIELDS[9..] == [];
    assert values + [] == values;
  }

  /** The optional parameters from an offset on. */
  method ParseTlvs(body: Bytes, start: nat) returns (tlvs: map<CodeUnit, Bytes>)
    requires start <= |body|
    ensures tlvs == TlvsOf(body[start..], map[])
  {
    tlvs := map[];
    var idx := start;
    while idx + 4 <= |body|
      invariant idx <= |body|
      invariant TlvsOf(body[idx..], tlvs) == TlvsOf(body[start..], map[])
    {
      var tag, ln := Word(body[idx], body[idx + 1]), Word(body[idx + 2], body[idx + 3]);
      if idx + 4 + ln > |body| {
        break;
      }
      assert body[idx..][4..4 + ln] == body[idx + 4..idx + 4 + ln] && body[idx..][4 + ln..] == body[idx + 4 + ln..];
      tlvs := tlvs[tag := body[idx + 4..idx + 4 + ln]];
      idx := idx + 4 + ln;
    }
  }

  /** One optional parameter; its length field has 16 bits. */
  datatype Tlv = Tlv(tag: CodeUnit, value: Bytes)

  predicate AllShort(ts: seq<Tlv>) {
    forall i :: 0 <= i < |ts| ==> |ts[i].value| < 0x10000
  }

  function EncodedTlvs(ts: seq<Tlv>): Bytes
    requires AllShort(ts)
  {
    if ts == [] then []
    else
      var t, n := ts[0], |ts[0].value|;
      [t.tag / 0x100, t.tag % 0x100, n / 0x100, n % 0x100] + t.value + EncodedTlvs(ts[1..])
  }

  /** The parameters laid over the earlier ones, one after the other. */
  function Overlaid(before: map<CodeUnit, Bytes>, ts: seq<Tlv>): map<CodeUnit, Bytes>
    decreases |ts|
  {
    if ts == [] then before else Overlaid(before[ts[0].tag := ts[0].value], ts[1..])
  }

  /** Too short for another parameter. */
  predicate Truncated(tail: Bytes) {
    |tail| < 4 || 4 + Word(tail[2], tail[3]) > |tail|
  }

  lemma TlvFirst(tag: CodeUnit, value: Bytes, rest: Bytes, before: map<CodeUnit, Bytes>)
    requires |value| < 0x10000
    ensures TlvsOf([tag / 0x100, tag % 0x100, |value| / 0x100, |value| % 0x100] + value + rest, before)
            == TlvsOf(rest, before[tag := value])
  {
    var n := |value|;
    var b := [tag / 0x100, tag % 0x100, n / 0x100, n % 0x100] + value + rest;
    assert Word(b[0], b[1]) == tag && Word(b[2], b[3]) == n;
    assert b[4..4 + n] == value && b[4 + n..] == rest;
  }

  /** Any parameters, followed by octets too short for another, are scanned to exactly those parameters, the later
      of two with one tag winning, ... */
  lemma {:induction false} TlvsComplete(ts: seq<Tlv>, tail: Bytes, before: map<CodeUnit, Bytes>)
    requires AllShort(ts) && Truncated(tail)
    ensures TlvsOf(EncodedTlvs(ts) + tail, before) == Overlaid(before, ts)
    decreases |ts|
  {
    if ts == [] {
      assert EncodedTlvs(ts) + tail == tail;
    } else {
      var t, rest := ts[0], EncodedTlvs(ts[1..]);
      TlvsComplete(ts[1..], tail, before[t.tag := t.value]);
      TlvFirst(t.tag, t.value, rest + tail, before);
      Assoc([t.tag / 0x100, t.tag % 0x100, |t.value| / 0x100, |t.value| % 0x100] + t.value, rest, tail);
    }
  }

  lemma TlvHead(b: Bytes) returns (tag: CodeUnit, value: Bytes, rest: Bytes)
    ensures Truncated(b) || (|value| < 0x10000 && |rest| < |b|
                             && b == [tag / 0x100, tag % 0x100, |value| / 0x100, |value| % 0x100] + value + rest)
  {
    tag, value, rest := 0, [], [];
    if !Truncated(b) {
      var n := Word(b[2], b[3]);
      tag, value, rest := Word(b[0], b[1]), b[4..4 + n], b[4 + n..];
      assert tag / 0x100 == b[0] && tag % 0x100 == b[1] && n / 0x100 == b[2] && n % 0x100 == b[3];
      assert b == [b[0], b[1], b[2], b[3]] + value + rest;
    }
  }

  /** ... and every octet string is of that form. */
  lemma {:induction false} TlvsSound(b: Bytes, before: map<CodeUnit, Bytes>) returns (ts: seq<Tlv>, tail: Bytes)
    ensures AllShort(ts) && Truncated(tail) && b == EncodedTlvs(ts) + tail
    ensures TlvsOf(b, before) == Overlaid(before, ts)
    decreases |b|
  {
    if Truncated(b) {
      ts, tail := [], b;
    } else {
      var tag, value, rest := TlvHead(b);
      var more;
      TlvFirst(tag, value, rest, before);
      more, tail := TlvsSound(rest, before[tag := value]);
      ts := [Tlv(tag, value)] + more;
      assert ts[1..] == more;
      Assoc([tag / 0x100, tag % 0x100, |value| / 0x100, |value| % 0x100] + value, EncodedTlvs(more), tail);
    }
  }

  /** A body is accepted as s exactly when it is the encoding of s, where no C string holds a zero octet and
      the short message has the announced length, followed by octets that scan to the parameters of s. */
  lemma AcceptedIff(body: Bytes, s: SubmitSm)
    ensures SubmitOf(body) == Accepted(s) <==>
            && Sendable(s)
            && EncodedSubmit(s) <= body
            && s.tlvs == TlvsOf(body[|EncodedSubmit(s)|..], map[])
  {
    if SubmitOf(body) == Accepted(s) {
      AcceptedIsEncoding(body, s);
    }
    if Sendable(s) && EncodedSubmit(s) <= body && s.tlvs == TlvsOf(body[|EncodedSubmit(s)|..], map[]) {
      EncodingAccepted(s, body[|EncodedSubmit(s)|..]);
      assert body == EncodedSubmit(s) + body[|EncodedSubmit(s)|..];
    }
  }

  lemma EncodingAccepted(s: SubmitSm, optional: Bytes)
    requires Sendable(s) && s.tlvs == TlvsOf(optional, map[])
    ensures SubmitOf(EncodedSubmit(s) + optional) == Accepted(s)
  {
    var v, rest := FixedOf(s), s.shortMessage + optional;
    assert FieldsOk(SUBMIT_FIELDS, v);
    FieldsComplete(SUBMIT_FIELDS, v, rest);
    Assoc(EncodedFields(SUBMIT_FIELDS, v), s.shortMessage, optional);
    assert rest[..|s.shortMessage|] == s.shortMessage && rest[|s.shortMessage|..] == optional;
  }

  lemma AcceptedIsEncoding(body: Bytes, s: SubmitSm)
    requires SubmitOf(body) == Accepted(s)
    ensures Sendable(s) && EncodedSubmit(s) <= body && s.tlvs == TlvsOf(body[|EncodedSubmit(s)|..], map[])
  {
    var f := ParsedFields(SUBMIT_FIELDS, body);
    FieldsSound(SUBMIT_FIELDS, body);
    FixedFacts(f.values);
    SameFixed(f.values, s);
    var optional := f.rest[|s.shortMessage|..];
    assert f.rest == s.shortMessage + optional;
    Assoc(EncodedFields(SUBMIT_FIELDS, f.values), s.shortMessage, optional);
    assert body == EncodedSubmit(s) + optional;
  }

  lemma SameFixed(v: seq<Bytes>, s: SubmitSm)
    requires |v| == 9 && |v[1]| == 2 && |v[3]| == 2 && |v[5]| == 3 && |v[8]| == 5
    requires s == FromFixed(v, s.shortMessage, s.tlvs)
    ensures FixedOf(s) == v
  {
    var u := FixedOf(s);
    assert u[1] == v[1] && u[3] == v[3] && u[5] == v[5] && u[8] == v[8];
  }

  // ---- deliver_sm (section 4.6.1) ----

  datatype DeliverParams = DeliverParams(sourceAddr: Bytes, destAddr: Bytes, dataCoding: Byte, esmClass: Byte,
                                         shortMessage: Bytes)

  function Cut(sm: Bytes): (cut: Bytes)
    ensures |cut| <= 254 && cut <= sm && (|cut| < 254 ==> cut == sm)
  {
    if |sm| > 254 then sm[..254] else sm
  }

  /** The message as its receiver should read it. */
  function Delivery(p: DeliverParams): SubmitSm {
    SubmitSm([], 0, 0, p.sourceAddr, 0, 0, p.destAddr, p.esmClass, 0, 0, [], [],
             0, 0, p.dataCoding, 0, |Cut(p.shortMessage)|, Cut(p.shortMessage), map[])
  }

  /** The k-th field of a body is written as these octets. */
  ghost predicate IsField(s: seq<Field>, v: seq<Bytes>, k: nat, written: Bytes) {
    k < |s| == |v| && written == FieldBytes(s[k], v[k])
  }

  /** buildDeliverSM up to the destination address. */
  method BuildAddresses(p: DeliverParams, ghost s: seq<Field>, ghost v: seq<Bytes>) returns (b: Bytes)
    requires IsField(s, v, 0, [0]) && IsField(s, v, 1, [0, 0]) && IsField(s, v, 2, p.sourceAddr + [0])
    requires IsField(s, v, 3, [0, 0]) && IsField(s, v, 4, p.destAddr + [0])
    ensures b == EncodedFields(s[..5], v[..5])
  {
    b := [];
    assert s[..0] == [] && v[..0] == [];
    Wrote(s, v, 0, [0]);
    b := b + [0];
    Wrote(s, v, 1, [0, 0]);
    b := b + [0, 0];
    Wrote(s, v, 2, p.sourceAddr + [0]);
    b := b + (p.sourceAddr + [0]);
    Wrote(s, v, 3, [0, 0]);
    b := b + [0, 0];
    Wrote(s, v, 4, p.destAddr + [0]);
    b := b + (p.destAddr + [0]);
  }

  /** ... and from there to the length of the text. */
  method BuildFlags(p: DeliverParams, length: Byte, before: Bytes, ghost s: seq<Field>, ghost v: seq<Bytes>) returns (b: Bytes)
    requires |s| == |v| == 9 && before == EncodedFields(s[..5], v[..5])
    requires IsField(s, v, 5, [p.esmClass, 0, 0]) && IsField(s, v, 6, [0]) && IsField(s, v, 7, [0])
    requires IsField(s, v, 8, [0, 0, p.dataCoding, 0, length])
    ensures b == EncodedFields(s, v)
  {
    Wrote(s, v, 5, [p.esmClass, 0, 0]);
    b := before + [p.esmClass, 0, 0];
    Wrote(s, v, 6, [0]);
    b := b + [0];
    Wrote(s, v, 7, [0]);
    b := b + [0];
    Wrote(s, v, 8, [0, 0, p.dataCoding, 0, length]);
    b := b + [0, 0, p.dataCoding, 0, length];
    assert s[..9] == s && v[..9] == v;
  }

  /** buildDeliverSM, one write after the other. */
  method BuildDeliverSm(p: DeliverParams) returns (b: Bytes)
    ensures b == EncodedSubmit(Delivery(p))
  {
    ghost var s, v := SUBMIT_FIELDS, FixedOf(Delivery(p));
    b := BuildAddresses(p, s, v);
    var shortMessage := p.shortMessage;
    if |shortMessage| > 254 {
      shortMessage := shortMessage[..254];
    }
    b := BuildFlags(p, |shortMessage|, b, s, v);
    b := b + shortMessage;
  }

  lemma Wrote(s: seq<Field>, v: seq<Bytes>, k: nat, written: Bytes)
    requires IsField(s, v, k, written)
    ensures EncodedFields(s[..k + 1], v[..k + 1]) == EncodedFields(s[..k], v[..k]) + written
  {
    assert s[..k + 1] == s[..k] + [s[k]] && v[..k + 1] == v[..k] + [v[k]];
    EncodedSnoc(s[..k], v[..k], s[k], v[k]);
  }

  /** A built deliver_sm is read as the sender meant it, its text cut to 254 octets, exactly when neither
      address contains a zero octet. */
  lemma DeliverRoundTrip(p: DeliverParams)
    ensures SubmitOf(EncodedSubmit(Delivery(p))) == Accepted(Delivery(p)) <==> 0 !in p.sourceAddr && 0 !in p.destAddr
  {
    var s := Delivery(p);
    AcceptedIff(EncodedSubmit(s), s);
    assert EncodedSubmit(s)[|EncodedSubmit(s)|..] == [];
  }
}
