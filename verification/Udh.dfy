/** The User Data Header of a segment (3GPP TS 23.040 section 9.2.3.24) and the decoding of short_message:
    parseUDH and decodeShortMessage, with the encoder they invert. */
module Udh {
  import opened Unicode

  /** hasConcat false means no concatenation element was found. */
  datatype ConcatInfo = ConcatInfo(ref: nat, total: Byte, part: Byte, hasConcat: bool)

  const NO_CONCAT := ConcatInfo(0, 0, 0, false)

  /** One information element. */
  datatype Ie = Ie(id: Byte, data: seq<Byte>)

  /** The two concatenation elements: 8-bit reference (9.2.3.24.1) and 16-bit reference (9.2.3.24.8). */
  predicate IsConcat(e: Ie) {
    (e.id == 0x00 && |e.data| == 3) || (e.id == 0x08 && |e.data| == 4)
  }

  function InfoOf(e: Ie): ConcatInfo
    requires IsConcat(e)
  {
    if e.id == 0x00 then ConcatInfo(e.data[0], e.data[1], e.data[2], true)
    else ConcatInfo(Word(e.data[0], e.data[1]), e.data[2], e.data[3], true)
  }

  function EncodeIes(ies: seq<Ie>): seq<Byte>
    requires forall e :: e in ies ==> |e.data| < 0x100
  {
    if ies == [] then [] else [ies[0].id, |ies[0].data|] + ies[0].data + EncodeIes(ies[1..])
  }

  /** The last concatenation element decides. */
  function LastConcat(ies: seq<Ie>, before: ConcatInfo): ConcatInfo
    decreases |ies|
  {
    if ies == [] then before
    else if IsConcat(ies[|ies| - 1]) then InfoOf(ies[|ies| - 1])
    else LastConcat(ies[..|ies| - 1], before)
  }

  /** What scanning the rest of a header yields; a truncated element ends it. */
  function Scan(udh: seq<Byte>, ci: ConcatInfo): ConcatInfo {
    if |udh| < 2 || 2 + udh[1] > |udh| then ci
    else
      var e := Ie(udh[0], udh[2..2 + udh[1]]);
      Scan(udh[2 + udh[1]..], if IsConcat(e) then InfoOf(e) else ci)
  }

  function Parsed(sm: seq<Byte>): (ConcatInfo, seq<Byte>) {
    if sm == [] || 1 + sm[0] > |sm| then (NO_CONCAT, sm)
    else (Scan(sm[1..1 + sm[0]], NO_CONCAT), sm[1 + sm[0]..])
  }

  /** parseUDH: never out of range, and a header longer than the message leaves it untouched. */
  method ParseUdh(sm: seq<Byte>) returns (ci: ConcatInfo, payload: seq<Byte>)
    ensures (ci, payload) == Parsed(sm)
  {
    ci := NO_CONCAT;
    if |sm| < 1 {
      return ci, sm;
    }
    var udhl := sm[0];
    if 1 + udhl > |sm| {
      return ci, sm;
    }
    var udh := sm[1..1 + udhl];
    payload := sm[1 + udhl..];
    var i := 0;
    assert udh[0..] == udh;
    while i + 2 <= |udh|
      invariant 0 <= i <= |udh|
      invariant Scan(udh[i..], ci) == Scan(udh, NO_CONCAT)
    {
      var iei, iedl := udh[i], udh[i + 1];
      if i + 2 + iedl > |udh| {
        break;
      }
      var d := udh[i + 2..i + 2 + iedl];
      assert udh[i..][2..2 + iedl] == d && udh[i..][2 + iedl..] == udh[i + 2 + iedl..];
      if iei == 0x00 && iedl == 3 {
        ci := ConcatInfo(d[0], d[1], d[2], true);
      } else if iei == 0x08 && iedl == 4 {
        ci := ConcatInfo(Word(d[0], d[1]), d[2], d[3], true);
      }
      i := i + 2 + iedl;
    }
  }

  lemma {:induction false} ScanEncoded(ies: seq<Ie>, ci: ConcatInfo)
    requires forall e :: e in ies ==> |e.data| < 0x100
    ensures Scan(EncodeIes(ies), ci) == LastConcat(ies, ci)
  {
    if ies != [] {
      var e, rest := ies[0], ies[1..];
      var bytes := EncodeIes(ies);
      assert bytes[2..2 + |e.data|] == e.data && bytes[2 + |e.data|..] == EncodeIes(rest);
      var next := if IsConcat(e) then InfoOf(e) else ci;
      ScanEncoded(rest, next);
      LastConcatCons(e, rest, ci);
      assert ies == [e] + rest;
    }
  }

  lemma {:induction false} LastConcatCons(e: Ie, rest: seq<Ie>, ci: ConcatInfo)
    ensures LastConcat([e] + rest, ci) == LastConcat(rest, if IsConcat(e) then InfoOf(e) else ci)
    decreases |rest|
  {
    var all := [e] + rest;
    if rest == [] {
      assert all[..|all| - 1] == [];
    } else {
      assert all[|all| - 1] == rest[|rest| - 1];
      assert all[..|all| - 1] == [e] + rest[..|rest| - 1];
      LastConcatCons(e, rest[..|rest| - 1], ci);
    }
  }

  /** Any well-formed header in front of any payload: the header comes off whole, and its last
      concatenation element is what is reported. */
  lemma ParseInvertsEncode(ies: seq<Ie>, payload: seq<Byte>)
    requires forall e :: e in ies ==> |e.data| < 0x100
    requires |EncodeIes(ies)| < 0x100
    ensures Parsed([|EncodeIes(ies)|] + EncodeIes(ies) + payload) == (LastConcat(ies, NO_CONCAT), payload)
  {
    var udh := EncodeIes(ies);
    var sm := [|udh|] + udh + payload;
    assert sm[1..1 + |udh|] == udh && sm[1 + |udh|..] == payload;
    ScanEncoded(ies, NO_CONCAT);
  }

  /** The six bytes the gateway puts before each of its own segments. */
  function ConcatHeader(ref: Byte, total: Byte, part: Byte): seq<Byte> {
    [0x05, 0x00, 0x03, ref, total, part]
  }

  lemma ConcatHeaderRoundTrip(ref: Byte, total: Byte, part: Byte, payload: seq<Byte>)
    ensures Parsed(ConcatHeader(ref, total, part) + payload) == (ConcatInfo(ref, total, part, true), payload)
  {
    var ies := [Ie(0x00, [ref, total, part])];
    assert EncodeIes(ies) == [0x00, 0x03] + [ref, total, part] + EncodeIes(ies[1..]);
    assert [|EncodeIes(ies)|] + EncodeIes(ies) == ConcatHeader(ref, total, part);
    ParseInvertsEncode(ies, payload);
  }

  // ---- decoding ----

  function UnitsOf(raw: seq<Byte>): seq<CodeUnit>
    requires |raw| % 2 == 0
  {
    if raw == [] then [] else [Word(raw[0], raw[1])] + UnitsOf(raw[2..])
  }

  function RunesOf(units: seq<CodeUnit>): seq<Rune> {
    seq(|units|, i requires 0 <= i < |units| => UnitAsRune(units[i]))
  }

  /** The Go string made of a short message. */
  function Decoded(raw: seq<Byte>, dataCoding: Byte): seq<Byte> {
    if dataCoding == 0x08 && |raw| % 2 == 0 then Utf8(RunesOf(UnitsOf(raw))) else raw
  }

  lemma RunesOfConcat(a: seq<CodeUnit>, b: seq<CodeUnit>)
    ensures RunesOf(a + b) == RunesOf(a) + RunesOf(b)
  {
  }

  /** decodeShortMessage. */
  method DecodeShortMessage(raw: seq<Byte>, dataCoding: Byte) returns (text: seq<Byte>)
    ensures text == Decoded(raw, dataCoding)
  {
    if dataCoding != 0x08 || |raw| % 2 != 0 {
      return raw;
    }
    var out: seq<Rune> := [];
    var i := 0;
    assert raw[0..] == raw;
    while i + 1 < |raw|
      invariant 0 <= i <= |raw| && i % 2 == 0
      invariant out + RunesOf(UnitsOf(raw[i..])) == RunesOf(UnitsOf(raw))
    {
      var unit := Word(raw[i], raw[i + 1]);
      assert raw[i..][2..] == raw[i + 2..];
      assert UnitsOf(raw[i..]) == [unit] + UnitsOf(raw[i + 2..]);
      RunesOfConcat([unit], UnitsOf(raw[i + 2..]));
      assert RunesOf([unit]) == [UnitAsRune(unit)];
      out := out + [UnitAsRune(unit)];
      i := i + 2;
    }
    assert raw[i..] == [] && UnitsOf([]) == [];
    assert out == RunesOf(UnitsOf(raw));
    text := Utf8(out);
  }

  lemma UnitsOfCons(high: Byte, low: Byte, tail: seq<Byte>)
    requires |tail| % 2 == 0
    ensures UnitsOf([high, low] + tail) == [Word(high, low)] + UnitsOf(tail)
  {
    assert ([high, low] + tail)[2..] == tail;
  }

  lemma WordOfHalves(u: CodeUnit)
    ensures Word(u / 0x100, u % 0x100) == u
  {
  }

  lemma {:induction false} UnitsOfBigEndian(units: seq<CodeUnit>, rest: seq<Byte>)
    requires |rest| % 2 == 0
    ensures UnitsOf(BigEndian(units) + rest) == units + UnitsOf(rest)
  {
    if units == [] {
      assert BigEndian(units) + rest == rest;
    } else {
      var high, low := units[0] / 0x100, units[0] % 0x100;
      var tail := BigEndian(units[1..]) + rest;
      WordOfHalves(units[0]);
      UnitsOfBigEndian(units[1..], rest);
      UnitsOfCons(high, low, tail);
      assert BigEndian(units) + rest == [high, low] + tail;
    }
  }

  lemma {:induction false} UnitsOfText(text: seq<Rune>)
    ensures |Utf16Be(text)| % 2 == 0
    ensures RunesOf(UnitsOf(Utf16Be(text))) == SeenPerUnit(text)
  {
    if text != [] {
      UnitsOfText(text[1..]);
      UnitsOfBigEndian(Utf16(text[0]), Utf16Be(text[1..]));
      RunesOfConcat(Utf16(text[0]), UnitsOf(Utf16Be(text[1..])));
      RunesOfUtf16(text[0]);
    }
  }

  lemma RunesOfUtf16(r: Rune)
    ensures RunesOf(Utf16(r)) == SeenAs(r)
  {
    var units := Utf16(r);
    if !IsBmp(r) {
      assert 0xD800 <= units[0] <= 0xDFFF && 0xD800 <= units[1] <= 0xDFFF;
    }
  }

  /** UCS-2 in, Go string out: the text itself exactly when it lies in the BMP. */
  lemma DecodeRoundTrip(text: seq<Rune>)
    ensures Decoded(Utf16Be(text), 0x08) == Utf8(SeenPerUnit(text))
    ensures Decoded(Utf16Be(text), 0x08) == Utf8(text) <==> AllBmp(text)
  {
    UnitsOfText(text);
    SeenPerUnitFaithful(text);
  }
}
