/** How many parts the back end bills (backend/app/utils/sms_segment.py), against what the gateway submits. */
module Billing {
  import opened Unicode
  import opened Packing
  import opened Segmenter

  /** The two character tables of GSM 03.38: plain characters and escaped ones. */
  datatype Alphabet = Alphabet(basic: set<Rune>, extended: set<Rune>)

  /** No number when some character has no GSM-7 code. */
  datatype SeptetCount = NotGsm7 | Count(septets: nat)

  // ---- normalization ----

  function NormalizedChar(c: Rune): seq<Rune> {
    if c == 0xA0 then [' ' as int]
    else if c in {0x200B, 0x200C, 0x200D, 0xFEFF} then []
    else if c in {0x2018, 0x2019} then ['\'' as int]
    else if c in {0x201C, 0x201D} then ['"' as int]
    else if c in {0x2013, 0x2014} then ['-' as int]
    else if c == 0x2026 then ['.' as int, '.' as int, '.' as int]
    else [c]
  }

  function Normalized(text: seq<Rune>): seq<Rune> {
    FlatMap(text, NormalizedChar)
  }

  /** normalize_for_sms_segment_count; sanitize_sms_text_for_wire is the same function. */
  method NormalizeForSegmentCount(text: seq<Rune>) returns (out: seq<Rune>)
    ensures out == Normalized(text)
  {
    out := [];
    assert text[..0] == [];
    for i := 0 to |text|
      invariant out == Normalized(text[..i])
    {
      assert text[..i + 1] == text[..i] + [text[i]];
      FlatMapSnoc(text[..i], text[i], NormalizedChar);
      var c := text[i];
      if c == 0xA0 {
        out := out + [' ' as int];
      } else if c in {0x200B, 0x200C, 0x200D, 0xFEFF} {
        continue;
      } else if c in {0x2018, 0x2019} {
        out := out + ['\'' as int];
      } else if c in {0x201C, 0x201D} {
        out := out + ['"' as int];
      } else if c == 0x2013 {
        out := out + ['-' as int];
      } else if c == 0x2014 {
        out := out + ['-' as int];
      } else if c == 0x2026 {
        out := out + ['.' as int, '.' as int, '.' as int];
      } else {
        out := out + [c];
      }
    }
    assert text[..|text|] == text;
  }

  /** Normalizing twice changes nothing more, so what is sent is what was counted. */
  lemma {:induction false} NormalizedIdempotent(text: seq<Rune>)
    ensures Normalized(Normalized(text)) == Normalized(text)
  {
    if text != [] {
      var c := NormalizedChar(text[0]);
      NormalizedIdempotent(text[1..]);
      FlatMapConcat(c, Normalized(text[1..]), NormalizedChar);
      CharStable(text[0]);
    }
  }

  lemma CharStable(r: Rune)
    ensures Normalized(NormalizedChar(r)) == NormalizedChar(r)
  {
    var c := NormalizedChar(r);
    if |c| == 1 {
      SingleStable(c[0]);
      assert c == [c[0]];
    } else if |c| == 3 {
      var dot: Rune := '.' as int;
      SingleStable(dot);
      FlatMapSnoc([dot], dot, NormalizedChar);
      FlatMapSnoc([dot, dot], dot, NormalizedChar);
      assert [dot] + [dot] == [dot, dot] && [dot, dot] + [dot] == c;
    }
  }

  lemma SingleStable(r: Rune)
    ensures Normalized([r]) == NormalizedChar(r)
  {
    FlatMapSnoc([], r, NormalizedChar);
    assert [] + [r] == [r];
  }

  // ---- counting ----

  function CharSeptets(c: Rune, a: Alphabet): nat {
    if c in a.basic then 1 else if c in a.extended then 2 else 0
  }

  function SeptetWidth(a: Alphabet): Rune -> nat {
    (c: Rune) => CharSeptets(c, a)
  }

  predicate IsGsm7(norm: seq<Rune>, a: Alphabet) {
    forall c :: c in norm ==> CharSeptets(c, a) != 0
  }

  /** gsm7_septet_count. */
  method Gsm7SeptetCount(norm: seq<Rune>, a: Alphabet) returns (r: SeptetCount)
    ensures r == if IsGsm7(norm, a) then Count(Width(norm, SeptetWidth(a))) else NotGsm7
  {
    var total := 0;
    assert norm[..0] == [];
    for i := 0 to |norm|
      invariant IsGsm7(norm[..i], a) && total == Width(norm[..i], SeptetWidth(a))
    {
      assert norm[..i + 1] == norm[..i] + [norm[i]];
      WidthSnoc(norm[..i], norm[i], SeptetWidth(a));
      if norm[i] in a.basic {
        total := total + 1;
      } else if norm[i] in a.extended {
        total := total + 2;
      } else {
        return NotGsm7;
      }
    }
    assert norm[..|norm|] == norm;
    r := Count(total);
  }

  /** The parts of an already normalized text. */
  function PartsOf(norm: seq<Rune>, a: Alphabet): nat {
    if norm == [] then 0
    else if IsGsm7(norm, a) then
      var septets := Width(norm, SeptetWidth(a));
      if septets <= 160 then 1 else (septets + 152) / 153
    else
      var units := Width(norm, Units());
      if units <= 70 then 1 else (units + 66) / 67
  }

  /** count_sms_parts of a message without short-link placeholders. */
  method CountSmsParts(message: seq<Rune>, a: Alphabet) returns (parts: nat)
    ensures parts == PartsOf(Normalized(message), a)
  {
    var norm := NormalizeForSegmentCount(message);
    if |norm| == 0 {
      return 0;
    }
    var septets := Gsm7SeptetCount(norm, a);
    if septets.Count? {
      return if septets.septets <= 160 then 1 else (septets.septets + 152) / 153;
    }
    var units := Width(norm, Units());
    parts := if units <= 70 then 1 else (units + 66) / 67;
  }

  // ---- billed parts and submitted PDUs ----

  /** The gateway's encoder and the billing tables give every character the same number of septets. */
  ghost predicate TablesAgree(table: Gsm7Table, a: Alphabet) {
    forall c :: |table(c)| == CharSeptets(c, a)
  }

  lemma {:induction false} SameWidth(text: seq<Rune>, v: Rune -> nat, w: Rune -> nat)
    requires forall c :: v(c) == w(c)
    ensures Width(text, v) == Width(text, w)
  {
    if text != [] {
      SameWidth(text[1..], v, w);
    }
  }

  lemma Gsm7WidthAgrees(norm: seq<Rune>, table: Gsm7Table, a: Alphabet)
    requires TablesAgree(table, a)
    ensures Encodable(norm, table) <==> IsGsm7(norm, a)
    ensures Width(norm, Septets(table)) == Width(norm, SeptetWidth(a))
    ensures IsGsm7(norm, a) ==> Positive(norm, Septets(table)) && AtMost(norm, Septets(table), 2)
  {
    forall c ensures Septets(table)(c) == SeptetWidth(a)(c) {
      assert |table(c)| == CharSeptets(c, a);
    }
    SameWidth(norm, Septets(table), SeptetWidth(a));
    forall c | c in norm ensures |table(c)| == CharSeptets(c, a) <= 2 {
    }
  }

  /** GSM-7: a text is never billed for more than is submitted, and the surplus submitted is bounded by
      one septet of waste per part; without escaped characters the two agree. */
  lemma Gsm7BilledAgainstSubmitted(norm: seq<Rune>, o: Options, ref: Byte, table: Gsm7Table, a: Alphabet)
    requires norm != [] && TablesAgree(table, a) && IsGsm7(norm, a) && o.gsm7Enabled && !o.latin1Single
    ensures PartsOf(norm, a) <= |Plan(norm, o, ref, table)|
    ensures Width(norm, SeptetWidth(a)) > 160 ==>
              && PartsOf(norm, a) == CeilDiv(Width(norm, SeptetWidth(a)), 153)
              && |Plan(norm, o, ref, table)| <= CeilDiv(Width(norm, SeptetWidth(a)), 152)
    ensures (forall c :: c in norm ==> c in a.basic) ==> |Plan(norm, o, ref, table)| == PartsOf(norm, a)
  {
    Gsm7WidthAgrees(norm, table, a);
    Gsm7EncodeWidth(norm, table);
    PackCount(norm, Septets(table), 2, 153);
    if forall c :: c in norm ==> c in a.basic {
      forall c | c in norm ensures Septets(table)(c) <= 1 {
        assert |table(c)| == CharSeptets(c, a);
      }
      PackCount(norm, Septets(table), 1, 153);
    }
  }

  /** UCS-2 with UDH segmentation. The splitter obeys the 67/66 bounds, but one PDU carries up to 127
      units, while billing starts a second part at 71: so exactly the texts of 71 to 127 units are billed
      for more PDUs than are submitted. */
  lemma Ucs2BilledAgainstSubmitted(norm: seq<Rune>, o: Options, ref: Byte, table: Gsm7Table, a: Alphabet)
    requires norm != [] && TablesAgree(table, a) && !IsGsm7(norm, a) && !o.latin1Single && o.udhSegmentation
    ensures var units := Width(norm, Units());
            var split := |Pack(norm, Units(), 67)|;
            && CeilDiv(units, 67) <= split <= CeilDiv(units, 66)
            && |Plan(norm, o, ref, table)| == (if units <= 127 then 1 else split)
            && (PartsOf(norm, a) <= |Plan(norm, o, ref, table)| <==> units <= 70 || 127 < units)
            && (AllBmp(norm) && (units <= 70 || 127 < units) ==> PartsOf(norm, a) == |Plan(norm, o, ref, table)|)
  {
    Gsm7WidthAgrees(norm, table, a);
    Utf16BeWidth(norm);
    PackCount(norm, Units(), 2, 67);
    if AllBmp(norm) {
      PackCount(norm, Units(), 1, 67);
    }
    WidthPositive(norm, Units());
  }

  // ---- every configuration ----

  predicate SingleByteFits(norm: seq<Rune>, o: Options) {
    o.latin1Single && IsLatin1(norm) && |norm| <= SM_MSG_LEN
  }

  /** The channel cuts the text into numbered segments. */
  predicate Segmented(norm: seq<Rune>, o: Options, a: Alphabet) {
    && !SingleByteFits(norm, o)
    && if o.gsm7Enabled && IsGsm7(norm, a) then Width(norm, SeptetWidth(a)) > 160
       else o.udhSegmentation && Width(norm, Units()) > 127
  }

  /** A text has at most two septets for each of its UTF-16 code units. */
  lemma {:induction false} SeptetsAtMostTwice(norm: seq<Rune>, a: Alphabet)
    ensures Width(norm, SeptetWidth(a)) <= 2 * Width(norm, Units())
  {
    if norm != [] {
      SeptetsAtMostTwice(norm[1..], a);
    }
  }

  lemma BilledOfUnits(norm: seq<Rune>, a: Alphabet)
    requires Width(norm, Units()) > 127
    ensures PartsOf(norm, a) <= CeilDiv(Width(norm, Units()), 67)
  {
    SeptetsAtMostTwice(norm, a);
  }

  lemma BilledWhenSegmented(norm: seq<Rune>, o: Options, ref: Byte, table: Gsm7Table, a: Alphabet)
    requires TablesAgree(table, a) && Segmented(norm, o, a)
    ensures PartsOf(norm, a) <= |Plan(norm, o, ref, table)|
  {
    Gsm7WidthAgrees(norm, table, a);
    if o.gsm7Enabled && IsGsm7(norm, a) {
      Gsm7EncodeWidth(norm, table);
      PackCount(norm, Septets(table), 2, 153);
    } else {
      Utf16BeWidth(norm);
      PackCount(norm, Units(), 2, 67);
      BilledOfUnits(norm, a);
    }
  }

  lemma SubmittedWhenNotSegmented(norm: seq<Rune>, o: Options, ref: Byte, table: Gsm7Table, a: Alphabet)
    requires TablesAgree(table, a) && !Segmented(norm, o, a)
    ensures |Plan(norm, o, ref, table)| == 1
  {
    Gsm7WidthAgrees(norm, table, a);
    Gsm7EncodeWidth(norm, table);
    Utf16BeWidth(norm);
  }

  /** On every channel: a message is billed for no more parts than are submitted exactly when it is billed as one or
      the channel really segments it. A single-byte PDU, a payload parameter and a UCS-2 PDU of up to 127 units carry
      in one what is billed as several. */
  lemma BilledAtMostSubmittedIff(norm: seq<Rune>, o: Options, ref: Byte, table: Gsm7Table, a: Alphabet)
    requires TablesAgree(table, a)
    ensures PartsOf(norm, a) <= |Plan(norm, o, ref, table)| <==> PartsOf(norm, a) <= 1 || Segmented(norm, o, a)
    ensures !Segmented(norm, o, a) ==> |Plan(norm, o, ref, table)| == 1
  {
    if Segmented(norm, o, a) {
      BilledWhenSegmented(norm, o, ref, table, a);
    } else {
      SubmittedWhenNotSegmented(norm, o, ref, table, a);
    }
  }
}
