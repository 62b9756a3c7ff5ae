/** Characters, UTF-16 code units and UTF-8 bytes: the vocabulary of the message text pipeline.
    A Go string is a byte sequence; ranging over it, or building it from runes, goes through UTF-8. */
module Unicode {

  type Byte = x: int | 0 <= x < 0x100

  type CodeUnit = x: int | 0 <= x < 0x10000

  /** A Unicode scalar value: what ranging over a Go string yields. */
  type Rune = x: int | 0 <= x <= 0x10FFFF && !(0xD800 <= x <= 0xDFFF)

  /** Big-endian 16-bit value. */
  function Word(high: Byte, low: Byte): (u: CodeUnit)
    ensures u / 0x100 == high && u % 0x100 == low
  {
    (high as int) * 0x100 + (low as int)
  }

  const REPLACEMENT: Rune := 0xFFFD

  /** The images of all elements, joined. */
  function FlatMap<S, T>(s: seq<S>, f: S -> seq<T>): seq<T> {
    if s == [] then [] else f(s[0]) + FlatMap(s[1..], f)
  }

  lemma {:induction false} FlatMapConcat<S, T>(a: seq<S>, b: seq<S>, f: S -> seq<T>)
    ensures FlatMap(a + b, f) == FlatMap(a, f) + FlatMap(b, f)
  {
    if a == [] {
      assert a + b == b;
    } else {
      assert (a + b)[0] == a[0] && (a + b)[1..] == a[1..] + b;
      FlatMapConcat(a[1..], b, f);
      Assoc(f(a[0]), FlatMap(a[1..], f), FlatMap(b, f));
    }
  }

  lemma Assoc<T>(a: seq<T>, b: seq<T>, c: seq<T>)
    ensures a + (b + c) == (a + b) + c
  {
  }

  lemma FlatMapSnoc<S, T>(a: seq<S>, x: S, f: S -> seq<T>)
    ensures FlatMap(a + [x], f) == FlatMap(a, f) + f(x)
  {
    FlatMapConcat(a, [x], f);
    assert FlatMap([x], f) == f(x) + FlatMap([], f);
  }

  predicate IsBmp(r: Rune) {
    r < 0x10000
  }

  predicate AllBmp(text: seq<Rune>) {
    forall r :: r in text ==> IsBmp(r)
  }

  /** Code units of one character: one, or a surrogate pair. */
  function Utf16Units(r: Rune): nat {
    if IsBmp(r) then 1 else 2
  }

  function Utf16(r: Rune): (units: seq<CodeUnit>)
    ensures |units| == Utf16Units(r)
  {
    if IsBmp(r) then [r]
    else [0xD800 + (r - 0x10000) / 0x400, 0xDC00 + (r - 0x10000) % 0x400]
  }

  function BigEndian(units: seq<CodeUnit>): (bytes: seq<Byte>)
    ensures |bytes| == 2 * |units|
  {
    if units == [] then [] else [units[0] / 0x100, units[0] % 0x100] + BigEndian(units[1..])
  }

  function Utf16BeChar(r: Rune): (bytes: seq<Byte>)
    ensures |bytes| == 2 * Utf16Units(r)
  {
    BigEndian(Utf16(r))
  }

  /** The UCS-2 wire form of a text: UTF-16, high byte first. */
  function Utf16Be(text: seq<Rune>): seq<Byte> {
    FlatMap(text, Utf16BeChar)
  }

  function Utf8Char(r: Rune): (bytes: seq<Byte>)
    ensures |bytes| == if r < 0x80 then 1 else if r < 0x800 then 2 else if IsBmp(r) then 3 else 4
  {
    if r < 0x80 then [r]
    else if r < 0x800 then [0xC0 + r / 0x40, 0x80 + r % 0x40]
    else if IsBmp(r) then [0xE0 + r / 0x1000, 0x80 + r / 0x40 % 0x40, 0x80 + r % 0x40]
    else [0xF0 + r / 0x40000, 0x80 + r / 0x1000 % 0x40, 0x80 + r / 0x40 % 0x40, 0x80 + r % 0x40]
  }

  /** The Go string holding these characters. */
  function Utf8(text: seq<Rune>): seq<Byte> {
    FlatMap(text, Utf8Char)
  }

  /** string([]rune{...}) writes the replacement character for a lone surrogate. */
  function UnitAsRune(u: CodeUnit): Rune {
    if 0xD800 <= u <= 0xDFFF then REPLACEMENT else u
  }

  /** What per-unit decoding shows of a text: every surrogate pair turns into two replacement characters. */
  function SeenPerUnit(text: seq<Rune>): seq<Rune> {
    FlatMap(text, SeenAs)
  }

  function SeenAs(r: Rune): seq<Rune> {
    if IsBmp(r) then [r] else [REPLACEMENT, REPLACEMENT]
  }

  function AstralCount(text: seq<Rune>): nat {
    if text == [] then 0 else (if IsBmp(text[0]) then 0 else 1) + AstralCount(text[1..])
  }

  /** Per-unit decoding makes a Go string two bytes longer for every character outside the BMP. */
  lemma {:induction false} SeenPerUnitLength(text: seq<Rune>)
    ensures |Utf8(SeenPerUnit(text))| == |Utf8(text)| + 2 * AstralCount(text)
    ensures AstralCount(text) == 0 <==> AllBmp(text)
    ensures AllBmp(text) ==> SeenPerUnit(text) == text
  {
    if text != [] {
      var head := SeenAs(text[0]);
      SeenPerUnitLength(text[1..]);
      FlatMapConcat(head, SeenPerUnit(text[1..]), Utf8Char);
      SeenAsLength(text[0]);
      assert text == [text[0]] + text[1..];
    }
  }

  lemma SeenAsLength(r: Rune)
    ensures |Utf8(SeenAs(r))| == |Utf8Char(r)| + if IsBmp(r) then 0 else 2
  {
    FlatMapSnoc([], SeenAs(r)[0], Utf8Char);
    assert [] + [SeenAs(r)[0]] == [SeenAs(r)[0]];
    if !IsBmp(r) {
      FlatMapSnoc([REPLACEMENT], REPLACEMENT, Utf8Char);
      assert [REPLACEMENT] + [REPLACEMENT] == SeenAs(r);
    }
  }

  /** Decoding 16 bits at a time gives the text back exactly when no character needs a surrogate pair. */
  lemma SeenPerUnitFaithful(text: seq<Rune>)
    ensures Utf8(SeenPerUnit(text)) == Utf8(text) <==> AllBmp(text)
  {
    SeenPerUnitLength(text);
  }
}
