/** The formatted string keys of the gateway's maps, and when they identify what they name. */
module Keys {

  function DigitChar(d: nat): char
    requires d < 16
  {
    if d < 10 then '0' + d as char else 'a' + (d - 10) as char
  }

  function DigitValue(c: char): nat {
    if '0' <= c <= '9' then c as nat - '0' as nat else if 'a' <= c <= 'f' then c as nat - 'a' as nat + 10 else 0
  }

  datatype Base = Ten | Sixteen

  function Quotient(n: nat, base: Base): nat {
    if base == Ten then n / 10 else n / 16
  }

  function Remainder(n: nat, base: Base): nat {
    if base == Ten then n % 10 else n % 16
  }

  /** Positional notation, most significant digit first. */
  function Digits(n: nat, base: Base): string {
    var high, low := Quotient(n, base), Remainder(n, base);
    if high == 0 then [DigitChar(low)] else Digits(high, base) + [DigitChar(low)]
  }

  lemma DigitFacts(d: nat)
    requires d < 16
    ensures DigitValue(DigitChar(d)) == d
    ensures '0' <= DigitChar(d) <= '9' || 'a' <= DigitChar(d) <= 'f'
  {
  }

  lemma {:induction false} DigitsChars(n: nat, base: Base)
    ensures |Digits(n, base)| > 0
    ensures forall c :: c in Digits(n, base) ==> '0' <= c <= '9' || 'a' <= c <= 'f'
  {
    DigitFacts(Remainder(n, base));
    if Quotient(n, base) != 0 {
      DigitsChars(Quotient(n, base), base);
    }
  }

  lemma {:induction false} DigitsInjective(m: nat, n: nat, base: Base)
    requires Digits(m, base) == Digits(n, base)
    ensures m == n
  {
    var s := Digits(m, base);
    var m', n' := Quotient(m, base), Quotient(n, base);
    DigitFacts(Remainder(m, base));
    DigitFacts(Remainder(n, base));
    assert s[|s| - 1] == DigitChar(Remainder(m, base)) == DigitChar(Remainder(n, base));
    DigitsChars(m', base);
    DigitsChars(n', base);
    if m' != 0 && n' != 0 {
      assert s[..|s| - 1] == Digits(m', base) == Digits(n', base);
      DigitsInjective(m', n', base);
    }
  }

  /** The %d of an integer. */
  function Decimal(n: int): string {
    if n < 0 then "-" + Digits(-n, Ten) else Digits(n, Ten)
  }

  /** The %p of an address. */
  function AddressText(p: nat): string {
    "0x" + Digits(p, Sixteen)
  }

  lemma DecimalFacts(m: int, n: int)
    ensures Decimal(m) != "" && forall c :: c in Decimal(m) ==> c != ':' && c != '|'
    ensures Decimal(m) == Decimal(n) ==> m == n
  {
    var dm, dn := Digits(if m < 0 then -m else m, Ten), Digits(if n < 0 then -n else n, Ten);
    DigitsChars(if m < 0 then -m else m, Ten);
    DigitsChars(if n < 0 then -n else n, Ten);
    assert dm[0] in dm && dn[0] in dn;
    if Decimal(m) == Decimal(n) {
      assert m < 0 ==> Decimal(m)[0] == '-' && Decimal(m)[1..] == dm;
      assert n < 0 ==> Decimal(n)[0] == '-' && Decimal(n)[1..] == dn;
      DigitsInjective(if m < 0 then -m else m, if n < 0 then -n else n, Ten);
    }
  }

  lemma AddressFacts(p: nat, q: nat)
    ensures forall c :: c in AddressText(p) ==> c != ':'
    ensures AddressText(p) == AddressText(q) ==> p == q
  {
    DigitsChars(p, Sixteen);
    if AddressText(p) == AddressText(q) {
      assert AddressText(p)[2..] == Digits(p, Sixteen) && AddressText(q)[2..] == Digits(q, Sixteen);
      DigitsInjective(p, q, Sixteen);
    }
  }

  /** A text is cut at its first separator in one way only. */
  lemma CutFirst(sep: char, a: string, b: string, a': string, b': string)
    requires sep !in a && sep !in a'
    requires a + [sep] + b == a' + [sep] + b'
    ensures a == a' && b == b'
  {
    var s := a + [sep] + b;
    assert s[|a|] == sep && s[|a'|] == sep;
    assert forall k :: 0 <= k < |a| ==> s[k] in a;
    assert forall k :: 0 <= k < |a'| ==> s[k] in a';
    assert a == s[..|a|] && a' == s[..|a'|] && b == s[|a| + 1..] && b' == s[|a'| + 1..];
  }

  /** ... and at its last. */
  lemma CutLast(sep: char, a: string, b: string, a': string, b': string)
    requires sep !in b && sep !in b'
    requires a + [sep] + b == a' + [sep] + b'
    ensures a == a' && b == b'
  {
    var s := a + [sep] + b;
    assert s[|a|] == sep && s[|a'|] == sep;
    assert forall k :: |a| < k < |s| ==> s[k] in b;
    assert forall k :: |a'| < k < |s| ==> s[k] in b';
    assert a == s[..|a|] && a' == s[..|a'|] && b == s[|a| + 1..] && b' == s[|a'| + 1..];
  }

  /** The test of the sweeps: strictly longer, and starting with the prefix. */
  predicate HasPrefix(key: string, prefix: string) {
    |key| > |prefix| && key[..|prefix|] == prefix
  }

  lemma OneFieldPrefix(a: string, rest: string, a': string)
    requires ':' !in a && ':' !in a' && rest != ""
    ensures HasPrefix(a + ":" + rest, a' + ":") <==> a == a'
  {
    var key, p := a + [':'] + rest, a' + [':'];
    if HasPrefix(key, p) {
      assert key == p + key[|p|..];
      CutFirst(':', a, rest, a', key[|p|..]);
    }
  }

  lemma TwoFieldPrefix(a: string, b: string, rest: string, a': string, b': string)
    requires ':' !in a && ':' !in a' && ':' !in b && ':' !in b' && rest != ""
    ensures HasPrefix(a + ":" + b + ":" + rest, a' + ":" + b' + ":") <==> a == a' && b == b'
  {
    var key, p := a + ":" + b + ":" + rest, a' + ":" + b' + ":";
    var tail := b + [':'] + rest;
    assert key == a + [':'] + tail;
    if HasPrefix(key, p) {
      var tail' := b' + [':'] + key[|p|..];
      assert key == p + key[|p|..] == a' + [':'] + tail';
      CutFirst(':', a, tail, a', tail');
      CutFirst(':', b, rest, b', key[|p|..]);
    }
  }

  // ---- in-flight keys (go-smpp-gateway/connector.go) ----

  function SeqMapKey(channel: int, session: nat, seqNo: int): string {
    Decimal(channel) + ":" + AddressText(session) + ":" + Decimal(seqNo)
  }

  function SessionPrefix(channel: int, session: nat): string {
    Decimal(channel) + ":" + AddressText(session) + ":"
  }

  function ChannelPrefix(channel: int): string {
    Decimal(channel) + ":"
  }

  lemma ChannelPrefixExact(channel: int, session: nat, seqNo: int, channel': int)
    ensures HasPrefix(SeqMapKey(channel, session, seqNo), ChannelPrefix(channel')) <==> channel == channel'
  {
    var a, a', tail := Decimal(channel), Decimal(channel'), AddressText(session) + ":" + Decimal(seqNo);
    assert SeqMapKey(channel, session, seqNo) == a + ":" + tail;
    DecimalFacts(channel, channel');
    DecimalFacts(channel', channel);
    OneFieldPrefix(a, tail, a');
  }

  /** A session's sweep sees exactly that session's entries. */
  lemma SessionPrefixExact(channel: int, session: nat, seqNo: int, channel': int, session': nat)
    ensures HasPrefix(SeqMapKey(channel, session, seqNo), SessionPrefix(channel', session'))
            <==> channel == channel' && session == session'
  {
    DecimalFacts(channel, channel');
    DecimalFacts(channel', channel);
    DecimalFacts(seqNo, seqNo);
    AddressFacts(session, session');
    AddressFacts(session', session);
    TwoFieldPrefix(Decimal(channel), AddressText(session), Decimal(seqNo), Decimal(channel'), AddressText(session'));
  }

  lemma SeqMapKeyInjective(channel: int, session: nat, seqNo: int, channel': int, session': nat, seqNo': int)
    ensures SeqMapKey(channel, session, seqNo) == SeqMapKey(channel', session', seqNo')
            <==> channel == channel' && session == session' && seqNo == seqNo'
  {
    var k, k', p := SeqMapKey(channel, session, seqNo), SeqMapKey(channel', session', seqNo'), SessionPrefix(channel', session');
    if k == k' {
      SessionPrefixExact(channel', session', seqNo', channel', session');
      SessionPrefixExact(channel, session, seqNo, channel', session');
      assert k == p + Decimal(seqNo) && k' == p + Decimal(seqNo');
      assert k[|p|..] == Decimal(seqNo) && k'[|p|..] == Decimal(seqNo');
      DecimalFacts(seqNo, seqNo');
    }
  }

  // ---- reassembly keys (go-smpp-gateway/inbound_udh_reassembly.go) ----

  function ReassemblyKey(account: int, src: string, dst: string, ref: nat, total: nat): string {
    Decimal(account) + "|" + src + "|" + dst + "|" + Decimal(ref) + "|" + Decimal(total)
  }

  /** The number after the last separator of a key. */
  function TotalField(key: string): nat {
    if key == "" || key[|key| - 1] == '|' then 0
    else 10 * TotalField(key[..|key| - 1]) + DigitValue(key[|key| - 1])
  }

  lemma {:induction false} TotalFieldOfDigits(front: string, n: nat)
    ensures TotalField(front + "|" + Digits(n, Ten)) == n
  {
    var high, low := Quotient(n, Ten), Remainder(n, Ten);
    var key := front + "|" + Digits(n, Ten);
    DigitFacts(low);
    assert key[|key| - 1] == DigitChar(low);
    if high == 0 {
      assert key[..|key| - 1] == front + "|";
    } else {
      assert key[..|key| - 1] == front + "|" + Digits(high, Ten);
      TotalFieldOfDigits(front, high);
    }
  }

  /** A reassembly key carries the total it was built with. */
  lemma TotalOfReassemblyKey(account: int, src: string, dst: string, ref: nat, total: nat)
    ensures TotalField(ReassemblyKey(account, src, dst, ref, total)) == total
  {
    TotalFieldOfDigits(Decimal(account) + "|" + src + "|" + dst + "|" + Decimal(ref), total);
  }

  /** Account, reference and total are always recoverable; the addresses only as one joined text. */
  lemma ReassemblyKeyEqual(account: int, src: string, dst: string, ref: nat, total: nat,
                           account': int, src': string, dst': string, ref': nat, total': nat)
    ensures ReassemblyKey(account, src, dst, ref, total) == ReassemblyKey(account', src', dst', ref', total')
            <==> account == account' && ref == ref' && total == total' && src + "|" + dst == src' + "|" + dst'
  {
    var k, k' := ReassemblyKey(account, src, dst, ref, total), ReassemblyKey(account', src', dst', ref', total');
    var pair, pair' := src + "|" + dst, src' + "|" + dst';
    var body, body' := pair + ['|'] + Decimal(ref) + ['|'] + Decimal(total),
                       pair' + ['|'] + Decimal(ref') + ['|'] + Decimal(total');
    assert k == Decimal(account) + ['|'] + body && k' == Decimal(account') + ['|'] + body';
    if k == k' {
      DecimalFacts(account, account'); DecimalFacts(account', account);
      DecimalFacts(ref, ref'); DecimalFacts(ref', ref);
      DecimalFacts(total, total'); DecimalFacts(total', total);
      CutFirst('|', Decimal(account), body, Decimal(account'), body');
      CutLast('|', pair + ['|'] + Decimal(ref), Decimal(total), pair' + ['|'] + Decimal(ref'), Decimal(total'));
      CutLast('|', pair, Decimal(ref), pair', Decimal(ref'));
    }
  }

  ghost predicate SharesKey(src: string, dst: string) {
    exists src', dst' :: (src', dst') != (src, dst) && ReassemblyKey(0, src', dst', 0, 0) == ReassemblyKey(0, src, dst, 0, 0)
  }

  /** Two conversations can share a reassembly group exactly when an address contains the separator. */
  lemma ReassemblyKeyAmbiguity(src: string, dst: string)
    ensures SharesKey(src, dst) <==> '|' in src || '|' in dst
  {
    if '|' in src {
      var i :| 0 <= i < |src| && src[i] == '|';
      var src', dst' := src[..i], src[i + 1..] + "|" + dst;
      assert src' + "|" + dst' == src + "|" + dst;
      ReassemblyKeyEqual(0, src', dst', 0, 0, 0, src, dst, 0, 0);
      assert |src'| != |src|;
    } else if '|' in dst {
      var i :| 0 <= i < |dst| && dst[i] == '|';
      var src', dst' := src + "|" + dst[..i], dst[i + 1..];
      assert src' + "|" + dst' == src + "|" + dst;
      ReassemblyKeyEqual(0, src', dst', 0, 0, 0, src, dst, 0, 0);
      assert |src'| != |src|;
    } else if SharesKey(src, dst) {
      var src', dst' :| (src', dst') != (src, dst) && ReassemblyKey(0, src', dst', 0, 0) == ReassemblyKey(0, src, dst, 0, 0);
      ReassemblyKeyEqual(0, src', dst', 0, 0, 0, src, dst, 0, 0);
      OnlySeparator(src, dst, src', dst');
      assert false;
    }
  }

  lemma OnlySeparator(src: string, dst: string, src': string, dst': string)
    requires '|' !in src && '|' !in dst
    requires src + "|" + dst == src' + "|" + dst'
    ensures src == src' && dst == dst'
  {
    var s := src + ['|'] + dst;
    assert s == src' + ['|'] + dst' && s[|src'|] == '|';
    assert forall k :: 0 <= k < |s| && k != |src| ==> s[k] in src || s[k] in dst;
    assert src == s[..|src|] && src' == s[..|src'|] && dst == s[|src| + 1..] && dst' == s[|src'| + 1..];
  }
}
