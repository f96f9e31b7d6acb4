/** The byte encoding that is signed and authenticated in crates/agora-crypto/src/lib.rs, and its inverse. */
module Canonical {
  import opened Bytes
  import opened Options
  import Seqs

  /** `b"agora/"`. */
  const PREFIX: seq<byte> := [97, 103, 111, 114, 97, 47]
  const WORD: int := 0x1_0000_0000_0000_0000
  const I64_MIN: int := -0x8000_0000_0000_0000
  const I64_MAX: int := 0x7FFF_FFFF_FFFF_FFFF

  /** The `k` low bytes of `n`, lowest first. Euclidean division makes this two's complement for a negative `n`, and
      the low 64 bits of any length (`as u64`). */
  function LeBytes(n: int, k: nat): (bs: seq<byte>)
    ensures |bs| == k
    decreases k
  {
    if k == 0 then [] else [(n % 256) as byte] + LeBytes(n / 256, k - 1)
  }

  function FromLe(bs: seq<byte>): nat {
    if bs == [] then 0 else bs[0] as nat + 256 * FromLe(bs[1..])
  }

  function Pow256(k: nat): (p: nat)
    ensures p > 0
  {
    if k == 0 then 1 else 256 * Pow256(k - 1)
  }

  function Body(fields: seq<seq<byte>>): seq<byte> {
    if fields == [] then [] else LeBytes(|fields[0]|, 8) + fields[0] + Body(fields[1..])
  }

  /** `canonical`. */
  function Encode(domain: seq<byte>, fields: seq<seq<byte>>): seq<byte> {
    PREFIX + domain + [0] + Body(fields)
  }

  function ParseBody(bs: seq<byte>): Option<seq<seq<byte>>>
    decreases |bs|
  {
    if bs == [] then Some([])
    else if |bs| < 8 then None
    else
      var n := FromLe(bs[..8]);
      if |bs| - 8 < n then None
      else Prepend(bs[8..8 + n], ParseBody(bs[8 + n..]))
  }

  function Prepend(f: seq<byte>, rest: Option<seq<seq<byte>>>): Option<seq<seq<byte>>> {
    if rest.None? then None else Some([f] + rest.value)
  }

  /** Up to the first NUL. */
  function UntilNul(bs: seq<byte>): (n: nat)
    ensures n <= |bs|
  {
    if bs == [] || bs[0] == 0 then 0 else 1 + UntilNul(bs[1..])
  }

  /** The domain and the fields of an encoding. */
  function Decode(bs: seq<byte>): Option<(seq<byte>, seq<seq<byte>>)> {
    if |bs| < 6 || bs[..6] != PREFIX then None else DecodeRest(bs[6..])
  }

  function DecodeRest(rest: seq<byte>): Option<(seq<byte>, seq<seq<byte>>)> {
    var n := UntilNul(rest);
    if n == |rest| then None
    else
      var fields := ParseBody(rest[n + 1..]);
      if fields.None? then None else Some((rest[..n], fields.value))
  }

  // ----- numbers

  lemma {:induction false} LeRoundTrip(n: int, k: nat)
    ensures FromLe(LeBytes(n, k)) == n % Pow256(k)
    decreases k
  {
    if k > 0 {
      LeRoundTrip(n / 256, k - 1);
      assert LeBytes(n, k)[1..] == LeBytes(n / 256, k - 1);
      ModSplit(n, Pow256(k - 1));
    }
  }

  lemma ModSplit(n: int, p: nat)
    requires p > 0
    ensures n % (256 * p) == n % 256 + 256 * ((n / 256) % p)
  {
    var q, r := (n / 256) / p, n % 256 + 256 * ((n / 256) % p);
    assert n / 256 == q * p + (n / 256) % p;
    assert n == 256 * (n / 256) + n % 256;
    assert n == q * (256 * p) + r by {
      assert 256 * (q * p) == q * (256 * p);
    }
    DivUnique(n, 256 * p, q, r);
  }

  lemma DivUnique(n: int, d: int, q: int, r: int)
    requires d > 0 && n == q * d + r && 0 <= r < d
    ensures n % d == r
  {
    var k := n / d - q;
    assert n == (n / d) * d + n % d;
    assert k * d == r - n % d by {
      assert (n / d) * d - q * d == (n / d - q) * d;
    }
    Multiple(k, d);
  }

  lemma Multiple(k: int, d: int)
    requires d > 0
    ensures k >= 1 ==> k * d >= d
    ensures k <= -1 ==> k * d <= -d
  {
    if k >= 1 {
      assert (k - 1) * d >= 0;
    } else if k <= -1 {
      assert (-k - 1) * d >= 0;
    }
  }

  lemma EightBytesAreAWord()
    ensures Pow256(8) == WORD
  {
    assert Pow256(1) == 256;
    assert Pow256(2) == 256 * 256;
    assert Pow256(4) == 256 * 256 * Pow256(2);
    assert Pow256(6) == 256 * 256 * Pow256(4);
    assert Pow256(8) == 256 * 256 * Pow256(6);
  }

  /** An in-range length or epoch survives its eight bytes. */
  lemma WordRoundTrip(n: int)
    requires -WORD <= 2 * n && n < WORD
    ensures FromLe(LeBytes(n, 8)) == if n >= 0 then n else n + WORD
  {
    LeRoundTrip(n, 8);
    EightBytesAreAWord();
    DivUnique(n, WORD, if n >= 0 then 0 else -1, if n >= 0 then n else n + WORD);
  }

  lemma {:induction false} FromLeBounded(bs: seq<byte>)
    ensures FromLe(bs) < Pow256(|bs|) && LeBytes(FromLe(bs), |bs|) == bs
  {
    if bs != [] {
      FromLeBounded(bs[1..]);
      var n := FromLe(bs);
      assert n % 256 == bs[0] as int && n / 256 == FromLe(bs[1..]);
    }
  }

  // ----- the encoding and its inverse

  ghost predicate Fits(fields: seq<seq<byte>>) {
    forall i :: 0 <= i < |fields| ==> |fields[i]| < WORD
  }

  lemma FieldParses(f: seq<byte>, rest: seq<byte>)
    requires |f| < WORD && ParseBody(rest).Some?
    ensures ParseBody(LeBytes(|f|, 8) + f + rest) == Some([f] + ParseBody(rest).value)
  {
    var len := LeBytes(|f|, 8);
    var bs := len + f + rest;
    assert bs[..8] == len && bs[8..8 + |f|] == f && bs[8 + |f|..] == rest;
    assert FromLe(len) == |f| by { WordRoundTrip(|f|); }
  }

  lemma {:induction false} BodyRoundTrip(fields: seq<seq<byte>>)
    requires Fits(fields)
    ensures ParseBody(Body(fields)) == Some(fields)
  {
    if fields != [] {
      BodyRoundTrip(fields[1..]);
      FieldParses(fields[0], Body(fields[1..]));
      assert fields == [fields[0]] + fields[1..];
    }
  }

  lemma {:induction false} UntilNulIs(domain: seq<byte>, rest: seq<byte>)
    requires 0 !in domain
    ensures UntilNul(domain + [0] + rest) == |domain|
  {
    var s := domain + [0] + rest;
    if domain == [] {
      assert s[0] == 0;
    } else {
      UntilNulIs(domain[1..], rest);
      assert s[0] == domain[0] && s[1..] == domain[1..] + [0] + rest;
    }
  }

  lemma {:induction false} UntilNulSpec(bs: seq<byte>)
    ensures 0 !in bs[..UntilNul(bs)] && (UntilNul(bs) < |bs| ==> bs[UntilNul(bs)] == 0)
  {
    if bs != [] && bs[0] != 0 {
      UntilNulSpec(bs[1..]);
      var n := UntilNul(bs[1..]);
      assert bs[..n + 1] == [bs[0]] + bs[1..][..n];
    }
  }

  lemma EncodeIs(domain: seq<byte>, fields: seq<seq<byte>>)
    ensures Encode(domain, fields) == PREFIX + (domain + [0] + Body(fields))
  {
    Seqs.Assoc(PREFIX, domain, [0]);
    Seqs.Assoc(PREFIX, domain + [0], Body(fields));
  }

  lemma DecodeIs(rest: seq<byte>)
    ensures Decode(PREFIX + rest) == DecodeRest(rest)
  {
    Seqs.Joined(PREFIX, rest);
  }

  /** Decoding an encoding gives back the domain and the whole field list. */
  lemma RoundTrip(domain: seq<byte>, fields: seq<seq<byte>>)
    requires 0 !in domain && Fits(fields)
    ensures Decode(Encode(domain, fields)) == Some((domain, fields))
  {
    EncodeIs(domain, fields);
    DecodeIs(domain + [0] + Body(fields));
    UntilNulIs(domain, Body(fields));
    Seqs.Around(domain, 0, Body(fields));
    BodyRoundTrip(fields);
  }

  lemma BodyCons(f: seq<byte>, fields: seq<seq<byte>>)
    ensures Body([f] + fields) == LeBytes(|f|, 8) + f + Body(fields)
  {
    assert ([f] + fields)[1..] == fields;
  }

  lemma LengthPrefix(bs: seq<byte>)
    requires |bs| == 8
    ensures FromLe(bs) < WORD && LeBytes(FromLe(bs), 8) == bs
  {
    FromLeBounded(bs);
    EightBytesAreAWord();
  }

  lemma FieldEncodes(len: seq<byte>, f: seq<byte>, rest: seq<byte>, fields: seq<seq<byte>>)
    requires |len| == 8 && FromLe(len) == |f| && Body(fields) == rest && Fits(fields)
    ensures Body([f] + fields) == len + f + rest && Fits([f] + fields)
  {
    LengthPrefix(len);
    BodyCons(f, fields);
  }

  lemma CutField(bs: seq<byte>, n: nat)
    requires 8 + n <= |bs|
    ensures bs == bs[..8] + bs[8..8 + n] + bs[8 + n..]
  {
  }

  lemma ParsedFits(bs: seq<byte>, n: nat)
    requires bs != [] && ParseBody(bs).Some? && n == if |bs| < 8 then 0 else FromLe(bs[..8])
    ensures 8 + n <= |bs|
  {
  }

  lemma ParsedHead(bs: seq<byte>, n: nat, f: seq<byte>, rest: seq<byte>)
    requires |bs| >= 8 && n == FromLe(bs[..8]) && 8 + n <= |bs| && f == bs[8..8 + n] && rest == bs[8 + n..]
    ensures ParseBody(bs) == Prepend(f, ParseBody(rest))
  {
  }

  lemma {:induction false} ParsedBodyEncodes(bs: seq<byte>)
    requires ParseBody(bs).Some?
    ensures Body(ParseBody(bs).value) == bs && Fits(ParseBody(bs).value)
    decreases |bs|
  {
    if bs != [] {
      var n := if |bs| < 8 then 0 else FromLe(bs[..8]);
      ParsedFits(bs, n);
      var len, f, rest := bs[..8], bs[8..8 + n], bs[8 + n..];
      ParsedHead(bs, n, f, rest);
      ParsedBodyEncodes(rest);
      FieldEncodes(len, f, rest, ParseBody(rest).value);
      CutField(bs, n);
    }
  }

  /** Only encodings decode, each to its own preimage. */
  lemma DecodedEncodes(bs: seq<byte>)
    requires Decode(bs).Some?
    ensures var (domain, fields) := Decode(bs).value;
            0 !in domain && Fits(fields) && Encode(domain, fields) == bs
  {
    var rest := bs[6..];
    Seqs.Cut(bs, 6);
    UntilNulSpec(rest);
    var n := UntilNul(rest);
    ParsedBodyEncodes(rest[n + 1..]);
    Seqs.CutAround(rest, n);
    EncodeIs(rest[..n], ParseBody(rest[n + 1..]).value);
  }

  /** `canonical` is injective in the domain and the whole field list. */
  lemma Injective(d1: seq<byte>, f1: seq<seq<byte>>, d2: seq<byte>, f2: seq<seq<byte>>)
    requires 0 !in d1 && 0 !in d2 && Fits(f1) && Fits(f2)
    ensures Encode(d1, f1) == Encode(d2, f2) <==> d1 == d2 && f1 == f2
  {
    RoundTrip(d1, f1);
    RoundTrip(d2, f2);
  }

  // ----- both conditions are needed

  lemma {:induction false} ZeroBytes(k: nat)
    ensures LeBytes(0, k) == seq(k, _ => 0)
  {
    if k > 0 {
      ZeroBytes(k - 1);
    }
  }

  /** A NUL in the domain makes it run into the fields: one encoding, two readings. */
  lemma NulDomainsCollide(domain: seq<byte>)
    ensures Encode(domain, [[]]) == Encode(domain + seq(8, _ => 0), [])
  {
    ZeroBytes(8);
    var one: seq<seq<byte>> := [[]];
    assert one[1..] == [];
    assert Body(one) == LeBytes(0, 8) + [] + Body([]);
    var zeros: seq<byte> := seq(8, _ => 0);
    assert [0] + zeros == zeros + [0];
  }

  lemma {:induction false} EmptyFields(k: nat)
    ensures Body(seq(k, _ => [])) == seq(8 * k, _ => 0)
  {
    if k > 0 {
      ZeroBytes(8);
      EmptyFields(k - 1);
      var fields: seq<seq<byte>> := seq(k, _ => []);
      assert fields[1..] == seq(k - 1, _ => []);
      assert Body(fields) == LeBytes(0, 8) + [] + Body(fields[1..]);
    }
  }

  /** A field of 2^64 bytes has the length prefix of an empty one. */
  lemma OversizeFieldsCollide(domain: seq<byte>)
    ensures var big: seq<byte> := seq(WORD, _ => 0);
            Encode(domain, [big]) == Encode(domain, seq(WORD / 8 + 1, _ => []))
  {
    var big: seq<byte> := seq(WORD, _ => 0);
    EmptyFields(WORD / 8 + 1);
    assert LeBytes(WORD, 8) == LeBytes(0, 8) by {
      LeOfWord();
    }
    ZeroBytes(8);
    var one: seq<seq<byte>> := [big];
    assert one[1..] == [];
    assert Body(one) == LeBytes(WORD, 8) + big + Body([]);
    assert Body([big]) == seq(8 * (WORD / 8 + 1), _ => 0);
  }

  lemma LeOfWord()
    ensures LeBytes(WORD, 8) == LeBytes(0, 8)
  {
    LeRoundTrip(WORD, 8);
    LeRoundTrip(0, 8);
    EightBytesAreAWord();
    FromLeInjective(LeBytes(WORD, 8), LeBytes(0, 8));
  }

  lemma FromLeInjective(a: seq<byte>, b: seq<byte>)
    requires |a| == |b| && FromLe(a) == FromLe(b)
    ensures a == b
  {
    FromLeBounded(a);
    FromLeBounded(b);
  }

  // ----- the loop

  lemma Regroup(a: seq<byte>, b: seq<byte>, c: seq<byte>, d: seq<byte>)
    ensures a + (b + c + d) == a + b + c + d
  {
  }

  /** `canonical` as the source builds it. */
  method Build(domain: seq<byte>, fields: seq<seq<byte>>) returns (out: seq<byte>)
    ensures out == Encode(domain, fields)
  {
    out := PREFIX + domain + [0];
    assert fields[0..] == fields;
    for i := 0 to |fields|
      invariant out + Body(fields[i..]) == Encode(domain, fields)
    {
      assert fields[i..] == [fields[i]] + fields[i + 1..];
      BodyCons(fields[i], fields[i + 1..]);
      Regroup(out, LeBytes(|fields[i]|, 8), fields[i], Body(fields[i + 1..]));
      out := out + LeBytes(|fields[i]|, 8);
      out := out + fields[i];
    }
    assert fields[|fields|..] == [];
    assert out + [] == out;
  }

  // ----- the additional data of each ciphertext kind

  const WRAP: seq<byte> := [119, 114, 97, 112, 47, 118, 49]
  const BODY: seq<byte> := [98, 111, 100, 121, 47, 118, 49]
  const ATT: seq<byte> := [97, 116, 116, 47, 118, 49]

  datatype Aad =
    | Wrap(channel: seq<byte>, epoch: int)
    | Message(channel: seq<byte>, epoch: int, messageId: seq<byte>)
    | Attachment(channel: seq<byte>, epoch: int)

  /** The channel and message ids as UTF-8, the epoch an `i64`. */
  ghost predicate AadOk(a: Aad) {
    && I64_MIN <= a.epoch <= I64_MAX && |a.channel| < WORD
    && (a.Message? ==> |a.messageId| < WORD)
  }

  function AadDomain(a: Aad): seq<byte> {
    match a
    case Wrap(_, _) => WRAP
    case Message(_, _, _) => BODY
    case Attachment(_, _) => ATT
  }

  function AadFields(a: Aad): seq<seq<byte>> {
    match a
    case Wrap(channel, epoch) => [channel, LeBytes(epoch, 8)]
    case Message(channel, epoch, messageId) => [channel, LeBytes(epoch, 8), messageId]
    case Attachment(channel, epoch) => [channel, LeBytes(epoch, 8)]
  }

  function EncodeAad(a: Aad): seq<byte> { Encode(AadDomain(a), AadFields(a)) }

  lemma EpochInjective(m: int, n: int)
    requires I64_MIN <= m <= I64_MAX && I64_MIN <= n <= I64_MAX
    requires LeBytes(m, 8) == LeBytes(n, 8)
    ensures m == n
  {
    WordRoundTrip(m);
    WordRoundTrip(n);
  }

  /** `wrap_aad`, `body_aad` and `attachment_aad` never coincide, within a kind or across kinds. */
  lemma AadsAreDistinct(a: Aad, b: Aad)
    requires AadOk(a) && AadOk(b)
    ensures EncodeAad(a) == EncodeAad(b) <==> a == b
  {
    Injective(AadDomain(a), AadFields(a), AadDomain(b), AadFields(b));
    if EncodeAad(a) == EncodeAad(b) {
      assert |AadDomain(a)| == |AadDomain(b)| && AadDomain(a)[0] == AadDomain(b)[0];
      assert AadFields(a)[0] == AadFields(b)[0] && AadFields(a)[1] == AadFields(b)[1];
      EpochInjective(a.epoch, b.epoch);
    }
  }
}
