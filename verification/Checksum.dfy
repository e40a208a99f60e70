/** The Internet checksum of afxdp_ring_consumer.c: a 32-bit running sum whose
    carries are folded in at the end, against the one's complement sum of
    RFC 1071 in which every addition carries around. */
module Checksum {
  import opened MachineWords

  type Byte = b: nat | b < 256
  type Word16 = w: nat | w < 0x10000

  // ---------- reference: one's complement arithmetic ----------

  /** One's complement addition: the carry out of bit 15 is added back in. */
  function OnesAdd(a: Word16, b: Word16): Word16 {
    if a + b < 0x10000 then a + b else a + b - 0xFFFF
  }

  function OnesSum(words: seq<Word16>): Word16 {
    if words == [] then 0 else OnesAdd(OnesSum(words[..|words| - 1]), words[|words| - 1])
  }

  function Complement(w: Word16): Word16 { 0xFFFF - w }

  function BigEndian(hi: Byte, lo: Byte): Word16 { hi as nat * 256 + lo as nat }

  /** The big-endian 16-bit words of a byte string, an odd last byte padded with zero. */
  function Words(b: seq<Byte>): seq<Word16> {
    seq((|b| + 1) / 2, i requires 0 <= i < (|b| + 1) / 2 =>
      BigEndian(b[2 * i], if 2 * i + 1 < |b| then b[2 * i + 1] else 0))
  }

  /** The 16-bit field of b at byte offset `at`, set to w in network order. */
  function SetWord(b: seq<Byte>, at: nat, w: Word16): (r: seq<Byte>)
    requires at + 1 < |b|
    ensures |r| == |b|
  {
    b[at := w / 256][at + 1 := w % 256]
  }

  // ---------- the deferred-carry form ----------

  ghost function Sum(words: seq<Word16>): (s: nat)
    ensures s <= |words| * 0xFFFF
  {
    if words == [] then 0 else Sum(words[..|words| - 1]) + words[|words| - 1]
  }

  ghost function Fold(sum: nat): (w: Word16)
    ensures w == 0 <==> sum == 0
  {
    if sum < 0x10000 then sum else Fold(sum % 0x10000 + sum / 0x10000)
  }

  /** csum_fold ends, and takes away only multiples of 65535. */
  lemma FoldResidue(sum: nat) returns (k: nat)
    ensures sum == Fold(sum) + 0xFFFF * k
  {
    if sum < 0x10000 {
      k := 0;
    } else {
      k := FoldResidue(sum % 0x10000 + sum / 0x10000);
      k := k + sum / 0x10000;
    }
  }

  lemma FoldKeepsResidue(sum: nat)
    ensures Fold(sum) % 0xFFFF == sum % 0xFFFF
  {
    var k := FoldResidue(sum);
    var w: nat := Fold(sum);
    if w == 0xFFFF {
      QuotientUnique(sum, 0xFFFF, k + 1, 0);
    } else {
      QuotientUnique(sum, 0xFFFF, k, w);
    }
  }

  /** Any 16-bit word that differs from the sum by a multiple of 65535, and is
      zero only for a zero sum, is the folded sum. */
  lemma FoldUnique(w: Word16, sum: nat, k: int)
    requires sum == w + 0xFFFF * k
    requires w == 0 <==> sum == 0
    ensures w == Fold(sum)
  {
    var j := FoldResidue(sum);
    ResiduesAgree(w, Fold(sum), k, j);
  }

  /** Two words that differ by a multiple of 65535 are equal, or 0 and 65535. */
  lemma ResiduesAgree(a: Word16, b: Word16, k: int, j: int)
    requires a + 0xFFFF * k == b + 0xFFFF * j && (a == 0 <==> b == 0)
    ensures a == b
  {
    var d := k - j;
    assert b - a == 0xFFFF * d;
  }

  /** Deferring the carries changes nothing. */
  lemma {:induction false} FoldedSumIsOnesSum(words: seq<Word16>)
    ensures Fold(Sum(words)) == OnesSum(words)
  {
    if words != [] {
      var init, last := words[..|words| - 1], words[|words| - 1];
      FoldedSumIsOnesSum(init);
      var k := FoldResidue(Sum(init));
      FoldUnique(OnesSum(words), Sum(words), if OnesSum(init) + last < 0x10000 then k else k + 1);
    }
  }

  lemma SumConcat(a: seq<Word16>, b: seq<Word16>)
    ensures Sum(a + b) == Sum(a) + Sum(b)
  {
    if b == [] {
      assert a + b == a;
    } else {
      assert (a + b)[..|a + b| - 1] == a + b[..|b| - 1];
      SumConcat(a, b[..|b| - 1]);
    }
  }

  lemma SumNext(words: seq<Word16>, i: nat)
    requires i < |words|
    ensures Sum(words[..i + 1]) == Sum(words[..i]) + words[i]
  {
    assert words[..i + 1][..i] == words[..i];
  }

  lemma SumReplace(words: seq<Word16>, k: nat, w: Word16)
    requires k < |words|
    ensures Sum(words[k := w]) == Sum(words) - words[k] + w
  {
    var a, b := words[..k], words[k + 1..];
    assert words == a + [words[k]] + b && words[k := w] == a + [w] + b;
    SumConcat(a + [words[k]], b);
    SumConcat(a + [w], b);
    SumConcat(a, [words[k]]);
    SumConcat(a, [w]);
    assert Sum([words[k]]) == words[k] && Sum([w]) == w;
  }

  /** The receiver's check: a zero field replaced by the complement of the sum,
      or by 0xFFFF where that complement is zero, makes the whole sum 0xFFFF. */
  lemma ReceiverSumsToOnes(words: seq<Word16>, k: nat, c: Word16)
    requires k < |words| && words[k] == 0
    requires c == Complement(OnesSum(words)) || (OnesSum(words) == 0xFFFF && c == 0xFFFF)
    ensures OnesSum(words[k := c]) == 0xFFFF
  {
    FoldedSumIsOnesSum(words);
    FoldedSumIsOnesSum(words[k := c]);
    SumReplace(words, k, c);
    var j := FoldResidue(Sum(words));
    FoldUnique(0xFFFF, Sum(words) + c, if c == Complement(OnesSum(words)) then j else j + 1);
  }

  lemma SetWordInWords(b: seq<Byte>, k: nat, w: Word16)
    requires 2 * k + 1 < |b|
    ensures Words(SetWord(b, 2 * k, w)) == Words(b)[k := w]
  {
  }

  // ---------- the C routines ----------

  method CsumFold(sum: nat) returns (out: Word16)
    requires sum < U32
    ensures out == Complement(Fold(sum))
  {
    var s: nat := sum;
    while s / 0x10000 != 0
      invariant s < U32 && Fold(s) == Fold(sum)
      decreases s
    {
      s := s % 0x10000 + s / 0x10000;
    }
    out := 0xFFFF - s;
  }

  /** ip->ihl counts 32-bit words and sits in the low half of the first byte. */
  function Ihl(ip: seq<Byte>): nat
    requires |ip| > 0
  {
    ip[0] % 16
  }

  method Ipv4HdrChecksum(ip: seq<Byte>) returns (check: Word16)
    requires |ip| > 0 && 4 * Ihl(ip) <= |ip|
    ensures check == Complement(OnesSum(Words(ip[..4 * Ihl(ip)])))
  {
    var sum: nat := 0;
    var words := Ihl(ip) * 2;
    ghost var all := Words(ip[..4 * Ihl(ip)]);
    for i := 0 to words
      invariant sum == Sum(all[..i]) <= i * 0xFFFF
    {
      SumNext(all, i);
      sum := Add32(sum, BigEndian(ip[2 * i], ip[2 * i + 1]));
    }
    assert all[..words] == all;
    FoldedSumIsOnesSum(all);
    check := CsumFold(sum);
  }

  /** A header whose checksum field was zero verifies once the checksum is in. */
  lemma Ipv4HeaderVerifies(ip: seq<Byte>, check: Word16)
    requires |ip| >= 20 && Ihl(ip) >= 5 && 4 * Ihl(ip) <= |ip|
    requires ip[10] == ip[11] == 0
    requires check == Complement(OnesSum(Words(ip[..4 * Ihl(ip)])))
    ensures Ihl(SetWord(ip, 10, check)) == Ihl(ip)
    ensures OnesSum(Words(SetWord(ip, 10, check)[..4 * Ihl(ip)])) == 0xFFFF
  {
    var h := ip[..4 * Ihl(ip)];
    assert SetWord(ip, 10, check)[..4 * Ihl(ip)] == SetWord(h, 10, check);
    SetWordInWords(h, 5, check);
    ReceiverSumsToOnes(Words(h), 5, check);
  }

  /** Everything the UDP checksum covers: addresses, protocol and UDP length of
      the pseudo header, then header and payload. */
  function UdpWords(ip: seq<Byte>, udp: seq<Byte>, payload: seq<Byte>): (w: seq<Word16>)
    requires |ip| >= 20 && |udp| == 8
  {
    HeadWords(ip, udp) + Words(payload)
  }

  function HeadWords(ip: seq<Byte>, udp: seq<Byte>): (w: seq<Word16>)
    requires |ip| >= 20 && |udp| == 8
    ensures |w| == 10
  {
    Words(ip[12..20]) + [ip[9] as nat, BigEndian(udp[4], udp[5])] + Words(udp)
  }

  function CsumAddU32(sum: nat, v: nat): (r: nat)
    requires sum < U32 && v < U32
    ensures r == (sum + v / 0x10000 + v % 0x10000) % U32
  {
    Add32(Add32(sum, v / 0x10000), v % 0x10000)
  }

  function BigEndian32(b: seq<Byte>): (v: nat)
    requires |b| == 4
    ensures v / 0x10000 == BigEndian(b[0], b[1]) && v % 0x10000 == BigEndian(b[2], b[3]) && v < U32
  {
    BigEndian(b[0], b[1]) * 0x10000 + BigEndian(b[2], b[3])
  }

  /** One more word added to a running sum that may have wrapped. */
  lemma SumTracks(sum: nat, before: nat, words: seq<Word16>, i: nat)
    requires i < |words| && Tracks(sum, before + Sum(words[..i]))
    ensures sum < U32 && Tracks(Add32(sum, words[i]), before + Sum(words[..i + 1]))
  {
    SumNext(words, i);
    AddSurvivesWrap(sum, before + Sum(words[..i]), words[i]);
  }

  /** The words of the pseudo header, as the source takes them. */
  predicate PseudoHeader(all: seq<Word16>, ip: seq<Byte>, udp: seq<Byte>)
    requires |ip| >= 20 && |udp| == 8 && |all| == 10
  {
    && all[0] == BigEndian(ip[12], ip[13]) && all[1] == BigEndian(ip[14], ip[15])
    && all[2] == BigEndian(ip[16], ip[17]) && all[3] == BigEndian(ip[18], ip[19])
    && all[4] == ip[9] && all[5] == BigEndian(udp[4], udp[5])
  }

  predicate Header(all: seq<Word16>, udp: seq<Byte>)
    requires |udp| == 8 && |all| == 10
  {
    && all[6] == BigEndian(udp[0], udp[1]) && all[7] == BigEndian(udp[2], udp[3])
    && all[8] == BigEndian(udp[4], udp[5]) && all[9] == BigEndian(udp[6], udp[7])
  }

  lemma HeaderWords(ip: seq<Byte>, udp: seq<Byte>)
    requires |ip| >= 20 && |udp| == 8
    ensures PseudoHeader(HeadWords(ip, udp), ip, udp)
    ensures Header(HeadWords(ip, udp), udp)
  {
  }

  /** The pseudo header of udp_checksum. */
  method PseudoHeaderSum(ip: seq<Byte>, udp: seq<Byte>, ghost all: seq<Word16>) returns (sum: nat)
    requires |ip| >= 20 && |udp| == 8 && |all| == 10 && PseudoHeader(all, ip, udp)
    ensures Tracks(sum, 0 + Sum(all[..6]))
  {
    sum := 0;
    SumTracks(sum, 0, all, 0);
    SumTracks(Add32(sum, all[0]), 0, all, 1);
    sum := CsumAddU32(sum, BigEndian32(ip[12..16]));
    SumTracks(sum, 0, all, 2);
    SumTracks(Add32(sum, all[2]), 0, all, 3);
    sum := CsumAddU32(sum, BigEndian32(ip[16..20]));
    SumTracks(sum, 0, all, 4);
    sum := Add32(sum, ip[9]);
    SumTracks(sum, 0, all, 5);
    sum := Add32(sum, BigEndian(udp[4], udp[5]));
  }

  /** The header part of udp_checksum. */
  method UdpHeaderSum(udp: seq<Byte>, sum0: nat, ghost all: seq<Word16>) returns (sum: nat)
    requires |udp| == 8 && |all| == 10 && Tracks(sum0, 0 + Sum(all[..6])) && Header(all, udp)
    ensures Tracks(sum, Sum(all))
  {
    sum := sum0;
    for i := 0 to 4
      invariant Tracks(sum, 0 + Sum(all[..6 + i]))
    {
      SumTracks(sum, 0, all, 6 + i);
      sum := Add32(sum, BigEndian(udp[2 * i], udp[2 * i + 1]));
    }
    assert all[..10] == all;
  }

  /** The sum stands for `before` and the first k words of the payload. */
  ghost predicate PayloadSummed(sum: nat, payload: seq<Byte>, before: nat, k: nat) {
    k <= |Words(payload)| && Tracks(sum, before + Sum(Words(payload)[..k]))
  }

  lemma WordSummed(sum: nat, payload: seq<Byte>, before: nat, k: nat, w: Word16)
    requires PayloadSummed(sum, payload, before, k) && k < |Words(payload)| && w == Words(payload)[k]
    ensures sum < U32 && PayloadSummed(Add32(sum, w), payload, before, k + 1)
  {
    SumTracks(sum, before, Words(payload), k);
  }

  lemma PairIsWord(payload: seq<Byte>, k: nat)
    requires 2 * k < |payload|
    ensures k < |Words(payload)|
    ensures Words(payload)[k] == BigEndian(payload[2 * k], if 2 * k + 1 < |payload| then payload[2 * k + 1] else 0)
  {
  }

  lemma AllSummed(sum: nat, payload: seq<Byte>, before: nat, k: nat)
    requires PayloadSummed(sum, payload, before, k) && k == (|payload| + 1) / 2
    ensures Tracks(sum, before + Sum(Words(payload)))
  {
    assert Words(payload)[..k] == Words(payload);
  }

  /** The payload part of udp_checksum, for a sum that stands for `before`. */
  method UdpPayloadSum(sum0: nat, payload: seq<Byte>, ghost before: nat) returns (sum: nat)
    requires Tracks(sum0, before) && |payload| < U32
    ensures Tracks(sum, before + Sum(Words(payload)))
  {
    sum := sum0;
    ghost var k := 0;
    var plen := |payload|;
    var i := 0;
    while i + 1 < plen
      invariant i == 2 * k <= plen && PayloadSummed(sum, payload, before, k)
    {
      var w := BigEndian(payload[i], payload[i + 1]);
      PairIsWord(payload, k);
      WordSummed(sum, payload, before, k, w);
      sum := Add32(sum, w);
      i, k := i + 2, k + 1;
    }
    if plen % 2 == 1 {
      var w := BigEndian(payload[plen - 1], 0);
      PairIsWord(payload, k);
      WordSummed(sum, payload, before, k, w);
      sum := Add32(sum, w);
      k := k + 1;
    }
    AllSummed(sum, payload, before, k);
  }

  /** What udp_checksum has added up when it folds. */
  method UdpTotal(ip: seq<Byte>, udp: seq<Byte>, payload: seq<Byte>, ghost head: seq<Word16>) returns (sum: nat)
    requires |ip| >= 20 && |udp| == 8 && |payload| < U32
    requires |head| == 10 && PseudoHeader(head, ip, udp) && Header(head, udp)
    ensures Tracks(sum, Sum(head + Words(payload)))
  {
    sum := PseudoHeaderSum(ip, udp, head);
    sum := UdpHeaderSum(udp, sum, head);
    sum := UdpPayloadSum(sum, payload, Sum(head));
    SumConcat(head, Words(payload));
  }

  /** The fold at the end of udp_checksum. */
  method UdpFold(sum: nat, ghost words: seq<Word16>) returns (check: Word16)
    requires Tracks(sum, Sum(words))
    ensures check == Transmitted(Complement(Fold(Sum(words) % U32)))
    ensures Sum(words) < U32 ==> check == Transmitted(Complement(OnesSum(words)))
  {
    TracksIsMod(sum, Sum(words));
    FoldedSumIsOnesSum(words);
    check := CsumFold(sum);
    if check == 0 { check := 0xFFFF; }
  }

  /** For every payload, what 32 bits keep of the sum; and as long as they keep
      all of it, the checksum of RFC 768. */
  method UdpChecksum(ip: seq<Byte>, udp: seq<Byte>, payload: seq<Byte>) returns (check: Word16)
    requires |ip| >= 20 && |udp| == 8 && |payload| < U32
    ensures check == Transmitted(Complement(Fold(Sum(UdpWords(ip, udp, payload)) % U32)))
    ensures Sum(UdpWords(ip, udp, payload)) < U32 ==>
              check == Transmitted(Complement(OnesSum(UdpWords(ip, udp, payload))))
  {
    HeaderWords(ip, udp);
    var sum := UdpTotal(ip, udp, payload, HeadWords(ip, udp));
    check := UdpFold(sum, UdpWords(ip, udp, payload));
  }

  /** A zero checksum means none was computed, so zero is sent as all ones. */
  function Transmitted(c: Word16): Word16 { if c == 0 then 0xFFFF else c }

  /** No datagram that UDP can carry makes the running sum wrap. */
  lemma UdpSumFits(ip: seq<Byte>, udp: seq<Byte>, payload: seq<Byte>)
    requires |ip| >= 20 && |udp| == 8 && |payload| <= 0xFFFF - 8
    ensures Sum(UdpWords(ip, udp, payload)) < U32
  {
    assert |UdpWords(ip, udp, payload)| <= 10 + 0x8000;
  }

  /** A datagram whose checksum field was zero verifies at the receiver once the
      checksum is in, also where the computed zero was sent as 0xFFFF. */
  lemma UdpDatagramVerifies(ip: seq<Byte>, udp: seq<Byte>, payload: seq<Byte>, check: Word16)
    requires |ip| >= 20 && |udp| == 8 && udp[6] == udp[7] == 0
    requires check == Transmitted(Complement(OnesSum(UdpWords(ip, udp, payload))))
    ensures OnesSum(UdpWords(ip, SetWord(udp, 6, check), payload)) == 0xFFFF
  {
    var words := UdpWords(ip, udp, payload);
    SetWordInWords(udp, 3, check);
    assert UdpWords(ip, SetWord(udp, 6, check), payload) == words[9 := check];
    ReceiverSumsToOnes(words, 9, check);
  }
}
