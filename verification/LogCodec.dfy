/** The record format of pkg/appendlog/fs_store.go: eight bytes of offset, four
    bytes of length, both little endian, then the data; and what a scan finds in
    a segment file, whole or torn. */
module LogCodec {

  type Byte = b: nat | b < 256

  const U64: nat := 0x1_0000_0000_0000_0000
  const MAX_U32: nat := 0xFFFF_FFFF
  const HEADER: nat := 12

  datatype Record = Record(offset: nat, data: seq<Byte>)

  predicate Encodable(r: Record) { r.offset < U64 && |r.data| <= MAX_U32 }

  function Le(n: nat, width: nat): (b: seq<Byte>)
    ensures |b| == width
  {
    if width == 0 then [] else [n % 256] + Le(n / 256, width - 1)
  }

  function FromLe(b: seq<Byte>): nat {
    if b == [] then 0 else b[0] as nat + 256 * FromLe(b[1..])
  }

  function Pow256(k: nat): nat { if k == 0 then 1 else 256 * Pow256(k - 1) }

  lemma {:induction false} LeRoundTrip(n: nat, width: nat)
    requires n < Pow256(width)
    ensures FromLe(Le(n, width)) == n
  {
    if width > 0 {
      LeRoundTrip(n / 256, width - 1);
      assert Le(n, width)[1..] == Le(n / 256, width - 1);
    }
  }

  function Encode(r: Record): (b: seq<Byte>)
    ensures |b| == HEADER + |r.data|
  {
    Le(r.offset, 8) + Le(|r.data|, 4) + r.data
  }

  function EncodeAll(recs: seq<Record>): seq<Byte> {
    if recs == [] then [] else Encode(recs[0]) + EncodeAll(recs[1..])
  }

  /** The length field of the header at the front of b. */
  function DataLen(b: seq<Byte>): nat
    requires |b| >= HEADER
  {
    FromLe(b[8..12])
  }

  predicate Whole(b: seq<Byte>) { |b| >= HEADER && |b| >= HEADER + DataLen(b) }

  /** The complete record at the front of b. */
  function First(b: seq<Byte>): Record
    requires Whole(b)
  {
    Record(FromLe(b[..8]), b[HEADER..HEADER + DataLen(b)])
  }

  /** The complete records of a segment, up to a torn tail. */
  function Scan(b: seq<Byte>): seq<Record>
    decreases |b|
  {
    if !Whole(b) then [] else [First(b)] + Scan(b[HEADER + DataLen(b)..])
  }

  lemma FirstOfEncoded(r: Record, rest: seq<Byte>)
    requires Encodable(r)
    ensures DataLen(Encode(r) + rest) == |r.data|
    ensures Whole(Encode(r) + rest) && First(Encode(r) + rest) == r
    ensures (Encode(r) + rest)[|Encode(r)|..] == rest
  {
    var b := Encode(r) + rest;
    PowersOf256();
    assert b[..8] == Le(r.offset, 8) && b[8..12] == Le(|r.data|, 4);
    LeRoundTrip(r.offset, 8);
    LeRoundTrip(|r.data|, 4);
    assert b[HEADER..HEADER + |r.data|] == r.data;
  }

  lemma ScanFirst(r: Record, rest: seq<Byte>)
    requires Encodable(r)
    ensures Scan(Encode(r) + rest) == [r] + Scan(rest)
  {
    FirstOfEncoded(r, rest);
  }

  /** A proper prefix of one record is not a record. */
  lemma TornIsNotWhole(r: Record, k: nat)
    requires Encodable(r) && k < |Encode(r)|
    ensures !Whole(Encode(r)[..k])
  {
    if k >= HEADER {
      FirstOfEncoded(r, []);
      assert Encode(r) + [] == Encode(r);
      assert Encode(r)[..k][8..12] == Encode(r)[8..12];
    }
  }

  predicate AllEncodable(recs: seq<Record>) { forall i :: 0 <= i < |recs| ==> Encodable(recs[i]) }

  /** How many records lie wholly within the first k bytes. */
  function CompleteIn(recs: seq<Record>, k: nat): (m: nat)
    ensures m <= |recs|
  {
    if recs == [] || k < |Encode(recs[0])| then 0
    else 1 + CompleteIn(recs[1..], k - |Encode(recs[0])|)
  }

  /** A prefix of all records, seen from the first of them. */
  lemma PrefixSplits(recs: seq<Record>, k: nat)
    requires recs != [] && k <= |EncodeAll(recs)|
    ensures k < |Encode(recs[0])| ==> EncodeAll(recs)[..k] == Encode(recs[0])[..k]
    ensures k >= |Encode(recs[0])| ==> k - |Encode(recs[0])| <= |EncodeAll(recs[1..])|
    ensures k >= |Encode(recs[0])| ==>
              EncodeAll(recs)[..k] == Encode(recs[0]) + EncodeAll(recs[1..])[..k - |Encode(recs[0])|]
  {
  }

  /** A scan of any byte prefix finds exactly the complete records. */
  lemma {:induction false} ScanOfPrefix(recs: seq<Record>, k: nat)
    requires AllEncodable(recs) && k <= |EncodeAll(recs)|
    ensures Scan(EncodeAll(recs)[..k]) == recs[..CompleteIn(recs, k)]
    decreases |recs|
  {
    if recs != [] {
      PrefixSplits(recs, k);
      var r, n := recs[0], |Encode(recs[0])|;
      if k < n {
        TornIsNotWhole(r, k);
      } else {
        var tail, m := EncodeAll(recs[1..])[..k - n], CompleteIn(recs[1..], k - n);
        calc {
          Scan(EncodeAll(recs)[..k]);
          Scan(Encode(r) + tail);
          { ScanFirst(r, tail); }
          [r] + Scan(tail);
          { ScanOfPrefix(recs[1..], k - n); }
          [r] + recs[1..][..m];
          recs[..1 + m];
        }
      }
    }
  }

  lemma {:induction false} EncodeAllConcat(a: seq<Record>, b: seq<Record>)
    ensures EncodeAll(a + b) == EncodeAll(a) + EncodeAll(b)
  {
    if a == [] {
      assert a + b == b;
    } else {
      assert (a + b)[1..] == a[1..] + b;
      EncodeAllConcat(a[1..], b);
    }
  }

  /** Records written in full before byte k are complete within k bytes. */
  lemma {:induction false} CompleteAtLeast(recs: seq<Record>, m: nat, k: nat)
    requires m <= |recs| && |EncodeAll(recs[..m])| <= k
    ensures CompleteIn(recs, k) >= m
  {
    if m > 0 {
      assert recs[..m][1..] == recs[1..][..m - 1];
      CompleteAtLeast(recs[1..], m - 1, k - |Encode(recs[0])|);
    }
  }

  lemma ScanOfAll(recs: seq<Record>)
    requires AllEncodable(recs)
    ensures Scan(EncodeAll(recs)) == recs
  {
    var k := |EncodeAll(recs)|;
    assert EncodeAll(recs)[..k] == EncodeAll(recs) && recs[..|recs|] == recs;
    ScanOfPrefix(recs, k);
    CompleteAtLeast(recs, |recs|, k);
  }

  /** Records appended behind an untorn segment are all found. */
  lemma AppendsFoundIfUntorn(recs: seq<Record>, more: seq<Record>)
    requires AllEncodable(recs) && AllEncodable(more)
    ensures Scan(EncodeAll(recs) + EncodeAll(more)) == recs + more
  {
    EncodeAllConcat(recs, more);
    ScanOfAll(recs + more);
  }

  /** Behind a torn tail they are not: recovery leaves the tail in place, and the
      torn record is then completed with the bytes of whatever comes next. */
  lemma TornTailSwallowsAppends(r: Record, k: nat, more: seq<Byte>)
    requires Encodable(r) && HEADER <= k < |Encode(r)| && |Encode(r)| - k <= |more|
    ensures var b := Encode(r)[..k] + more;
            && Whole(b)
            && First(b) == Record(r.offset, r.data[..k - HEADER] + more[..|Encode(r)| - k])
  {
    var e := Encode(r);
    var cut := e[..k];
    var b := cut + more;
    HeaderDecodes(r);
    assert b[..8] == e[..8] && b[8..12] == e[8..12];
    SliceAcross(cut, more, HEADER, |e|);
    CutData(r, k);
  }

  lemma HeaderDecodes(r: Record)
    requires Encodable(r)
    ensures FromLe(Encode(r)[..8]) == r.offset && FromLe(Encode(r)[8..12]) == |r.data|
  {
    PowersOf256();
    assert Encode(r)[..8] == Le(r.offset, 8) && Encode(r)[8..12] == Le(|r.data|, 4);
    LeRoundTrip(r.offset, 8);
    LeRoundTrip(|r.data|, 4);
  }

  lemma SliceAcross(a: seq<Byte>, b: seq<Byte>, i: nat, n: nat)
    requires i <= |a| <= n <= |a| + |b|
    ensures (a + b)[i..n] == a[i..] + b[..n - |a|]
  {
  }

  lemma CutData(r: Record, k: nat)
    requires HEADER <= k <= |Encode(r)|
    ensures Encode(r)[..k][HEADER..] == r.data[..k - HEADER]
  {
  }

  lemma {:induction false} ScanBehind(recs: seq<Record>, rest: seq<Byte>)
    requires AllEncodable(recs)
    ensures Scan(EncodeAll(recs) + rest) == recs + Scan(rest)
    decreases |recs|
  {
    if recs == [] {
      assert EncodeAll(recs) + rest == rest;
    } else {
      ScanBehind(recs[1..], rest);
      ScanStepsBack(recs[0], recs[1..], EncodeAll(recs[1..]), rest);
    }
  }

  lemma {:induction false} ScanStepsBack(r: Record, recs: seq<Record>, codes: seq<Byte>, rest: seq<Byte>)
    requires Encodable(r) && Scan(codes + rest) == recs + Scan(rest)
    ensures Scan((Encode(r) + codes) + rest) == ([r] + recs) + Scan(rest)
  {
    ScanFirst(r, codes + rest);
    assert (Encode(r) + codes) + rest == Encode(r) + (codes + rest);
    assert [r] + (recs + Scan(rest)) == ([r] + recs) + Scan(rest);
  }

  // ---------- any file ----------

  lemma {:induction false} FromLeInverts(b: seq<Byte>)
    ensures FromLe(b) < Pow256(|b|) && Le(FromLe(b), |b|) == b
  {
    if b != [] {
      FromLeInverts(b[1..]);
      assert FromLe(b) % 256 == b[0] && FromLe(b) / 256 == FromLe(b[1..]);
    }
  }

  lemma PowersOf256()
    ensures Pow256(4) == MAX_U32 + 1 && Pow256(8) == U64
  {
    assert Pow256(6) == 256 * 256 * Pow256(4);
  }

  /** The bytes of a complete record are the encoding of what it decodes to. */
  lemma {:induction false} WholeIsEncoded(b: seq<Byte>)
    requires Whole(b)
    ensures Encodable(First(b)) && |Encode(First(b))| == HEADER + DataLen(b)
    ensures b == Encode(First(b)) + b[HEADER + DataLen(b)..]
  {
    var n := DataLen(b);
    PowersOf256();
    FromLeInverts(b[..8]);
    FromLeInverts(b[8..12]);
    assert b == b[..8] + b[8..12] + b[HEADER..HEADER + n] + b[HEADER + n..];
  }

  /** What a file holds behind its last complete record. */
  function Torn(b: seq<Byte>): seq<Byte>
    decreases |b|
  {
    if !Whole(b) then b else Torn(b[HEADER + DataLen(b)..])
  }

  /** Every file is the encoding of its complete records and a torn tail. */
  lemma {:induction false} FileSplits(b: seq<Byte>)
    ensures AllEncodable(Scan(b)) && !Whole(Torn(b))
    ensures b == EncodeAll(Scan(b)) + Torn(b)
    decreases |b|
  {
    if Whole(b) {
      var r, rest := First(b), b[HEADER + DataLen(b)..];
      WholeIsEncoded(b);
      FileSplits(rest);
      EncodeAllFirst(r, Scan(rest));
      Reassociate(Encode(r), EncodeAll(Scan(rest)), Torn(rest));
    }
  }

  lemma Reassociate(a: seq<Byte>, b: seq<Byte>, c: seq<Byte>)
    ensures a + (b + c) == (a + b) + c
  {
  }

  lemma {:induction false} EncodeAllFirst(r: Record, recs: seq<Record>)
    ensures EncodeAll([r] + recs) == Encode(r) + EncodeAll(recs)
  {
    assert ([r] + recs)[1..] == recs;
  }

  // ---------- appending after recovery ----------

  /** Records as Append hands them out: consecutive offsets, data never empty. */
  ghost predicate Appendable(more: seq<Record>, next: nat) {
    forall i :: 0 <= i < |more| ==> more[i].offset == next + i && Encodable(more[i]) && more[i].data != []
  }

  lemma {:induction false} FoundIsEncoded(torn: seq<Byte>, r: Record)
    requires Encodable(r) && |r.data| == 1 && Scan(torn + Encode(r)) == [r]
    ensures (torn + Encode(r))[HEADER] == r.data[0]
  {
    var b := torn + Encode(r);
    assert Scan(b)[0] == First(b);
    WholeIsEncoded(b);
  }

  lemma HeaderBytes(a: Record, b: Record, i: nat)
    requires a.offset == b.offset && |a.data| == |b.data| && i < HEADER
    ensures Encode(a)[i] == Encode(b)[i]
  {
    var header := Le(a.offset, 8) + Le(|a.data|, 4);
    assert Encode(a)[i] == header[i] && Encode(b)[i] == header[i];
  }

  /** Behind a torn tail, at any offset, two records of one byte that differ in it
      cannot both be found: byte 12 is either the tail's or their header's. */
  lemma {:induction false} OneIsLost(torn: seq<Byte>, offset: nat)
    requires torn != [] && offset < U64
    ensures var zero, one := Record(offset, [0]), Record(offset, [1]);
            Scan(torn + Encode(zero)) != [zero] || Scan(torn + Encode(one)) != [one]
  {
    var zero, one := Record(offset, [0]), Record(offset, [1]);
    var x, y := torn + Encode(zero), torn + Encode(one);
    assert x[HEADER] == y[HEADER] by {
      if |torn| <= HEADER { HeaderBytes(zero, one, HEADER - |torn|); }
    }
    if Scan(x) == [zero] && Scan(y) == [one] {
      FoundIsEncoded(torn, zero);
      FoundIsEncoded(torn, one);
    }
  }

  lemma EncodeAllOne(r: Record)
    ensures EncodeAll([r]) == Encode(r)
  {
    assert [r][1..] == [] && Encode(r) + [] == Encode(r);
  }

  lemma SameBehind(a: seq<Record>, b: seq<Record>, c: seq<Record>)
    ensures a + b == a + c <==> b == c
  {
    if a + b == a + c { assert b == (a + b)[|a|..] == (a + c)[|a|..] == c; }
  }

  lemma {:induction false} AppendOne(file: seq<Byte>, r: Record)
    requires Encodable(r)
    ensures Scan(file + EncodeAll([r])) == Scan(file) + [r] <==> Scan(Torn(file) + Encode(r)) == [r]
  {
    FileSplits(file);
    var recs, torn, e := Scan(file), Torn(file), Encode(r);
    EncodeAllOne(r);
    Reassociate(EncodeAll(recs), torn, e);
    ScanBehind(recs, torn + e);
    SameBehind(recs, Scan(torn + e), [r]);
  }

  lemma {:induction false} OneAppendIsLost(file: seq<Byte>, next: nat) returns (r: Record)
    requires Torn(file) != [] && next < U64
    ensures Appendable([r], next) && |r.data| == 1 && Scan(file + EncodeAll([r])) != Scan(file) + [r]
  {
    OneIsLost(Torn(file), next);
    var zero, one := Record(next, [0]), Record(next, [1]);
    AppendOne(file, zero);
    AppendOne(file, one);
    r := if Scan(file + EncodeAll([zero])) != Scan(file) + [zero] then zero else one;
  }

  /** Whatever Append hands out from offset `next` on is found if it is written
      behind a file, all of it into that file, if and only if the file ends with
      its last complete record. */
  lemma {:induction false} AppendsFoundExactlyWhen(file: seq<Byte>, next: nat)
    requires next < U64
    ensures (forall more :: Appendable(more, next) ==> Scan(file + EncodeAll(more)) == Scan(file) + more)
            <==> Torn(file) == []
  {
    FileSplits(file);
    if Torn(file) == [] {
      assert file == EncodeAll(Scan(file));
      forall more | Appendable(more, next) ensures Scan(file + EncodeAll(more)) == Scan(file) + more {
        AppendsFoundIfUntorn(Scan(file), more);
      }
    } else {
      var r := OneAppendIsLost(file, next);
    }
  }

  // ---------- selection ----------

  /** The first `limit` records whose offset is at least `from`. */
  function Select(recs: seq<Record>, from: nat, limit: nat): (r: seq<Record>)
    ensures |r| <= limit
  {
    if recs == [] || limit == 0 then []
    else if recs[0].offset < from then Select(recs[1..], from, limit)
    else [recs[0]] + Select(recs[1..], from, limit - 1)
  }

  /** The largest offset, or 0. */
  function MaxOffset(recs: seq<Record>): nat {
    if recs == [] then 0
    else
      var m := MaxOffset(recs[..|recs| - 1]);
      if recs[|recs| - 1].offset > m then recs[|recs| - 1].offset else m
  }

  lemma {:induction false} MaxOffsetBounds(recs: seq<Record>)
    ensures forall i :: 0 <= i < |recs| ==> recs[i].offset <= MaxOffset(recs)
    ensures MaxOffset(recs) == 0 || exists i :: 0 <= i < |recs| && recs[i].offset == MaxOffset(recs)
  {
    if recs != [] {
      var init := recs[..|recs| - 1];
      MaxOffsetBounds(init);
      if MaxOffset(init) != 0 && MaxOffset(recs) == MaxOffset(init) {
        var i :| 0 <= i < |init| && init[i].offset == MaxOffset(init);
        assert recs[i].offset == MaxOffset(recs);
      }
    }
  }

  ghost predicate Increasing(recs: seq<Record>) {
    forall i, j :: 0 <= i < j < |recs| ==> recs[i].offset < recs[j].offset
  }
}
