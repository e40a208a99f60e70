/** The write path of fs_store.go: records go through a buffer into the active
    segment file, which is sealed when it would grow too large.  A crash may cut
    the active file anywhere behind its synced part. */
module LogWriter {
  import opened LogCodec
  import opened LogReader

  /** Sealed segments hold exactly the records of their part. */
  ghost predicate Seals(segs: seq<seq<Byte>>, parts: seq<seq<Record>>) {
    && |segs| == |parts|
    && forall i :: 0 <= i < |parts| ==> AllEncodable(parts[i]) && segs[i] == EncodeAll(parts[i])
  }

  /** Sealed segments followed by any byte prefix of the active one decode to a
      prefix of the log, cut exactly after the last complete record. */
  lemma DiskDecodes(segs: seq<seq<Byte>>, parts: seq<seq<Record>>, recs: seq<Record>, k: nat)
    requires Seals(segs, parts) && AllEncodable(recs) && k <= |EncodeAll(recs)|
    ensures Scans(segs + [EncodeAll(recs)[..k]]) == parts + [recs[..CompleteIn(recs, k)]]
    ensures Records(segs + [EncodeAll(recs)[..k]]) == Flatten(parts) + recs[..CompleteIn(recs, k)]
  {
    var disk, found := segs + [EncodeAll(recs)[..k]], recs[..CompleteIn(recs, k)];
    ScanOfPrefix(recs, k);
    forall i | 0 <= i < |parts| ensures Scan(segs[i]) == parts[i] { ScanOfAll(parts[i]); }
    assert Scans(disk) == parts + [found];
    FlattenSnoc(parts, found);
  }

  /** With fsync, sealed files are synced to their end. */
  ghost predicate SealsSynced(segs: seq<seq<Byte>>, synced: seq<nat>, fsync: bool) {
    && |synced| == |segs|
    && (fsync ==> forall i :: 0 <= i < |segs| ==> synced[i] == |segs[i]|)
  }

  lemma SealsMore(segs: seq<seq<Byte>>, parts: seq<seq<Record>>, recs: seq<Record>)
    requires Seals(segs, parts) && AllEncodable(recs)
    ensures Seals(segs + [EncodeAll(recs)], parts + [recs])
  {
  }

  lemma SealsSyncedMore(segs: seq<seq<Byte>>, synced: seq<nat>, fsync: bool, seg: seq<Byte>, n: nat)
    requires SealsSynced(segs, synced, fsync) && (fsync ==> n == |seg|)
    ensures SealsSynced(segs + [seg], synced + [n], fsync)
  {
  }

  /** The active file, its buffer and the unwritten rest make up its records, and
      the acknowledged ones lie within the synced bytes. */
  ghost predicate ActiveOk(active: seq<Byte>, buf: seq<Byte>, unwritten: seq<Byte>, recs: seq<Record>,
                           synced: nat, stable: nat) {
    && AllEncodable(recs)
    && active + buf + unwritten == EncodeAll(recs)
    && synced <= |active|
    && stable <= |recs| && |EncodeAll(recs[..stable])| <= synced
  }

  lemma UntornSeals(segs: seq<seq<Byte>>)
    requires forall i :: 0 <= i < |segs| ==> Torn(segs[i]) == []
    ensures Seals(segs, Scans(segs))
  {
    forall i | 0 <= i < |segs| ensures AllEncodable(Scan(segs[i])) && segs[i] == EncodeAll(Scan(segs[i])) {
      FileSplits(segs[i]);
    }
  }

  lemma UntornActive(active: seq<Byte>)
    requires Torn(active) == []
    ensures ActiveOk(active, [], [], Scan(active), |active|, |Scan(active)|)
  {
    FileSplits(active);
    assert active + [] + [] == active == EncodeAll(Scan(active));
    assert Scan(active)[..|Scan(active)|] == Scan(active);
  }

  /** Where one more record goes. */
  lemma AppendOneFile(sealed: seq<seq<Byte>>, active: seq<Byte>, r: Record, maxSegmentBytes: int)
    ensures sealed + AppendAll(active, [r], maxSegmentBytes)
         == if |active| + HEADER + |r.data| > maxSegmentBytes then sealed + [active] + [Encode(r)]
            else sealed + [active + Encode(r)]
  {
    assert [r][1..] == [];
    assert AppendAll(Encode(r), [], maxSegmentBytes) == [Encode(r)];
  }

  lemma FreshSegment()
    ensures ActiveOk([], [], [], [], 0, 0)
  {
    var none: seq<Record> := [];
    assert none[..0] == [];
  }

  /** The files at one moment: the sealed ones with their records, and the active
      one with its records, of which it may lack the end. */
  datatype View = View(sealed: seq<seq<Byte>>, parts: seq<seq<Record>>, active: seq<Byte>, recs: seq<Record>)

  ghost predicate ViewOk(v: View) {
    Seals(v.sealed, v.parts) && AllEncodable(v.recs) && v.active <= EncodeAll(v.recs)
  }

  /** From one moment to a later one: sealed files stay, and the active one grows
      or is sealed. */
  ghost predicate Grows(v: View, w: View) {
    && |v.sealed| == |v.parts| && |w.sealed| == |w.parts|
    && v.sealed <= w.sealed && v.parts <= w.parts
    && (|w.sealed| == |v.sealed| ==> v.active <= w.active && v.recs <= w.recs)
    && (|w.sealed| > |v.sealed| ==> v.active <= w.sealed[|v.sealed|] && v.recs <= w.parts[|v.sealed|])
  }

  lemma GrowsFurther(a: View, b: View, c: View)
    requires Grows(a, b) && Grows(b, c)
    ensures Grows(a, c)
  {
    if |b.sealed| > |a.sealed| {
      assert c.sealed[|a.sealed|] == b.sealed[|a.sealed|] && c.parts[|a.sealed|] == b.parts[|a.sealed|];
    }
  }

  datatype WriteResult = Written | Closed | InvalidData

  class FsStore {
    const maxSegmentBytes: int
    const fsync: bool               // DurabilityFsync
    var closed: bool
    var sealed: seq<seq<Byte>>      // rotated segment files
    var active: seq<Byte>           // what the active file holds
    var buf: seq<Byte>              // bytes in the bufio.Writer
    var activeSize: int

    ghost var parts: seq<seq<Record>>   // the records of each sealed segment
    ghost var recs: seq<Record>         // of the active one, with the one being written
    ghost var unwritten: seq<Byte>      // what is still missing of the latter
    ghost var synced: nat               // bytes of the active file that survive a crash
    ghost var sealedSynced: seq<nat>    // the same, for each sealed file
    ghost var stable: nat               // acknowledged records of the active segment

    ghost function Log(): seq<Record>
      reads this
    {
      Flatten(parts) + recs
    }

    ghost function Snap(): View
      reads this
    {
      View(sealed, parts, active, recs)
    }

    /** The files once all that is buffered or still to be written is in them. */
    ghost function Files(): seq<seq<Byte>>
      reads this
    {
      sealed + [active + buf + unwritten]
    }

    /** How many records of the log a crash cannot take away. */
    ghost function Acked(): nat
      reads this
    {
      |Flatten(parts)| + stable
    }

    /** Holds at every point at which the process may crash. */
    ghost predicate Valid()
      reads this
    {
      && Seals(sealed, parts) && SealsSynced(sealed, sealedSynced, fsync)
      && ActiveOk(active, buf, unwritten, recs, synced, stable)
    }

    /** Between two operations nothing is half written. */
    ghost predicate Ready()
      reads this
    {
      Valid() && unwritten == [] && activeSize == |active| + |buf|
    }

    /** In the middle of appendToDisk: the header is written, the data is not. */
    ghost predicate HalfWritten(data: seq<Byte>)
      reads this
    {
      Valid() && unwritten == data && activeSize + HEADER == |active| + |buf|
    }

    /** The store opened on files none of which has a torn tail. */
    constructor (maxSegmentBytes: int, fsync: bool, sealed: seq<seq<Byte>>, active: seq<Byte>)
      requires Torn(active) == [] && forall i :: 0 <= i < |sealed| ==> Torn(sealed[i]) == []
      ensures Ready() && Log() == Records(sealed + [active]) && Acked() == |Log()| && !closed
      ensures this.sealed == sealed && this.active == active
    {
      this.maxSegmentBytes, this.fsync, closed := maxSegmentBytes, fsync, false;
      this.sealed, this.active, buf, activeSize := sealed, active, [], |active|;
      parts, recs, unwritten := Scans(sealed), Scan(active), [];
      synced, stable := |active|, |Scan(active)|;
      sealedSynced := seq(|sealed|, i requires 0 <= i < |sealed| => |sealed[i]|);
      UntornSeals(sealed);
      UntornActive(active);
      assert Scans(sealed + [active]) == Scans(sealed) + [Scan(active)];
      FlattenSnoc(Scans(sealed), Scan(active));
    }

    /** bufio.Writer.Write: any number of the oldest buffered bytes reach the file. */
    method BufWrite(p: seq<Byte>)
      requires Valid() && p <= unwritten
      modifies this`active, this`buf, this`unwritten
      ensures Valid() && unwritten == old(unwritten)[|p|..]
      ensures |active| + |buf| == old(|active| + |buf|) + |p| && old(active) <= active
      ensures Files() == old(Files())
    {
      var n: int := *;
      n := if n < 0 then 0 else if n > |buf| + |p| then |buf| + |p| else n;
      ghost var written := active + buf + p;
      assert active + buf + unwritten == written + unwritten[|p|..];
      var pending := buf + p;
      active, buf, unwritten := active + pending[..n], pending[n..], unwritten[|p|..];
      assert active + buf == written;
    }

    method FlushBuf()
      requires Valid()
      modifies this`active, this`buf
      ensures Valid() && buf == [] && active == old(active + buf) && Files() == old(Files())
    {
      active, buf := active + buf, [];
      assert active + buf == old(active + buf);
    }

    method SyncFile()
      requires Valid()
      modifies this`synced
      ensures Valid() && synced == |active|
    {
      synced := |active|;
    }

    /** Close the active file and open the next, empty one. */
    method NextSegment()
      requires Ready() && buf == [] && (fsync ==> synced == |active|)
      modifies this`sealed, this`sealedSynced, this`active, this`activeSize
      modifies this`parts, this`recs, this`synced, this`stable
      ensures Ready() && Log() == old(Log()) && Acked() == |Log()|
      ensures Grows(old(Snap()), Snap()) && sealed == old(sealed + [active]) && active == []
    {
      ghost var before := Flatten(parts) + recs;
      assert active == EncodeAll(recs) by { assert active == active + buf + unwritten; }
      SealsMore(sealed, parts, recs);
      SealsSyncedMore(sealed, sealedSynced, fsync, active, synced);
      FlattenSnoc(parts, recs);
      FreshSegment();
      sealed, sealedSynced, parts := sealed + [active], sealedSynced + [synced], parts + [recs];
      recs, synced, stable := [], 0, 0;
      active, activeSize := [], 0;
      assert before + [] == before;
    }

    method RotateLocked()
      requires Ready()
      modifies this
      ensures Ready() && Log() == old(Log()) && Acked() == |Log()| && closed == old(closed)
      ensures Grows(old(Snap()), Snap()) && sealed == old(sealed + [active + buf]) && active == buf == []
    {
      FlushBuf();
      if fsync { SyncFile(); }
      NextSegment();
    }

    /** From here on the log counts r, though none of its bytes is written. */
    ghost method BeginRecord(r: Record)
      requires Ready() && Encodable(r)
      modifies this`unwritten, this`recs
      ensures Valid() && unwritten == Encode(r) && recs == old(recs) + [r] && Log() == old(Log()) + [r]
    {
      EncodeAllConcat(recs, [r]);
      assert EncodeAll([r]) == Encode(r) by { assert [r][1..] == []; }
      assert (recs + [r])[..stable] == recs[..stable];
      assert Flatten(parts) + recs + [r] == Flatten(parts) + (recs + [r]);
      recs, unwritten := recs + [r], Encode(r);
    }

    /** The header, through the buffer. */
    method WriteHeader(r: Record)
      requires Ready() && Encodable(r)
      modifies this`active, this`buf, this`unwritten, this`recs
      ensures HalfWritten(r.data) && Log() == old(Log()) + [r]
      ensures old(active) <= active && old(recs) <= recs
      ensures Files() == sealed + [old(active + buf) + Encode(r)]
    {
      var hdr := Le(r.offset, 8) + Le(|r.data|, 4);
      BeginRecord(r);
      assert hdr <= unwritten && unwritten[|hdr|..] == r.data;
      BufWrite(hdr);
    }

    /** The data, through the buffer. */
    method WriteData(data: seq<Byte>)
      requires HalfWritten(data)
      modifies this`active, this`buf, this`unwritten, this`activeSize
      ensures Ready() && Log() == old(Log()) && old(active) <= active && Files() == old(Files())
    {
      BufWrite(data);
      activeSize := activeSize + HEADER + |data|;
    }

    /** appendToDisk as far as the header. */
    method AppendHeader(r: Record)
      requires Ready() && Encodable(r)
      modifies this
      ensures HalfWritten(r.data) && Log() == old(Log()) + [r] && closed == old(closed)
      ensures Acked() >= old(Acked()) && Grows(old(Snap()), Snap())
      ensures Files() == old(sealed) + AppendAll(old(active + buf), [r], maxSegmentBytes)
    {
      AppendOneFile(sealed, active + buf, r, maxSegmentBytes);
      if activeSize + HEADER + |r.data| > maxSegmentBytes {
        RotateLocked();
        assert active + buf + Encode(r) == Encode(r);
      }
      WriteHeader(r);
    }

    /** The rest of appendToDisk. */
    method AppendData(data: seq<Byte>)
      requires HalfWritten(data)
      modifies this`active, this`buf, this`unwritten, this`activeSize, this`synced, this`stable
      ensures Ready() && Log() == old(Log()) && Acked() >= old(Acked())
      ensures fsync ==> Acked() == |Log()| && buf == []
      ensures Grows(old(Snap()), Snap()) && Files() == old(Files())
    {
      WriteData(data);
      if fsync { Acknowledge(); }
    }

    method AppendToDisk(offset: nat, data: seq<Byte>) returns (result: WriteResult)
      requires Ready() && offset < U64
      modifies this
      ensures Ready() && closed == old(closed)
      ensures result == if |data| > MAX_U32 then InvalidData else if old(closed) then Closed else Written
      ensures Log() == old(Log()) + if result == Written then [Record(offset, data)] else []
      ensures result == Written && fsync ==> Acked() == |Log()| && buf == []
      ensures var more := if result == Written then [Record(offset, data)] else [];
              Files() == old(sealed) + AppendAll(old(active + buf), more, maxSegmentBytes)
    {
      assert Log() + [] == Log() && active + buf + unwritten == active + buf;
      if |data| > MAX_U32 { return InvalidData; }
      if closed { return Closed; }
      AppendHeader(Record(offset, data));
      AppendData(data);
      result := Written;
    }

    /** Close, once the flusher has drained the channel: from here on appends
        and syncs are refused, and what was written before is in the files. */
    method Close()
      requires Ready()
      modifies this`closed, this`active, this`buf
      ensures Ready() && closed && Log() == old(Log())
      ensures !old(closed) ==> buf == []
      ensures Grows(old(Snap()), Snap()) && Files() == old(Files())
    {
      if closed { return; }
      closed := true;
      FlushBuf();
    }

    /** Flush and fsync, after which every record so far is acknowledged. */
    method Acknowledge()
      requires Ready()
      modifies this`active, this`buf, this`synced, this`stable
      ensures Ready() && stable == |recs| && buf == [] && old(active) <= active && Files() == old(Files())
    {
      FlushBuf();
      SyncFile();
      stable := |recs|;
      assert recs[..|recs|] == recs;
    }

    method Sync() returns (ok: bool)
      requires Ready()
      modifies this`active, this`buf, this`synced
      ensures Ready() && ok == !closed && (ok ==> buf == [] && synced == |active|)
      ensures Log() == old(Log()) && Acked() == old(Acked())
      ensures Grows(old(Snap()), Snap()) && Files() == old(Files())
    {
      if closed { return false; }
      FlushBuf();
      SyncFile();
      ok := true;
    }
  }

  /** What a crash may leave of the files: each cut anywhere behind its synced part. */
  ghost predicate Survives(s: FsStore, disk: seq<seq<Byte>>)
    reads s
    requires s.Valid()
  {
    && |disk| == |s.sealed| + 1
    && (forall i :: 0 <= i < |s.sealed| ==> disk[i] <= s.sealed[i] && s.sealedSynced[i] <= |disk[i]|)
    && disk[|s.sealed|] <= s.active && s.synced <= |disk[|s.sealed|]|
  }

  /** With fsync durability, whatever a crash leaves decodes to a prefix of the
      log that holds every acknowledged record and is cut exactly after the last
      complete one; the offset recovery hands out next is above all of it if and
      only if the last 64-bit offset is not in it. */
  lemma CrashKeepsAcknowledged(s: FsStore, disk: seq<seq<Byte>>)
    requires s.Valid() && s.fsync && Survives(s, disk)
    ensures var found := Records(disk);
            && found <= s.Log()
            && s.Acked() <= |found|
            && found == Flatten(s.parts) + s.recs[..CompleteIn(s.recs, |disk[|s.sealed|]|)]
            && ((forall r :: r in found ==> r.offset < NextOffset(found))
                <==> (forall r :: r in found ==> r.offset + 1 < U64))
  {
    var tail := disk[|s.sealed|];
    var k := |tail|;
    forall i | 0 <= i < |s.sealed| ensures disk[i] == s.sealed[i] {
      assert disk[i] <= s.sealed[i] && s.sealedSynced[i] == |s.sealed[i]|;
    }
    assert disk == s.sealed + [tail];
    assert tail == EncodeAll(s.recs)[..k];
    DiskDecodes(s.sealed, s.parts, s.recs, k);
    CompleteAtLeast(s.recs, s.stable, k);
    ScannedOffsets(disk);
    NextOffsetIsFreshWhen(Records(disk));
  }

  /** The files as they are at any moment, read without a lock. */
  ghost function Disk(s: FsStore): seq<seq<Byte>>
    reads s
  {
    s.sealed + [s.active]
  }

  /** How many records of the log lie complete in the files. */
  ghost function Visible(s: FsStore): nat
    reads s
  {
    |Flatten(s.parts)| + CompleteIn(s.recs, |s.active|)
  }

  lemma VisiblePrefix(sealed: seq<seq<Byte>>, parts: seq<seq<Record>>, active: seq<Byte>, recs: seq<Record>, m: nat)
    requires Seals(sealed, parts) && AllEncodable(recs) && active <= EncodeAll(recs)
    requires m == |Flatten(parts)| + CompleteIn(recs, |active|)
    ensures m <= |Flatten(parts) + recs| && Records(sealed + [active]) == (Flatten(parts) + recs)[..m]
  {
    var found := recs[..CompleteIn(recs, |active|)];
    assert active == EncodeAll(recs)[..|active|];
    DiskDecodes(sealed, parts, recs, |active|);
    assert (Flatten(parts) + recs)[..m] == Flatten(parts) + found;
  }

  /** The log of a view, and how much of it lies complete in the files. */
  ghost function LogOf(v: View): seq<Record> { Flatten(v.parts) + v.recs }

  ghost function VisibleIn(v: View): nat { |Flatten(v.parts)| + CompleteIn(v.recs, |v.active|) }

  /** What segment i holds at one moment. */
  function FileAt(sealed: seq<seq<Byte>>, active: seq<Byte>, i: nat): seq<Byte>
    requires i <= |sealed|
  {
    if i < |sealed| then sealed[i] else active
  }

  lemma {:induction false} CompleteGrows(recs: seq<Record>, recs': seq<Record>, k: nat, k': nat)
    requires recs <= recs' && k <= k'
    ensures CompleteIn(recs, k) <= CompleteIn(recs', k')
    decreases |recs|
  {
    if recs != [] && k >= |Encode(recs[0])| {
      CompleteGrows(recs[1..], recs'[1..], k - |Encode(recs[0])|, k' - |Encode(recs[0])|);
    }
  }

  lemma {:induction false} SealedPart(w: View, n: nat)
    requires ViewOk(w) && n <= |w.sealed|
    ensures Records(w.sealed[..n]) == Flatten(w.parts[..n])
    ensures Flatten(w.parts[..n]) <= LogOf(w) && |Flatten(w.parts[..n])| <= |Flatten(w.parts)|
  {
    forall i | 0 <= i < n ensures Scan(w.sealed[i]) == w.parts[i] { ScanOfAll(w.parts[i]); }
    assert Scans(w.sealed[..n]) == w.parts[..n];
    FlattenConcat(w.parts[..n], w.parts[n..]);
    assert w.parts[..n] + w.parts[n..] == w.parts;
  }

  /** A reader lists the files at moment v, and reads the last of them at the
      later moment w: it finds a prefix of the log of w, no less of it than was
      complete at v and no more than is complete at w. */
  lemma {:induction false} FoundBetween(v: View, w: View) returns (m: nat)
    requires ViewOk(v) && ViewOk(w) && Grows(v, w)
    ensures VisibleIn(v) <= m <= VisibleIn(w) <= |LogOf(w)|
    ensures Records(v.sealed + [FileAt(w.sealed, w.active, |v.sealed|)]) == LogOf(w)[..m]
  {
    var n := |v.sealed|;
    VisiblePrefix(w.sealed, w.parts, w.active, w.recs, VisibleIn(w));
    if |w.sealed| == n {
      assert v.sealed == w.sealed && v.parts == w.parts;
      CompleteGrows(v.recs, w.recs, |v.active|, |w.active|);
      m := VisibleIn(w);
    } else {
      SealedPart(w, n + 1);
      assert v.sealed + [w.sealed[n]] == w.sealed[..n + 1] && v.parts + [w.parts[n]] == w.parts[..n + 1];
      FlattenSnoc(v.parts, w.parts[n]);
      m := |Flatten(w.parts[..n + 1])|;
    }
  }

  /** And if the log is in offset order, a read of any range is the selection
      from that prefix. */
  lemma {:induction false} ReadBetween(v: View, w: View, from: nat, limit: nat) returns (m: nat)
    requires ViewOk(v) && ViewOk(w) && Grows(v, w)
    ensures VisibleIn(v) <= m <= VisibleIn(w) <= |LogOf(w)|
    ensures var segs := v.sealed + [FileAt(w.sealed, w.active, |v.sealed|)];
            && Records(segs) == LogOf(w)[..m]
            && (Increasing(LogOf(w)) ==> ReadLists(Scans(segs), from, limit) == Select(LogOf(w)[..m], from, limit))
  {
    m := FoundBetween(v, w);
    var segs := v.sealed + [FileAt(w.sealed, w.active, |v.sealed|)];
    if Increasing(LogOf(w)) {
      PrefixInOrder(LogOf(w), m);
      ScannedOffsets(segs);
      IncreasingIsKept(Scans(segs), from, from);
      KeptIsRead(Scans(segs), from, from, limit);
    }
  }

  lemma {:induction false} AllComplete(recs: seq<Record>)
    ensures CompleteIn(recs, |EncodeAll(recs)|) == |recs|
  {
    assert recs[..|recs|] == recs;
    CompleteAtLeast(recs, |recs|, |EncodeAll(recs)|);
  }

  lemma PrefixInOrder(recs: seq<Record>, m: nat)
    requires m <= |recs| && Increasing(recs)
    ensures Increasing(recs[..m])
  {
  }

  /** At any moment, also between the header and the data of a record, whatever
      part of the buffer has reached the file and however segments were rotated:
      the files hold a prefix of the log with all acknowledged records, all of it
      once nothing is buffered or unwritten, and if the log is in offset order a
      read of any range is the selection from that prefix. */
  lemma {:induction false} ReadSeesPrefix(s: FsStore, from: nat, limit: nat)
    requires s.Valid()
    ensures s.Acked() <= Visible(s) <= |s.Log()| && Records(Disk(s)) == s.Log()[..Visible(s)]
    ensures s.buf == [] && s.unwritten == [] ==> Visible(s) == |s.Log()|
    ensures Increasing(s.Log()) ==>
              ReadLists(Scans(Disk(s)), from, limit) == Select(s.Log()[..Visible(s)], from, limit)
  {
    VisiblePrefix(s.sealed, s.parts, s.active, s.recs, Visible(s));
    CompleteAtLeast(s.recs, s.stable, |s.active|);
    if s.buf == [] && s.unwritten == [] {
      assert s.active == EncodeAll(s.recs);
      AllComplete(s.recs);
    }
    if Increasing(s.Log()) {
      PrefixInOrder(s.Log(), Visible(s));
      ScannedOffsets(Disk(s));
      IncreasingIsKept(Scans(Disk(s)), from, from);
      KeptIsRead(Scans(Disk(s)), from, from, limit);
    }
  }
}
