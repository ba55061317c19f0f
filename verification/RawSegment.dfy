/**
 The writer and the reader of raw segments: objects that append to and consume
 a byte stream step by step, proved against the format.
 */
module RawSegment {
  import opened Wrappers
  import opened BigEndian
  import opened Framing
  import opened RawArchive

  datatype Manifest = Manifest(
    recordCount: nat, payloadBytes: nat, recordsDigest: Bytes, startedAt: nat, endedAt: nat)

  datatype WriteError = SegmentClosed | FrameTooLarge | ReceivedTooEarly | LengthOverflow | CountOverflow

  function PayloadTotal(rs: seq<Record>): nat {
    if rs == [] then 0 else PayloadTotal(rs[..|rs| - 1]) + |rs[|rs| - 1].payload|
  }

  function LastReceive(rs: seq<Record>, start: nat): nat {
    if rs == [] then start
    else
      var before := LastReceive(rs[..|rs| - 1], start);
      var last := rs[|rs| - 1].metadata.receiveTs;
      if last > before then last else before
  }

  function ManifestOf(c: Codec, rs: seq<Record>, start: nat): Manifest {
    Manifest(|rs|, PayloadTotal(rs), c.sha(Blocks(c, rs)), start, LastReceive(rs, start))
  }

  /** What `verify` accepts. */
  predicate Verifies(c: Codec, s: Bytes, m: Manifest) {
    var (records, error) := Read(c, s, m.recordsDigest);
    error.None? && |records| == m.recordCount && PayloadTotal(records) == m.payloadBytes
  }

  /** A finished segment within the limits verifies against its own manifest. */
  lemma {:induction false} FinalizedVerifies(c: Codec, rs: seq<Record>, start: nat)
    requires c.Faithful() && Writable(c, rs) && Readable(c, rs)
    ensures Verifies(c, Stream(c, rs), ManifestOf(c, rs, start))
  {
    RoundTrip(c, rs);
  }

  /** A manifest vouches for exactly one stream, up to an exhibited collision of the digest. */
  lemma {:induction false} VerifiedIsTheFinalized(c: Codec, rs: seq<Record>, start: nat, s: Bytes)
    requires c.Faithful() && Writable(c, rs) && Readable(c, rs)
    ensures s == Stream(c, rs) <==>
              Verifies(c, s, ManifestOf(c, rs, start)) && |s| >= 60 && !c.Collides(Hashed(s), Blocks(c, rs))
  {
    FinalizedVerifies(c, rs, start);
    HashedMiddle(Stream(c, rs), Blocks(c, rs), |rs|, c.sha(Blocks(c, rs)));
    if Verifies(c, s, ManifestOf(c, rs, start)) {
      OnlyTheWrittenStream(c, rs, s);
    }
  }

  // ----- the writer -----

  ghost predicate Acceptable(c: Codec, rs: seq<Record>, maxFrameBytes: nat) {
    forall i | 0 <= i < |rs| :: Describes(c, rs[i]) && |rs[i].payload| <= maxFrameBytes
  }

  lemma {:induction false} AcceptableSnoc(c: Codec, rs: seq<Record>, r: Record, maxFrameBytes: nat)
    requires Acceptable(c, rs, maxFrameBytes) && Describes(c, r) && |r.payload| <= maxFrameBytes
    ensures Acceptable(c, rs + [r], maxFrameBytes)
  {
  }

  /** What the running totals of a writer say about the records written. */
  ghost predicate Totals(
    c: Codec, rs: seq<Record>, start: nat, hashed: Bytes, recordCount: nat, payloadBytes: nat, lastReceive: nat)
  {
    && hashed == Blocks(c, rs)
    && recordCount == |rs|
    && payloadBytes == PayloadTotal(rs)
    && lastReceive == LastReceive(rs, start)
  }

  lemma {:induction false} TotalsSnoc(
    c: Codec, rs: seq<Record>, r: Record, start: nat, hashed: Bytes, recordCount: nat, payloadBytes: nat, lastReceive: nat)
    requires Totals(c, rs, start, hashed, recordCount, payloadBytes, lastReceive)
    ensures Totals(c, rs + [r], start, hashed + Block(c)(r), recordCount + 1, payloadBytes + |r.payload|,
                   if r.metadata.receiveTs > lastReceive then r.metadata.receiveTs else lastReceive)
  {
    OneMore(c, rs, r, start);
  }

  lemma {:induction false} OneMore(c: Codec, rs: seq<Record>, r: Record, start: nat)
    ensures Blocks(c, rs + [r]) == Blocks(c, rs) + Block(c)(r)
    ensures PayloadTotal(rs + [r]) == PayloadTotal(rs) + |r.payload|
    ensures var before := LastReceive(rs, start);
            LastReceive(rs + [r], start) == if r.metadata.receiveTs > before then r.metadata.receiveTs else before
  {
    ConcatSnoc(Block(c), rs, r);
    assert (rs + [r])[..|rs|] == rs;
  }

  class RawSegmentWriter {
    const codec: Codec
    const startedAt: nat
    const maxFrameBytes: nat
    const connection: string
    const version: string
    var stream: Bytes
    var hashed: Bytes
    var recordCount: nat
    var payloadBytes: nat
    var lastReceive: nat
    var closed: bool
    ghost var written: seq<Record>

    ghost predicate Valid()
      reads this
    {
      && Acceptable(codec, written, maxFrameBytes)
      && Totals(codec, written, startedAt, hashed, recordCount, payloadBytes, lastReceive)
      && (!closed ==> stream == FORMAT_MAGIC + hashed)
    }

    constructor (codec: Codec, startedAt: nat, maxFrameBytes: nat, connection: string, version: string)
      requires maxFrameBytes >= 1
      ensures Valid() && !closed && written == []
      ensures this.codec == codec && this.startedAt == startedAt && this.maxFrameBytes == maxFrameBytes
      ensures this.connection == connection && this.version == version
    {
      this.codec, this.startedAt, this.maxFrameBytes := codec, startedAt, maxFrameBytes;
      this.connection, this.version := connection, version;
      stream, hashed := FORMAT_MAGIC, [];
      recordCount, payloadBytes, lastReceive := 0, 0, startedAt;
      closed, written := false, [];
    }

    function Describe(payload: Bytes, receiveTs: nat, monotonicTs: nat, subscription: string, binary: bool): Metadata {
      Metadata(receiveTs, monotonicTs, connection, subscription, binary, |payload|, codec.sha(payload), version)
    }

    /** Write one block and update the digest, the counters and the last receive time. */
    method WriteBlock(record: Record, meta: Bytes)
      requires Valid() && !closed && meta == codec.encode(record.metadata)
      requires Describes(codec, record) && |record.payload| <= maxFrameBytes
      modifies this
      ensures Valid() && !closed && written == old(written) + [record]
      ensures stream == old(stream) + Block(codec)(record)
    {
      var block := Pack(|meta|, 4) + meta + Pack(|record.payload|, 4) + record.payload;
      TotalsSnoc(codec, written, record, startedAt, hashed, recordCount, payloadBytes, lastReceive);
      AcceptableSnoc(codec, written, record, maxFrameBytes);
      Associates(FORMAT_MAGIC, hashed, block);
      stream := stream + block;
      hashed := hashed + block;
      recordCount := recordCount + 1;
      payloadBytes := payloadBytes + |record.payload|;
      if record.metadata.receiveTs > lastReceive { lastReceive := record.metadata.receiveTs; }
      written := written + [record];
    }

    method Append(payload: Bytes, receiveTs: nat, monotonicTs: nat, subscription: string, binary: bool)
      returns (r: Result<Metadata, WriteError>)
      requires Valid()
      modifies this
      ensures Valid() && closed == old(closed)
      ensures r.Ok? ==>
                r.value == Describe(payload, receiveTs, monotonicTs, subscription, binary)
                && written == old(written) + [Record(r.value, payload)]
                && stream == old(stream) + Block(codec)(Record(r.value, payload))
      ensures r.Err? ==> written == old(written) && stream == old(stream)
      ensures r == Err(SegmentClosed) <==> old(closed)
      ensures !old(closed) && |payload| > maxFrameBytes ==> r == Err(FrameTooLarge)
      ensures !old(closed) && |payload| <= maxFrameBytes && receiveTs < startedAt ==> r == Err(ReceivedTooEarly)
    {
      if closed { return Err(SegmentClosed); }
      if |payload| > maxFrameBytes { return Err(FrameTooLarge); }
      if receiveTs < startedAt { return Err(ReceivedTooEarly); }
      var metadata := Describe(payload, receiveTs, monotonicTs, subscription, binary);
      var meta := codec.encode(metadata);
      if |meta| > 0xFFFF_FFFF || |payload| > 0xFFFF_FFFF { return Err(LengthOverflow); }
      WriteBlock(Record(metadata, payload), meta);
      return Ok(metadata);
    }

    method Finalize() returns (r: Result<Manifest, WriteError>)
      requires Valid()
      modifies this
      ensures written == old(written)
      ensures r == Err(SegmentClosed) <==> old(closed)
      ensures r.Ok? ==> Valid() && closed && Writable(codec, written)
      ensures r.Ok? ==> stream == Stream(codec, written) && r.value == ManifestOf(codec, written, startedAt)
    {
      if closed { return Err(SegmentClosed); }
      var digest := codec.sha(hashed);
      stream := stream + Pack(FOOTER_MARKER, 4);
      if recordCount >= 0x1_0000_0000_0000_0000 { return Err(CountOverflow); }
      Widths();
      stream := stream + (Pack(recordCount, 8) + digest + FOOTER_MAGIC);
      assert stream == FORMAT_MAGIC + hashed + Footer(recordCount, digest);
      closed := true;
      return Ok(Manifest(recordCount, payloadBytes, digest, startedAt, lastReceive));
    }
  }

  // ----- the reader -----

  /** A stream that may return fewer bytes than asked for, but some unless it is at its end. */
  class ByteStream {
    const data: Bytes
    var position: nat

    ghost predicate Valid()
      reads this
    {
      position <= |data|
    }

    constructor (data: Bytes)
      ensures Valid() && this.data == data && position == 0
    {
      this.data, position := data, 0;
    }

    method Read(size: nat) returns (chunk: Bytes)
      requires Valid()
      modifies this
      ensures Valid() && position == old(position) + |chunk| && |chunk| <= size
      ensures chunk == data[old(position)..position]
      ensures chunk == [] ==> size == 0 || old(position) == |data|
    {
      var most := if size < |data| - position then size else |data| - position;
      var length: nat :| length <= most && (length == 0 ==> most == 0);
      chunk := data[position..position + length];
      position := position + length;
    }
  }

  /** Read until `size` bytes have arrived. */
  method ReadExact(stream: ByteStream, size: nat) returns (r: Result<Bytes, Error>)
    requires stream.Valid()
    modifies stream
    ensures stream.Valid()
    ensures if old(stream.position) + size <= |stream.data|
            then stream.position == old(stream.position) + size
                 && r == Ok(stream.data[old(stream.position)..stream.position])
            else r == Err(Truncated)
  {
    var bytes := [];
    var remaining: nat := size;
    while remaining != 0
      invariant stream.Valid() && |bytes| + remaining == size
      invariant stream.position == old(stream.position) + |bytes|
      invariant bytes == stream.data[old(stream.position)..stream.position]
      decreases remaining
    {
      var chunk := stream.Read(remaining);
      if chunk == [] { return Err(Truncated); }
      bytes := bytes + chunk;
      remaining := remaining - |chunk|;
    }
    return Ok(bytes);
  }

  /** The fields of a record at `start`, by their positions in the whole stream. */
  lemma {:induction false} Fields(d: Bytes, start: nat, m: nat, n: nat)
    requires start + 4 + m + 4 + n <= |d|
    ensures var s := d[start..];
            && s[..4] == d[start..start + 4]
            && s[4..][..m] == d[start + 4..start + 4 + m]
            && s[4..][m..][..4] == d[start + 4 + m..start + 8 + m]
            && s[4..][m..][4..][..n] == d[start + 8 + m..start + 8 + m + n]
            && s[4..][m..][4..][n..] == d[start + 8 + m + n..]
  {
  }

  lemma {:induction false} Join(d: Bytes, i: nat, j: nat, k: nat)
    requires i <= j <= k <= |d|
    ensures d[i..j] + d[j..k] == d[i..k]
  {
  }

  /** A length field within its limit and the bytes it announces. */
  method ReadField(stream: ByteStream, length: nat, limit: nat, tooLong: Error) returns (r: Result<Bytes, Error>)
    requires stream.Valid()
    modifies stream
    ensures stream.Valid()
    ensures if length > limit then r == Err(tooLong)
            else if old(stream.position) + length <= |stream.data|
            then stream.position == old(stream.position) + length
                 && r == Ok(stream.data[old(stream.position)..stream.position])
            else r == Err(Truncated)
  {
    if length > limit { return Err(tooLong); }
    r := ReadExact(stream, length);
  }

  method CheckContent(c: Codec, meta: Bytes, payload: Bytes, ghost rest: Bytes) returns (r: Result<Record, Error>)
    ensures var spec := CheckRecord(c, meta, payload, rest);
            if spec.Err? then r == Err(spec.error) else r == Ok(spec.value.0) && spec.value.1 == rest
  {
    var metadata := c.decode(meta);
    if metadata.None? { return Err(InvalidMetadata); }
    if metadata.value.payloadSize != |payload| { return Err(PayloadSizeMismatch); }
    if c.sha(payload) != metadata.value.payloadDigest { return Err(PayloadDigestMismatch); }
    return Ok(Record(metadata.value, payload));
  }

  /** Does `r` say what reading one record at `start` should, with the stream left at `position`? */
  ghost predicate ReadsOne(c: Codec, d: Bytes, start: nat, position: nat, r: Result<(Record, Bytes), Error>)
    requires start <= |d|
  {
    var spec := ReadRecord(c, d[start..]);
    if spec.Err? then r == Err(spec.error)
    else start < position <= |d| && r == Ok((spec.value.0, d[start..position])) && d[position..] == spec.value.1
  }

  /** Reading one record, told by positions in the whole stream. */
  lemma {:induction false} RecordAt(c: Codec, d: Bytes, start: nat, m: nat)
    requires start + 8 + m <= |d| && Unpack(d[start..start + 4]) == m <= METADATA_LIMIT
    ensures var n := Unpack(d[start + 4 + m..start + 8 + m]);
            && (n > PAYLOAD_LIMIT ==> ReadRecord(c, d[start..]) == Err(PayloadTooLong))
            && (n <= PAYLOAD_LIMIT && |d| < start + 8 + m + n ==> ReadRecord(c, d[start..]) == Err(Truncated))
            && (n <= PAYLOAD_LIMIT && |d| >= start + 8 + m + n ==>
                  ReadRecord(c, d[start..])
                  == CheckRecord(c, d[start + 4..start + 4 + m], d[start + 8 + m..start + 8 + m + n], d[start + 8 + m + n..]))
  {
    Fields(d, start, m, 0);
    StopsLater(c, d[start..], m);
    var n := Unpack(d[start + 4 + m..start + 8 + m]);
    if |d| >= start + 8 + m + n {
      Fields(d, start, m, n);
    }
  }

  lemma {:induction false} ShortRecordAt(c: Codec, d: Bytes, start: nat, m: nat)
    requires start + 4 <= |d| < start + 8 + m && Unpack(d[start..start + 4]) == m <= METADATA_LIMIT
    ensures ReadRecord(c, d[start..]) == Err(Truncated)
  {
    assert d[start..][..4] == d[start..start + 4];
    StopsEarly(c, d[start..]);
  }

  /** The part of a record after its metadata; `head` is everything before it. */
  method ReadPayload(c: Codec, stream: ByteStream, head: Bytes, meta: Bytes, ghost start: nat)
    returns (r: Result<(Record, Bytes), Error>)
    requires stream.Valid() && stream.position == start + 4 + |meta| && |meta| <= METADATA_LIMIT
    requires head == stream.data[start..stream.position] && meta == stream.data[start + 4..stream.position]
    requires Unpack(stream.data[start..start + 4]) == |meta|
    modifies stream
    ensures stream.Valid() && ReadsOne(c, stream.data, start, stream.position, r)
  {
    ghost var d, m := stream.data, |meta|;
    var lengthBytes := ReadExact(stream, 4);
    if lengthBytes.Err? {
      ShortRecordAt(c, d, start, m);
      return Err(lengthBytes.error);
    }
    RecordAt(c, d, start, m);
    var n := Unpack(lengthBytes.value);
    var payload := ReadField(stream, n, PAYLOAD_LIMIT, PayloadTooLong);
    if payload.Err? { return Err(payload.error); }
    Join(d, start, start + 4 + m, start + 8 + m);
    Join(d, start, start + 8 + m, start + 8 + m + n);
    var record := CheckContent(c, meta, payload.value, d[stream.position..]);
    return if record.Err? then Err(record.error) else Ok((record.value, head + lengthBytes.value + payload.value));
  }

  /** The part of a record after its first length field; gives back the bytes of the whole block. */
  method ReadBody(c: Codec, stream: ByteStream, lengthBytes: Bytes, ghost start: nat)
    returns (r: Result<(Record, Bytes), Error>)
    requires stream.Valid() && stream.position == start + 4
    requires lengthBytes == stream.data[start..start + 4]
    modifies stream
    ensures stream.Valid() && ReadsOne(c, stream.data, start, stream.position, r)
  {
    ghost var d := stream.data;
    assert d[start..][..4] == lengthBytes;
    StopsEarly(c, d[start..]);
    var m := Unpack(lengthBytes);
    var meta := ReadField(stream, m, METADATA_LIMIT, MetadataTooLong);
    if meta.Err? { return Err(meta.error); }
    Join(d, start, start + 4, start + 4 + m);
    r := ReadPayload(c, stream, lengthBytes + meta.value, meta.value, start);
  }

  /** Take the next record, unless the footer marker comes first. */
  method ReadNext(c: Codec, stream: ByteStream) returns (footer: bool, r: Result<(Record, Bytes), Error>)
    requires stream.Valid()
    modifies stream
    ensures stream.Valid()
    ensures footer <==> AtFooter(old(stream.data[stream.position..]))
    ensures footer ==> stream.position == old(stream.position) + 4
    ensures !footer ==> ReadsOne(c, stream.data, old(stream.position), stream.position, r)
  {
    ghost var start := stream.position;
    ghost var s := stream.data[start..];
    var lengthBytes := ReadExact(stream, 4);
    if lengthBytes.Err? { return false, Err(lengthBytes.error); }
    assert s[..4] == lengthBytes.value;
    if Unpack(lengthBytes.value) == FOOTER_MARKER { return true, Err(Truncated); }
    r := ReadBody(c, stream, lengthBytes.value, start);
    return false, r;
  }

  method CheckFooter(c: Codec, stream: ByteStream, count: nat, hashed: Bytes, manifestDigest: Bytes)
    returns (error: Option<Error>)
    requires stream.Valid()
    modifies stream
    ensures stream.Valid()
    ensures error == ReadFooter(c, old(stream.data[stream.position..]), count, hashed, manifestDigest)
  {
    ghost var s := stream.data[stream.position..];
    var footer := ReadExact(stream, FOOTER_SIZE);
    if footer.Err? { return Some(footer.error); }
    var f := footer.value;
    assert f == s[..48];
    assert s[40..48] == f[40..48] && s[..8] == f[..8] && s[8..40] == f[8..40];
    if f[40..48] != FOOTER_MAGIC { return Some(InvalidFooter); }
    if Unpack(f[..8]) != count { return Some(CountMismatch); }
    if f[8..40] != c.sha(hashed) { return Some(DigestMismatch); }
    if f[8..40] != manifestDigest { return Some(ManifestDigestMismatch); }
    var more := stream.Read(1);
    return if more != [] then Some(TrailingData) else None;
  }

  /** What has been read up to a position, and what the rest of the reading adds. */
  ghost predicate Progress(c: Codec, s: Bytes, records: seq<Record>, at: nat) {
    && 8 <= at <= |s| && s[..8] == FORMAT_MAGIC
    && Items(NextRecord(c), s[8..]) == (records + Items(NextRecord(c), s[at..]).0, Items(NextRecord(c), s[at..]).1)
  }

  lemma {:induction false} ProgressStarts(c: Codec, s: Bytes)
    requires |s| >= 8 && s[..8] == FORMAT_MAGIC
    ensures Progress(c, s, [], 8)
  {
    var items := Items(NextRecord(c), s[8..]).0;
    assert [] + items == items;
  }

  lemma {:induction false} NextTaken(c: Codec, s: Bytes, at: nat, to: nat, record: Record, block: Bytes)
    requires at <= |s| && !AtFooter(s[at..]) && ReadsOne(c, s, at, to, Ok((record, block)))
    ensures at < to <= |s| && NextRecord(c)(s[at..]) == Some((record, s[to..])) && block == s[at..to]
  {
  }

  lemma {:induction false} Regroup(records: seq<Record>, record: Record, more: seq<Record>)
    ensures records + ([record] + more) == records + [record] + more
  {
  }

  lemma {:induction false} ProgressStep(c: Codec, s: Bytes, records: seq<Record>, at: nat, to: nat, record: Record)
    requires Progress(c, s, records, at) && at < to <= |s|
    requires NextRecord(c)(s[at..]) == Some((record, s[to..]))
    ensures Progress(c, s, records + [record], to)
  {
    ItemsStep(NextRecord(c), s[at..], record, s[to..]);
    Regroup(records, record, Items(NextRecord(c), s[to..]).0);
  }

  lemma {:induction false} ProgressEnds(c: Codec, s: Bytes, records: seq<Record>, at: nat, manifestDigest: Bytes)
    requires Progress(c, s, records, at) && NextRecord(c)(s[at..]).None?
    ensures Read(c, s, manifestDigest) == (records, Ending(c, s[at..], |records|, s[8..at], manifestDigest))
  {
    assert Items(NextRecord(c), s[at..]) == ([], s[at..]);
    assert records + [] == records;
  }

  lemma {:induction false} ProgressFails(c: Codec, s: Bytes, records: seq<Record>, at: nat, to: nat, error: Error, manifestDigest: Bytes)
    requires Progress(c, s, records, at) && !AtFooter(s[at..])
    requires ReadsOne(c, s, at, to, Err(error))
    ensures Read(c, s, manifestDigest) == (records, Some(error))
  {
    ProgressEnds(c, s, records, at, manifestDigest);
  }

  class RawSegmentReader {
    const codec: Codec
    const manifest: Manifest

    constructor (codec: Codec, manifest: Manifest)
      ensures this.codec == codec && this.manifest == manifest
    {
      this.codec, this.manifest := codec, manifest;
    }

    /** All records of a stream, and the error that ended the reading if there was one. */
    method Records(stream: ByteStream) returns (records: seq<Record>, error: Option<Error>)
      requires stream.Valid() && stream.position == 0
      modifies stream
      ensures (records, error) == Read(codec, stream.data, manifest.recordsDigest)
    {
      records := [];
      ghost var s := stream.data;
      var magic := ReadExact(stream, 8);
      if magic.Err? { return [], Some(magic.error); }
      assert s[..8] == magic.value;
      if magic.value != FORMAT_MAGIC { return [], Some(UnsupportedMagic); }
      var hashed: Bytes := [];
      ProgressStarts(codec, s);
      while true
        invariant stream.Valid() && stream.position >= 8 && hashed == s[8..stream.position]
        invariant Progress(codec, s, records, stream.position)
        decreases |s| - stream.position
      {
        ghost var at := stream.position;
        var footer, r := ReadNext(codec, stream);
        if footer {
          ProgressEnds(codec, s, records, at, manifest.recordsDigest);
          assert s[at..][4..] == s[stream.position..];
          error := CheckFooter(codec, stream, |records|, hashed, manifest.recordsDigest);
          return records, error;
        }
        if r.Err? {
          ProgressFails(codec, s, records, at, stream.position, r.error, manifest.recordsDigest);
          return records, Some(r.error);
        }
        NextTaken(codec, s, at, stream.position, r.value.0, r.value.1);
        ProgressStep(codec, s, records, at, stream.position, r.value.0);
        Join(s, 8, at, stream.position);
        hashed := hashed + r.value.1;
        records := records + [r.value.0];
      }
    }

    /** Count what is read and compare it with the manifest. */
    method Verify(stream: ByteStream) returns (ok: bool)
      requires stream.Valid() && stream.position == 0
      modifies stream
      ensures ok <==> Verifies(codec, stream.data, manifest)
    {
      var records, error := Records(stream);
      if error.Some? { return false; }
      var count, bytes := 0, 0;
      for i := 0 to |records|
        invariant count == i && bytes == PayloadTotal(records[..i])
      {
        assert records[..i + 1][..i] == records[..i];
        count := count + 1;
        bytes := bytes + |records[i].payload|;
      }
      assert records[..|records|] == records;
      return count == manifest.recordCount && bytes == manifest.payloadBytes;
    }
  }
}
