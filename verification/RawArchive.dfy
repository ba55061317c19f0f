/**
 The framed raw archive.  Compression is not modelled: a stream is the bytes
 before compression.  JSON encoding of the metadata and SHA-256 are functions.
 */
module RawArchive {
  import opened Wrappers
  import opened BigEndian
  import opened Framing

  datatype Metadata = Metadata(
    receiveTs: nat, monotonicTs: nat, connection: string, subscription: string, binary: bool,
    payloadSize: nat, payloadDigest: Bytes, version: string)

  datatype Record = Record(metadata: Metadata, payload: Bytes)

  datatype Codec = Codec(encode: Metadata -> Bytes, decode: Bytes -> Option<Metadata>, sha: Bytes -> Bytes)
  {
    /** Decoding undoes encoding, and digests have thirty-two bytes. */
    ghost predicate Faithful() {
      (forall m :: decode(encode(m)) == Some(m)) && forall b :: |sha(b)| == 32
    }

    predicate Collides(a: Bytes, b: Bytes) { a != b && sha(a) == sha(b) }
  }

  datatype Error =
    | Truncated | UnsupportedMagic | InvalidFooter | CountMismatch | DigestMismatch | ManifestDigestMismatch
    | TrailingData | MetadataTooLong | PayloadTooLong | InvalidMetadata | PayloadSizeMismatch | PayloadDigestMismatch

  const FORMAT_MAGIC: Bytes := [65, 81, 84, 82, 65, 87, 48, 49]
  const FOOTER_MAGIC: Bytes := [65, 81, 84, 69, 78, 68, 48, 49]
  const FOOTER_MARKER: nat := 0xFFFF_FFFF
  const METADATA_LIMIT: nat := 1_048_576
  const PAYLOAD_LIMIT: nat := 67_108_864
  const FOOTER_SIZE: nat := 48

  // ----- writing -----

  function Block(c: Codec): Record -> Bytes {
    (r: Record) =>
      var meta := c.encode(r.metadata);
      Pack(|meta|, 4) + meta + Pack(|r.payload|, 4) + r.payload
  }

  function Blocks(c: Codec, rs: seq<Record>): Bytes {
    Concat(Block(c), rs)
  }

  function Footer(count: nat, digest: Bytes): Bytes {
    Pack(FOOTER_MARKER, 4) + Pack(count, 8) + digest + FOOTER_MAGIC
  }

  function Stream(c: Codec, rs: seq<Record>): Bytes {
    FORMAT_MAGIC + Blocks(c, rs) + Footer(|rs|, c.sha(Blocks(c, rs)))
  }

  // ----- reading -----

  /** The next record and what follows it. */
  function ReadRecord(c: Codec, s: Bytes): Result<(Record, Bytes), Error> {
    if |s| < 4 then Err(Truncated)
    else
      var metaLength := Unpack(s[..4]);
      var s1 := s[4..];
      if metaLength > METADATA_LIMIT then Err(MetadataTooLong)
      else if |s1| < metaLength then Err(Truncated)
      else
        var s2 := s1[metaLength..];
        if |s2| < 4 then Err(Truncated)
        else
          var payloadLength := Unpack(s2[..4]);
          var s3 := s2[4..];
          if payloadLength > PAYLOAD_LIMIT then Err(PayloadTooLong)
          else if |s3| < payloadLength then Err(Truncated)
          else CheckRecord(c, s1[..metaLength], s3[..payloadLength], s3[payloadLength..])
  }

  function CheckRecord(c: Codec, meta: Bytes, payload: Bytes, rest: Bytes): Result<(Record, Bytes), Error> {
    var metadata := c.decode(meta);
    if metadata.None? then Err(InvalidMetadata)
    else if metadata.value.payloadSize != |payload| then Err(PayloadSizeMismatch)
    else if c.sha(payload) != metadata.value.payloadDigest then Err(PayloadDigestMismatch)
    else Ok((Record(metadata.value, payload), rest))
  }

  /** What is wrong with the footer that starts after the marker, if anything. */
  function ReadFooter(c: Codec, s: Bytes, count: nat, seen: Bytes, manifestDigest: Bytes): Option<Error> {
    if |s| < FOOTER_SIZE then Some(Truncated)
    else if s[40..48] != FOOTER_MAGIC then Some(InvalidFooter)
    else if Unpack(s[..8]) != count then Some(CountMismatch)
    else if s[8..40] != c.sha(seen) then Some(DigestMismatch)
    else if s[8..40] != manifestDigest then Some(ManifestDigestMismatch)
    else if |s| > FOOTER_SIZE then Some(TrailingData)
    else None
  }

  predicate AtFooter(s: Bytes) { |s| >= 4 && Unpack(s[..4]) == FOOTER_MARKER }

  /** Takes records until the footer marker or the first error. */
  function NextRecord(c: Codec): Reader<Record> {
    (s: Bytes) =>
      if AtFooter(s) then None
      else
        var r := ReadRecord(c, s);
        if r.Err? then None else Some(r.value)
  }

  /** How the reading ends where no further record can be taken. */
  function Ending(c: Codec, s: Bytes, count: nat, seen: Bytes, manifestDigest: Bytes): Option<Error> {
    if AtFooter(s) then ReadFooter(c, s[4..], count, seen, manifestDigest)
    else
      var r := ReadRecord(c, s);
      if r.Err? then Some(r.error) else None
  }

  /** The records in order, and the error that ended the reading if there was one. */
  function Read(c: Codec, s: Bytes, manifestDigest: Bytes): (seq<Record>, Option<Error>) {
    if |s| < 8 then ([], Some(Truncated))
    else if s[..8] != FORMAT_MAGIC then ([], Some(UnsupportedMagic))
    else
      var (records, rest) := Items(NextRecord(c), s[8..]);
      TailOf(c, s[8..]);
      (records, Ending(c, rest, |records|, s[8..|s| - |rest|], manifestDigest))
  }

  lemma {:induction false} RecordLeavesTail(c: Codec)
    ensures LeavesTail(NextRecord(c))
  {
    forall s: Bytes | NextRecord(c)(s).Some?
      ensures |NextRecord(c)(s).value.1| < |s| && s == s[..|s| - |NextRecord(c)(s).value.1|] + NextRecord(c)(s).value.1
    {
      RestIsATail(c, s);
    }
  }

  lemma {:induction false} RestIsATail(c: Codec, s: Bytes)
    requires ReadRecord(c, s).Ok?
    ensures var rest := ReadRecord(c, s).value.1; |rest| < |s| && s == s[..|s| - |rest|] + rest
  {
  }

  lemma {:induction false} TailOf(c: Codec, s: Bytes)
    ensures var rest := Items(NextRecord(c), s).1;
            NextRecord(c)(rest).None? && |rest| <= |s| && s == s[..|s| - |rest|] + rest
  {
    RecordLeavesTail(c);
    RestIsTail(NextRecord(c), s);
  }

  // ----- the limits -----

  /** The lengths fit their four-byte fields, and the metadata describes the payload. */
  ghost predicate Describes(c: Codec, r: Record) {
    && |c.encode(r.metadata)| <= FOOTER_MARKER
    && |r.payload| <= FOOTER_MARKER
    && r.metadata.payloadSize == |r.payload|
    && r.metadata.payloadDigest == c.sha(r.payload)
  }

  ghost predicate WithinLimits(c: Codec, r: Record) {
    |c.encode(r.metadata)| <= METADATA_LIMIT && |r.payload| <= PAYLOAD_LIMIT
  }

  ghost predicate Writable(c: Codec, rs: seq<Record>) {
    |rs| < Pow256(8) && forall i | 0 <= i < |rs| :: Describes(c, rs[i])
  }

  ghost predicate Readable(c: Codec, rs: seq<Record>) {
    forall i | 0 <= i < |rs| :: WithinLimits(c, rs[i])
  }

  // ----- one record -----

  lemma {:induction false} LengthField(n: nat)
    requires n <= FOOTER_MARKER
    ensures Unpack(Pack(n, 4)) == n
  {
    Widths();
    UnpackPack(n, 4);
  }

  lemma {:induction false} RecordReadsBack(c: Codec, r: Record, tail: Bytes)
    requires c.Faithful() && Describes(c, r) && WithinLimits(c, r)
    ensures ReadRecord(c, Block(c)(r) + tail) == Ok((r, tail))
    ensures !AtFooter(Block(c)(r) + tail)
  {
    var meta := c.encode(r.metadata);
    var s := Block(c)(r) + tail;
    LengthField(|meta|);
    LengthField(|r.payload|);
    assert s[..4] == Pack(|meta|, 4);
    var s1 := s[4..];
    assert s1 == meta + (Pack(|r.payload|, 4) + r.payload + tail);
    assert s1[..|meta|] == meta;
    var s2 := s1[|meta|..];
    assert s2 == Pack(|r.payload|, 4) + (r.payload + tail);
    assert s2[..4] == Pack(|r.payload|, 4);
    var s3 := s2[4..];
    assert s3 == r.payload + tail;
    assert s3[..|r.payload|] == r.payload && s3[|r.payload|..] == tail;
    assert c.decode(meta) == Some(r.metadata);
  }

  /** Why a record cannot be taken, by how far the bytes go. */
  lemma {:induction false} StopsEarly(c: Codec, s: Bytes)
    requires |s| >= 4
    ensures var m := Unpack(s[..4]);
            && (m > METADATA_LIMIT ==> ReadRecord(c, s) == Err(MetadataTooLong))
            && (m <= METADATA_LIMIT && |s| < 8 + m ==> ReadRecord(c, s) == Err(Truncated))
  {
  }

  lemma {:induction false} StopsLater(c: Codec, s: Bytes, m: nat)
    requires |s| >= 4 && Unpack(s[..4]) == m <= METADATA_LIMIT && |s| >= 8 + m
    ensures var n := Unpack(s[4..][m..][..4]);
            && (n > PAYLOAD_LIMIT ==> ReadRecord(c, s) == Err(PayloadTooLong))
            && (n <= PAYLOAD_LIMIT && |s| < 8 + m + n ==> ReadRecord(c, s) == Err(Truncated))
            && (n <= PAYLOAD_LIMIT && |s| >= 8 + m + n ==>
                  ReadRecord(c, s)
                  == CheckRecord(c, s[4..][..m], s[4..][m..][4..][..n], s[4..][m..][4..][n..]))
  {
  }

  /** The length fields of a block, whether it is cut or followed by more. */
  lemma {:induction false} FieldsOf(l: Bytes, meta: Bytes, p: Bytes, payload: Bytes, s: Bytes)
    requires |l| == 4 && |p| == 4
    requires s <= l + meta + p + payload || l + meta + p + payload <= s
    ensures |s| >= 4 ==> s[..4] == l
    ensures |s| >= 8 + |meta| ==> s[4..][|meta|..][..4] == p
  {
    var block := l + meta + p + payload;
    if |s| >= 4 {
      forall i | 0 <= i < 4 ensures s[..4][i] == l[i] {
        assert s[i] == block[i];
      }
    }
    if |s| >= 8 + |meta| {
      forall i | 0 <= i < 4 ensures s[4..][|meta|..][..4][i] == p[i] {
        assert s[4 + |meta| + i] == block[4 + |meta| + i];
      }
    }
  }

  /** A record that is cut short is reported as truncated. */
  lemma {:induction false} CutRecord(c: Codec, r: Record, n: nat)
    requires Describes(c, r) && WithinLimits(c, r) && n < |Block(c)(r)|
    ensures ReadRecord(c, Block(c)(r)[..n]) == Err(Truncated)
    ensures !AtFooter(Block(c)(r)[..n])
  {
    var meta := c.encode(r.metadata);
    var s := Block(c)(r)[..n];
    LengthField(|meta|);
    LengthField(|r.payload|);
    FieldsOf(Pack(|meta|, 4), meta, Pack(|r.payload|, 4), r.payload, s);
    if n >= 4 {
      StopsEarly(c, s);
      if n >= 8 + |meta| {
        StopsLater(c, s, |meta|);
      }
    }
  }

  lemma {:induction false} Taken(c: Codec, rs: seq<Record>)
    requires c.Faithful() && forall i | 0 <= i < |rs| :: Describes(c, rs[i]) && WithinLimits(c, rs[i])
    ensures TakesAll(NextRecord(c), Block(c), rs)
  {
    forall i | 0 <= i < |rs| ensures Takes(NextRecord(c), Block(c), rs[i]) {
      TakesRecord(c, rs[i]);
    }
  }

  lemma {:induction false} TakesRecord(c: Codec, r: Record)
    requires c.Faithful() && Describes(c, r) && WithinLimits(c, r)
    ensures Takes(NextRecord(c), Block(c), r)
  {
    assert |Block(c)(r)| >= 8;
    forall tail: Bytes ensures NextRecord(c)(Block(c)(r) + tail) == Some((r, tail)) {
      RecordReadsBack(c, r, tail);
    }
  }

  // ----- whole streams -----

  /** A stream of records followed by something no record can be taken off. */
  lemma {:induction false} ReadsThenEnds(c: Codec, rs: seq<Record>, tail: Bytes, manifestDigest: Bytes)
    requires c.Faithful() && forall i | 0 <= i < |rs| :: Describes(c, rs[i]) && WithinLimits(c, rs[i])
    requires NextRecord(c)(tail).None?
    ensures Read(c, FORMAT_MAGIC + Blocks(c, rs) + tail, manifestDigest)
            == (rs, Ending(c, tail, |rs|, Blocks(c, rs), manifestDigest))
  {
    var s := FORMAT_MAGIC + Blocks(c, rs) + tail;
    assert s[..8] == FORMAT_MAGIC && s[8..] == Blocks(c, rs) + tail;
    Taken(c, rs);
    ReadUpTo(NextRecord(c), Block(c), rs, tail);
    assert s[8..|s| - |tail|] == Blocks(c, rs);
  }

  lemma {:induction false} FooterFields(marker: Bytes, count: Bytes, digest: Bytes, magic: Bytes, extra: Bytes)
    requires |marker| == 4 && |count| == 8 && |digest| == 32 && |magic| == 8
    ensures var s := marker + count + digest + magic + extra;
            s[..4] == marker && s[4..][..8] == count && s[4..][8..40] == digest && s[4..][40..48] == magic
  {
    var s := marker + count + digest + magic + extra;
    assert s == marker + (count + (digest + (magic + extra)));
    assert s[4..] == count + (digest + (magic + extra));
    assert s[4..] == (count + digest) + (magic + extra);
    assert s[4..] == (count + digest + magic) + extra;
  }

  lemma {:induction false} FooterEnds(c: Codec, count: nat, seen: Bytes, extra: Bytes)
    requires c.Faithful() && count < Pow256(8)
    ensures var s := Footer(count, c.sha(seen)) + extra;
            NextRecord(c)(s).None?
            && Ending(c, s, count, seen, c.sha(seen)) == if extra == [] then None else Some(TrailingData)
  {
    var digest := c.sha(seen);
    LengthField(FOOTER_MARKER);
    UnpackPack(count, 8);
    FooterFields(Pack(FOOTER_MARKER, 4), Pack(count, 8), digest, FOOTER_MAGIC, extra);
  }

  /** Reading a written stream, with anything after it. */
  lemma {:induction false} ReadsWritten(c: Codec, rs: seq<Record>, extra: Bytes)
    requires c.Faithful() && Writable(c, rs) && Readable(c, rs)
    ensures Read(c, Stream(c, rs) + extra, c.sha(Blocks(c, rs))) == (rs, if extra == [] then None else Some(TrailingData))
  {
    var seen := Blocks(c, rs);
    var footer := Footer(|rs|, c.sha(seen));
    FooterEnds(c, |rs|, seen, extra);
    ReadsThenEnds(c, rs, footer + extra, c.sha(seen));
    assert FORMAT_MAGIC + seen + footer + extra == FORMAT_MAGIC + seen + (footer + extra);
  }

  /** Reading the written bytes returns exactly the records. */
  lemma {:induction false} RoundTrip(c: Codec, rs: seq<Record>)
    requires c.Faithful() && Writable(c, rs) && Readable(c, rs)
    ensures Read(c, Stream(c, rs), c.sha(Blocks(c, rs))) == (rs, None)
  {
    ReadsWritten(c, rs, []);
    assert Stream(c, rs) + [] == Stream(c, rs);
  }

  /** Every non-empty extension of a finished stream is refused, after all its records. */
  lemma {:induction false} ExtensionRefused(c: Codec, rs: seq<Record>, extra: Bytes)
    requires c.Faithful() && Writable(c, rs) && Readable(c, rs) && extra != []
    ensures Read(c, Stream(c, rs) + extra, c.sha(Blocks(c, rs))) == (rs, Some(TrailingData))
  {
    ReadsWritten(c, rs, extra);
  }

  lemma {:induction false} StreamEndsWithDigest(c: Codec, rs: seq<Record>)
    requires c.Faithful()
    ensures |Stream(c, rs)| >= 60
    ensures Stream(c, rs)[|Stream(c, rs)| - 40..|Stream(c, rs)| - 8] == c.sha(Blocks(c, rs))
  {
    var digest := c.sha(Blocks(c, rs));
    assert Stream(c, rs) == (FORMAT_MAGIC + Blocks(c, rs) + (Pack(FOOTER_MARKER, 4) + Pack(|rs|, 8))) + digest + FOOTER_MAGIC;
  }

  /** Different records never give the same bytes. */
  lemma {:induction false} StreamInjective(c: Codec, rs: seq<Record>, qs: seq<Record>)
    requires c.Faithful() && Writable(c, rs) && Readable(c, rs) && Writable(c, qs) && Readable(c, qs)
    requires Stream(c, rs) == Stream(c, qs)
    ensures rs == qs
  {
    RoundTrip(c, rs);
    RoundTrip(c, qs);
    StreamEndsWithDigest(c, rs);
    StreamEndsWithDigest(c, qs);
  }

  // ----- prefixes -----

  lemma {:induction false} CutFooter(c: Codec, count: nat, digest: Bytes, n: nat, seen: Bytes, manifestDigest: Bytes)
    requires |digest| == 32 && n < |Footer(count, digest)|
    ensures var s := Footer(count, digest)[..n];
            NextRecord(c)(s).None? && Ending(c, s, count, seen, manifestDigest) == Some(Truncated)
  {
    var s := Footer(count, digest)[..n];
    LengthField(FOOTER_MARKER);
    if n >= 4 {
      assert s[..4] == Pack(FOOTER_MARKER, 4);
    }
  }

  lemma {:induction false} CutBytes(c: Codec, rs: seq<Record>, n: nat)
    requires n < |Blocks(c, rs)|
    ensures var k := CompleteIn(Block(c), rs, n);
            k < |rs| && |Blocks(c, rs[..k])| <= n < |Blocks(c, rs[..k])| + |Block(c)(rs[k])|
            && FORMAT_MAGIC + Blocks(c, rs)[..n]
               == FORMAT_MAGIC + Blocks(c, rs[..k]) + Block(c)(rs[k])[..n - |Blocks(c, rs[..k])|]
  {
    CutConcat(Block(c), rs, n);
    Associates(FORMAT_MAGIC, Blocks(c, rs[..CompleteIn(Block(c), rs, n)]),
               Block(c)(rs[CompleteIn(Block(c), rs, n)])[..n - |Blocks(c, rs[..CompleteIn(Block(c), rs, n)])|]);
  }

  lemma {:induction false} Associates(a: Bytes, b: Bytes, d: Bytes)
    ensures a + (b + d) == a + b + d
  {
  }

  lemma {:induction false} CutReads(c: Codec, rs: seq<Record>, k: nat, cut: nat, manifestDigest: Bytes)
    requires c.Faithful() && Writable(c, rs) && Readable(c, rs) && k < |rs| && cut < |Block(c)(rs[k])|
    ensures Read(c, FORMAT_MAGIC + Blocks(c, rs[..k]) + Block(c)(rs[k])[..cut], manifestDigest)
            == (rs[..k], Some(Truncated))
  {
    CutRecord(c, rs[k], cut);
    ReadsThenEnds(c, rs[..k], Block(c)(rs[k])[..cut], manifestDigest);
  }

  lemma {:induction false} CutInsideRecord(c: Codec, rs: seq<Record>, n: nat, manifestDigest: Bytes)
    requires c.Faithful() && Writable(c, rs) && Readable(c, rs) && n < |Blocks(c, rs)|
    ensures Read(c, FORMAT_MAGIC + Blocks(c, rs)[..n], manifestDigest)
            == (rs[..CompleteIn(Block(c), rs, n)], Some(Truncated))
  {
    CutBytes(c, rs, n);
    var k := CompleteIn(Block(c), rs, n);
    CutReads(c, rs, k, n - |Blocks(c, rs[..k])|, manifestDigest);
  }

  lemma {:induction false} CutInsideFooter(c: Codec, rs: seq<Record>, cut: nat, manifestDigest: Bytes)
    requires c.Faithful() && Writable(c, rs) && Readable(c, rs)
    requires cut < |Footer(|rs|, c.sha(Blocks(c, rs)))|
    ensures Read(c, FORMAT_MAGIC + Blocks(c, rs) + Footer(|rs|, c.sha(Blocks(c, rs)))[..cut], manifestDigest)
            == (rs, Some(Truncated))
  {
    CutFooter(c, |rs|, c.sha(Blocks(c, rs)), cut, Blocks(c, rs), manifestDigest);
    ReadsThenEnds(c, rs, Footer(|rs|, c.sha(Blocks(c, rs)))[..cut], manifestDigest);
  }

  /**
   Every strict prefix of a finished stream is refused as truncated, after
   exactly the records that are complete in it.
   */
  lemma {:induction false} PrefixRefused(c: Codec, rs: seq<Record>, n: nat, manifestDigest: Bytes)
    requires c.Faithful() && Writable(c, rs) && Readable(c, rs) && n < |Stream(c, rs)|
    ensures Read(c, Stream(c, rs)[..n], manifestDigest)
            == (if n < 8 then [] else rs[..CompleteIn(Block(c), rs, n - 8)], Some(Truncated))
  {
    var blocks, footer := Blocks(c, rs), Footer(|rs|, c.sha(Blocks(c, rs)));
    if n < 8 {
    } else if n - 8 < |blocks| {
      assert Stream(c, rs)[..n] == FORMAT_MAGIC + blocks[..n - 8];
      CutInsideRecord(c, rs, n - 8, manifestDigest);
    } else {
      var cut := n - 8 - |blocks|;
      assert Stream(c, rs)[..n] == FORMAT_MAGIC + blocks + footer[..cut];
      CutInsideFooter(c, rs, cut, manifestDigest);
      AllComplete(Block(c), rs, n - 8);
      assert rs[..|rs|] == rs;
    }
  }

  // ----- the exact limits -----

  /** A record beyond a limit is refused, even when its length field looks like the footer marker. */
  lemma {:induction false} OversizedRefused(c: Codec, r: Record, tail: Bytes, count: nat, seen: Bytes, manifestDigest: Bytes)
    requires Describes(c, r) && !WithinLimits(c, r)
    ensures NextRecord(c)(Block(c)(r) + tail).None?
    ensures Ending(c, Block(c)(r) + tail, count, seen, manifestDigest).Some?
  {
    var meta := c.encode(r.metadata);
    var s := Block(c)(r) + tail;
    LengthField(|meta|);
    LengthField(|r.payload|);
    FieldsOf(Pack(|meta|, 4), meta, Pack(|r.payload|, 4), r.payload, s);
    StopsEarly(c, s);
    if |meta| <= METADATA_LIMIT {
      StopsLater(c, s, |meta|);
    }
  }

  lemma {:induction false} FirstOversized(c: Codec, rs: seq<Record>) returns (k: nat)
    requires !Readable(c, rs)
    ensures k < |rs| && !WithinLimits(c, rs[k]) && forall i | 0 <= i < k :: WithinLimits(c, rs[i])
  {
    k := 0;
    while WithinLimits(c, rs[k])
      invariant k < |rs| && forall i | 0 <= i < k :: WithinLimits(c, rs[i])
      decreases |rs| - k
    {
      k := k + 1;
    }
  }

  lemma {:induction false} StreamFromRecord(c: Codec, rs: seq<Record>, k: nat) returns (rest: Bytes)
    requires k < |rs|
    ensures Stream(c, rs) == FORMAT_MAGIC + Blocks(c, rs[..k]) + (Block(c)(rs[k]) + rest)
  {
    var footer := Footer(|rs|, c.sha(Blocks(c, rs)));
    rest := Concat(Block(c), rs[k + 1..]) + footer;
    ConcatSplit(Block(c), rs, k);
    assert rs[k..][1..] == rs[k + 1..];
  }

  lemma {:induction false} OversizedStream(c: Codec, rs: seq<Record>, k: nat, manifestDigest: Bytes)
    requires c.Faithful() && Writable(c, rs) && k < |rs| && !WithinLimits(c, rs[k])
    requires forall i | 0 <= i < k :: WithinLimits(c, rs[i])
    ensures Read(c, Stream(c, rs), manifestDigest).0 == rs[..k]
    ensures Read(c, Stream(c, rs), manifestDigest).1.Some?
  {
    var rest := StreamFromRecord(c, rs, k);
    OversizedRefused(c, rs[k], rest, k, Blocks(c, rs[..k]), manifestDigest);
    ReadsThenEnds(c, rs[..k], Block(c)(rs[k]) + rest, manifestDigest);
  }

  /**
   A stream that can be written at all reads back exactly when every record
   keeps the reader's limits; the writer itself checks neither of them.
   */
  lemma {:induction false} ReadsBackExactlyWhen(c: Codec, rs: seq<Record>)
    requires c.Faithful() && Writable(c, rs)
    ensures Read(c, Stream(c, rs), c.sha(Blocks(c, rs))) == (rs, None) <==> Readable(c, rs)
  {
    if Readable(c, rs) {
      RoundTrip(c, rs);
    } else {
      var k := FirstOversized(c, rs);
      OversizedStream(c, rs, k, c.sha(Blocks(c, rs)));
    }
  }

  // ----- what acceptance means -----

  lemma {:induction false} FooterShape(c: Codec, s: Bytes, count: nat, seen: Bytes, manifestDigest: Bytes)
    requires c.Faithful() && AtFooter(s) && ReadFooter(c, s[4..], count, seen, manifestDigest).None?
    ensures s == Footer(count, manifestDigest) && c.sha(seen) == manifestDigest
  {
    PackUnpack(s[..4]);
    var f := s[4..];
    PackUnpack(f[..8]);
    assert s == s[..4] + (f[..8] + f[8..40] + f[40..48]);
  }

  /** Accepted bytes are the magic, some blocks and the footer for those blocks. */
  lemma {:induction false} AcceptedStream(c: Codec, s: Bytes, manifestDigest: Bytes) returns (raw: Bytes)
    requires c.Faithful() && Read(c, s, manifestDigest).1.None?
    ensures c.sha(raw) == manifestDigest
    ensures s == FORMAT_MAGIC + raw + Footer(|Read(c, s, manifestDigest).0|, manifestDigest)
  {
    var body := s[8..];
    var (records, rest) := Items(NextRecord(c), body);
    TailOf(c, body);
    raw := s[8..|s| - |rest|];
    FooterShape(c, rest, |records|, raw, manifestDigest);
    ThreeParts(s, |rest|);
  }

  lemma {:induction false} ThreeParts(s: Bytes, tail: nat)
    requires 8 + tail <= |s|
    ensures s == s[..8] + s[8..|s| - tail] + s[8..][|s| - 8 - tail..]
  {
  }

  lemma {:induction false} MarkerStops(c: Codec, count: nat, digest: Bytes)
    ensures NextRecord(c)(Footer(count, digest)).None?
  {
    LengthField(FOOTER_MARKER);
    assert Footer(count, digest)[..4] == Pack(FOOTER_MARKER, 4);
  }

  /** The bytes of a stream that its digest is taken over: all but the magic and the footer. */
  function Hashed(s: Bytes): Bytes
    requires |s| >= 60
  {
    s[8..|s| - 52]
  }

  lemma {:induction false} HashedMiddle(s: Bytes, raw: Bytes, count: nat, digest: Bytes)
    requires |digest| == 32 && s == FORMAT_MAGIC + raw + Footer(count, digest)
    ensures |s| >= 60 && Hashed(s) == raw
  {
  }

  /**
   Nothing but the written stream is accepted against the digest of its records,
   unless the digest has a collision; the accepted bytes then exhibit it.
   */
  lemma {:induction false} OnlyTheWrittenStream(c: Codec, rs: seq<Record>, s: Bytes)
    requires c.Faithful() && Writable(c, rs) && Readable(c, rs)
    requires Read(c, s, c.sha(Blocks(c, rs))).1.None?
    ensures |s| >= 60
    ensures s == Stream(c, rs) || c.Collides(Hashed(s), Blocks(c, rs))
  {
    var digest := c.sha(Blocks(c, rs));
    var raw := AcceptedStream(c, s, digest);
    var count := |Read(c, s, digest).0|;
    HashedMiddle(s, raw, count, digest);
    if raw == Blocks(c, rs) {
      MarkerStops(c, count, digest);
      ReadsThenEnds(c, rs, Footer(count, digest), digest);
    }
  }
}
