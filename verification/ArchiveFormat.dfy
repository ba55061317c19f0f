/**
 The raw archive format as a grammar: exactly which bytes the reader accepts,
 which records it takes from them, and what a manifest must say about them.
 */
module ArchiveFormat {
  import opened Wrappers
  import opened BigEndian
  import opened Framing
  import opened RawArchive
  import opened RawSegment

  /** One record as it lies in the stream; the metadata bytes need not be the ones this writer would produce. */
  datatype Frame = Frame(meta: Bytes, payload: Bytes)

  /** Length, metadata, length, payload. */
  function FrameBytes(f: Frame): Bytes {
    Pack(|f.meta|, 4) + f.meta + Pack(|f.payload|, 4) + f.payload
  }

  function AllBytes(fs: seq<Frame>): Bytes {
    if fs == [] then [] else FrameBytes(fs[0]) + AllBytes(fs[1..])
  }

  /** The frame is within the reader's limits, and its metadata decodes and describes its payload. */
  ghost predicate Holds(c: Codec, f: Frame, r: Record) {
    && |f.meta| <= METADATA_LIMIT && |f.payload| <= PAYLOAD_LIMIT
    && c.decode(f.meta) == Some(r.metadata) && r.payload == f.payload
    && r.metadata.payloadSize == |f.payload| && r.metadata.payloadDigest == c.sha(f.payload)
  }

  ghost predicate AllHold(c: Codec, fs: seq<Frame>, rs: seq<Record>) {
    |fs| == |rs| && forall i | 0 <= i < |fs| :: Holds(c, fs[i], rs[i])
  }

  // ----- one frame -----

  /** A good frame is taken off whatever follows it. */
  lemma {:induction false} FrameIsTaken(c: Codec, f: Frame, r: Record, tail: Bytes)
    requires Holds(c, f, r)
    ensures ReadRecord(c, FrameBytes(f) + tail) == Ok((r, tail)) && !AtFooter(FrameBytes(f) + tail)
  {
    var s := FrameBytes(f) + tail;
    LengthField(|f.meta|);
    LengthField(|f.payload|);
    assert s[..4] == Pack(|f.meta|, 4);
    var s1 := s[4..];
    assert s1 == f.meta + (Pack(|f.payload|, 4) + f.payload + tail);
    assert s1[..|f.meta|] == f.meta;
    var s2 := s1[|f.meta|..];
    assert s2 == Pack(|f.payload|, 4) + (f.payload + tail);
    assert s2[..4] == Pack(|f.payload|, 4);
    var s3 := s2[4..];
    assert s3 == f.payload + tail;
    assert s3[..|f.payload|] == f.payload && s3[|f.payload|..] == tail;
  }

  lemma {:induction false} CutAt(s: Bytes, k: nat)
    requires k <= |s|
    ensures s == s[..k] + s[k..]
  {
  }

  lemma {:induction false} Regroup(a: Bytes, b: Bytes, d: Bytes, e: Bytes, rest: Bytes)
    ensures a + (b + (d + (e + rest))) == a + b + d + e + rest
  {
  }

  /** The four parts of a frame and what follows, put together again. */
  lemma {:induction false} Rejoined(s: Bytes, m: nat, n: nat)
    requires 8 + m + n <= |s|
    ensures s == s[..4] + s[4..][..m] + s[4..][m..][..4] + s[4..][m..][4..][..n] + s[4..][m..][4..][n..]
  {
    var s1 := s[4..];
    var s2 := s1[m..];
    var s3 := s2[4..];
    CutAt(s, 4);
    CutAt(s1, m);
    CutAt(s2, 4);
    CutAt(s3, n);
    Regroup(s[..4], s1[..m], s2[..4], s3[..n], s3[n..]);
  }

  /** Whatever record is taken lies at the front as a good frame. */
  lemma {:induction false} TakenIsFrame(c: Codec, s: Bytes) returns (f: Frame)
    requires ReadRecord(c, s).Ok?
    ensures Holds(c, f, ReadRecord(c, s).value.0) && s == FrameBytes(f) + ReadRecord(c, s).value.1
  {
    var m := Unpack(s[..4]);
    var n := Unpack(s[4..][m..][..4]);
    f := Frame(s[4..][..m], s[4..][m..][4..][..n]);
    PackUnpack(s[..4]);
    PackUnpack(s[4..][m..][..4]);
    Rejoined(s, m, n);
  }

  // ----- all frames -----

  lemma {:induction false} OneTaken(c: Codec, f: Frame, r: Record, rest: Bytes)
    requires Holds(c, f, r)
    ensures Items(NextRecord(c), FrameBytes(f) + rest)
            == ([r] + Items(NextRecord(c), rest).0, Items(NextRecord(c), rest).1)
  {
    FrameIsTaken(c, f, r, rest);
    ItemsStep(NextRecord(c), FrameBytes(f) + rest, r, rest);
  }

  lemma {:induction false} NothingTaken(c: Codec, tail: Bytes)
    requires NextRecord(c)(tail).None?
    ensures Items(NextRecord(c), tail) == ([], tail)
  {
  }

  lemma {:induction false} AllBytesThen(fs: seq<Frame>, tail: Bytes)
    requires fs != []
    ensures AllBytes(fs) + tail == FrameBytes(fs[0]) + (AllBytes(fs[1..]) + tail)
  {
  }

  lemma {:induction false} FramesAreTaken(c: Codec, fs: seq<Frame>, rs: seq<Record>, tail: Bytes)
    requires AllHold(c, fs, rs) && NextRecord(c)(tail).None?
    ensures Items(NextRecord(c), AllBytes(fs) + tail) == (rs, tail)
    decreases |fs|
  {
    if fs == [] {
      assert AllBytes(fs) + tail == tail;
      NothingTaken(c, tail);
    } else {
      AllBytesThen(fs, tail);
      FramesAreTaken(c, fs[1..], rs[1..], tail);
      OneTaken(c, fs[0], rs[0], AllBytes(fs[1..]) + tail);
      assert rs == [rs[0]] + rs[1..];
    }
  }

  lemma {:induction false} AllHoldCons(c: Codec, f: Frame, r: Record, fs: seq<Frame>, rs: seq<Record>)
    requires Holds(c, f, r) && AllHold(c, fs, rs)
    ensures AllHold(c, [f] + fs, [r] + rs)
  {
  }

  lemma {:induction false} BytesCons(f: Frame, fs: seq<Frame>, tail: Bytes)
    ensures AllBytes([f] + fs) + tail == FrameBytes(f) + (AllBytes(fs) + tail)
  {
    assert ([f] + fs)[1..] == fs;
    AllBytesThen([f] + fs, tail);
  }

  /** A record taken off the front, and the items that follow it. */
  lemma {:induction false} ItemsFromFirst(c: Codec, s: Bytes)
    requires NextRecord(c)(s).Some?
    ensures var (r, rest) := NextRecord(c)(s).value;
            && ReadRecord(c, s) == Ok((r, rest)) && |rest| < |s|
            && Items(NextRecord(c), s) == ([r] + Items(NextRecord(c), rest).0, Items(NextRecord(c), rest).1)
  {
    RestIsATail(c, s);
    ItemsStep(NextRecord(c), s, NextRecord(c)(s).value.0, NextRecord(c)(s).value.1);
  }

  /** What the reader takes off any bytes are frames that lie there one after the other. */
  lemma {:induction false} ItemsAreFrames(c: Codec, s: Bytes) returns (fs: seq<Frame>)
    ensures AllHold(c, fs, Items(NextRecord(c), s).0) && s == AllBytes(fs) + Items(NextRecord(c), s).1
    decreases |s|
  {
    if NextRecord(c)(s).None? {
      NothingTaken(c, s);
      fs := [];
      assert s == [] + s;
    } else {
      ItemsFromFirst(c, s);
      var (r, rest) := NextRecord(c)(s).value;
      var f := TakenIsFrame(c, s);
      var more := ItemsAreFrames(c, rest);
      fs := [f] + more;
      AllHoldCons(c, f, r, more, Items(NextRecord(c), rest).0);
      BytesCons(f, more, Items(NextRecord(c), rest).1);
    }
  }

  // ----- whole streams -----

  /** The stream is the magic, the frames and a footer that counts and digests them. */
  ghost predicate Formatted(c: Codec, s: Bytes, fs: seq<Frame>, digest: Bytes) {
    && |fs| < Pow256(8) && c.sha(AllBytes(fs)) == digest
    && s == FORMAT_MAGIC + AllBytes(fs) + (Pack(FOOTER_MARKER, 4) + Pack(|fs|, 8) + digest + FOOTER_MAGIC)
  }

  ghost predicate Accepted(c: Codec, s: Bytes, rs: seq<Record>, digest: Bytes) {
    exists fs :: AllHold(c, fs, rs) && Formatted(c, s, fs, digest)
  }

  lemma {:induction false} Parts(a: Bytes, b: Bytes, d: Bytes)
    ensures var s := a + b + d;
            s[..|a|] == a && s[|a|..] == b + d && s[|a|..|s| - |d|] == b
  {
  }

  lemma {:induction false} ReadUnfolds(c: Codec, s: Bytes, digest: Bytes)
    requires |s| >= 8 && s[..8] == FORMAT_MAGIC
    ensures var (rs, rest) := Items(NextRecord(c), s[8..]);
            |rest| <= |s| - 8 && Read(c, s, digest) == (rs, Ending(c, rest, |rs|, s[8..|s| - |rest|], digest))
  {
    TailOf(c, s[8..]);
  }

  lemma {:induction false} ReadByParts(c: Codec, raw: Bytes, tail: Bytes, rs: seq<Record>, digest: Bytes)
    requires Items(NextRecord(c), raw + tail) == (rs, tail)
    ensures Read(c, FORMAT_MAGIC + raw + tail, digest) == (rs, Ending(c, tail, |rs|, raw, digest))
  {
    Parts(FORMAT_MAGIC, raw, tail);
    ReadUnfolds(c, FORMAT_MAGIC + raw + tail, digest);
  }

  lemma {:induction false} FormattedReads(c: Codec, s: Bytes, fs: seq<Frame>, rs: seq<Record>, digest: Bytes)
    requires c.Faithful() && AllHold(c, fs, rs) && Formatted(c, s, fs, digest)
    ensures Read(c, s, digest) == (rs, None)
  {
    var footer := Footer(|fs|, digest);
    FooterEnds(c, |fs|, AllBytes(fs), []);
    assert footer + [] == footer;
    FramesAreTaken(c, fs, rs, footer);
    ReadByParts(c, AllBytes(fs), footer, rs, digest);
  }

  /** The footer of an accepted stream, and the bytes ahead of it that the reader took. */
  lemma {:induction false} FooterOf(c: Codec, rest: Bytes, count: nat, raw: Bytes, digest: Bytes)
    requires c.Faithful() && Ending(c, rest, count, raw, digest).None? && NextRecord(c)(rest).None?
    ensures rest == Footer(count, digest) && c.sha(raw) == digest && count < Pow256(8)
  {
    FooterShape(c, rest, count, raw, digest);
    PackUnpack(rest[4..][..8]);
  }

  lemma {:induction false} StartsWithMagic(c: Codec, s: Bytes, digest: Bytes)
    requires Read(c, s, digest).1.None?
    ensures |s| >= 8 && s[..8] == FORMAT_MAGIC
  {
  }

  lemma {:induction false} TailIs(body: Bytes, rest: Bytes)
    requires |rest| <= |body| && body == body[..|body| - |rest|] + rest
    ensures body[|body| - |rest|..] == rest
  {
  }

  lemma {:induction false} BodyIs(s: Bytes, tail: nat)
    requires 8 + tail <= |s|
    ensures s[8..|s| - tail] == s[8..][..|s| - 8 - tail]
    ensures s == s[..8] + s[8..|s| - tail] + s[8..][|s| - 8 - tail..]
  {
    ThreeParts(s, tail);
  }

  lemma {:induction false} AcceptedParts(c: Codec, s: Bytes, digest: Bytes) returns (raw: Bytes, rest: Bytes)
    requires c.Faithful() && Read(c, s, digest).1.None?
    ensures var rs := Read(c, s, digest).0;
            && s == FORMAT_MAGIC + raw + rest && Items(NextRecord(c), raw + rest) == (rs, rest)
            && rest == Footer(|rs|, digest) && c.sha(raw) == digest && |rs| < Pow256(8)
  {
    StartsWithMagic(c, s, digest);
    ReadUnfolds(c, s, digest);
    TailOf(c, s[8..]);
    rest := Items(NextRecord(c), s[8..]).1;
    raw := s[8..|s| - |rest|];
    BodyIs(s, |rest|);
    TailIs(s[8..], rest);
    FooterOf(c, rest, |Items(NextRecord(c), s[8..]).0|, raw, digest);
  }

  lemma {:induction false} SameHead(a: Bytes, b: Bytes, tail: Bytes)
    requires a + tail == b + tail
    ensures a == b
  {
    assert |a| == |b|;
    forall i | 0 <= i < |a| ensures a[i] == b[i] {
      assert (a + tail)[i] == (b + tail)[i];
    }
  }

  lemma {:induction false} ReadIsFormatted(c: Codec, s: Bytes, rs: seq<Record>, digest: Bytes)
    requires c.Faithful() && Read(c, s, digest) == (rs, None)
    ensures Accepted(c, s, rs, digest)
  {
    var raw, rest := AcceptedParts(c, s, digest);
    var fs := ItemsAreFrames(c, raw + rest);
    SameHead(raw, AllBytes(fs), rest);
    assert Formatted(c, s, fs, digest);
  }

  /**
   The reader returns these records without an error exactly when the bytes are
   the magic, one good frame for each of them, and the footer that counts the
   frames and carries the digest the manifest asks for.
   */
  lemma {:induction false} AcceptsExactlyWhen(c: Codec, s: Bytes, rs: seq<Record>, digest: Bytes)
    requires c.Faithful()
    ensures Read(c, s, digest) == (rs, None) <==> Accepted(c, s, rs, digest)
  {
    if Read(c, s, digest) == (rs, None) {
      ReadIsFormatted(c, s, rs, digest);
    }
    if Accepted(c, s, rs, digest) {
      var fs :| AllHold(c, fs, rs) && Formatted(c, s, fs, digest);
      FormattedReads(c, s, fs, rs, digest);
    }
  }

  // ----- manifests -----

  ghost function PayloadSum(rs: seq<Record>): nat {
    if rs == [] then 0 else |rs[0].payload| + PayloadSum(rs[1..])
  }

  lemma {:induction false} SumSnoc(rs: seq<Record>, r: Record)
    ensures PayloadSum(rs + [r]) == PayloadSum(rs) + |r.payload|
  {
    if rs == [] {
      assert [r][1..] == [];
    } else {
      SumSnoc(rs[1..], r);
      assert (rs + [r])[1..] == rs[1..] + [r];
    }
  }

  lemma {:induction false} TotalIsSum(rs: seq<Record>)
    ensures PayloadTotal(rs) == PayloadSum(rs)
  {
    if rs != [] {
      TotalIsSum(rs[..|rs| - 1]);
      SumSnoc(rs[..|rs| - 1], rs[|rs| - 1]);
      assert rs == rs[..|rs| - 1] + [rs[|rs| - 1]];
    }
  }

  /** A segment verifies exactly when its bytes hold as many records and payload bytes as the manifest says, under its digest. */
  lemma {:induction false} VerifiesExactlyWhen(c: Codec, s: Bytes, m: Manifest)
    requires c.Faithful()
    ensures Verifies(c, s, m)
            <==> exists rs :: Accepted(c, s, rs, m.recordsDigest) && |rs| == m.recordCount && PayloadSum(rs) == m.payloadBytes
  {
    var (read, error) := Read(c, s, m.recordsDigest);
    if Verifies(c, s, m) {
      AcceptsExactlyWhen(c, s, read, m.recordsDigest);
      TotalIsSum(read);
    }
    if rs :| Accepted(c, s, rs, m.recordsDigest) && |rs| == m.recordCount && PayloadSum(rs) == m.payloadBytes {
      AcceptsExactlyWhen(c, s, rs, m.recordsDigest);
      TotalIsSum(rs);
    }
  }

  /** The end of a segment is the latest instant at which anything was received, or its start. */
  lemma {:induction false} EndIsLatest(rs: seq<Record>, start: nat)
    ensures var end := LastReceive(rs, start);
            && start <= end && (forall i | 0 <= i < |rs| :: rs[i].metadata.receiveTs <= end)
            && (end == start || exists i :: 0 <= i < |rs| && rs[i].metadata.receiveTs == end)
  {
    if rs != [] {
      var init := rs[..|rs| - 1];
      EndIsLatest(init, start);
      if rs[|rs| - 1].metadata.receiveTs <= LastReceive(init, start) && LastReceive(init, start) != start {
        var i :| 0 <= i < |init| && init[i].metadata.receiveTs == LastReceive(init, start);
        assert rs[i].metadata.receiveTs == LastReceive(rs, start);
      }
    }
  }

  /** The manifest of a finished segment counts its records and payload bytes, and spans its instants. */
  lemma {:induction false} ManifestMeans(c: Codec, rs: seq<Record>, start: nat)
    ensures var m := ManifestOf(c, rs, start);
            && m.recordCount == |rs| && m.payloadBytes == PayloadSum(rs) && m.recordsDigest == c.sha(Blocks(c, rs))
            && m.startedAt == start <= m.endedAt && forall i | 0 <= i < |rs| :: rs[i].metadata.receiveTs <= m.endedAt
  {
    TotalIsSum(rs);
    EndIsLatest(rs, start);
  }
}
