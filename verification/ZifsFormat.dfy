/**
 * The two redundant ZiFS structures and their codecs: superblocks (kernel/fs/zifs/zifs.c) and
 * journal headers (kernel/fs/zifs/journal.c).
 */
module ZifsFormat {
  import opened Status
  import opened Unicode
  import opened Layout

  const BLOCK_SIZE := 4096

  type Block = b: seq<byte> | |b| == 4096 witness Zeros(4096)

  type Device = seq<Block>

  type Uuid = b: seq<byte> | |b| == 16 witness Zeros(16)

  /** What two copies of a superblock must agree on: format, features, geometry and name. */
  datatype Identity = Identity(
    major: u16, minor: u16, shift: byte, checksumType: byte,
    compatible: u64, readOnlyCompatible: u64, incompatible: u64, uuid: Uuid,
    total: u64, root: u64,
    recordStart: u64, recordBlocks: u64, directoryStart: u64, directoryBlocks: u64,
    bitmapStart: u64, bitmapBlocks: u64, journalStart: u64, journalBlocks: u64,
    securityStart: u64, securityBlocks: u64, backup: u64,
    name: seq<byte>)

  datatype Superblock = Superblock(id: Identity, generation: u64, lastCommitted: u64, state: u32)

  const STATE_NONE: u32 := 0
  const STATE_TRANSACTION_DIRTY: u32 := 1
  const STATE_MOUNTED: u32 := 2

  predicate HasBit(features: u64, value: nat)
    requires value > 0
  {
    features / value % 2 == 1
  }

  predicate UsesJournal(id: Identity) { HasBit(id.incompatible, 1) }
  predicate UsesSecurity(id: Identity) { HasBit(id.incompatible, 2) }
  predicate UsesDirectoryExtents(id: Identity) { HasBit(id.incompatible, 4) }
  predicate UsesCleanUnmount(id: Identity) { HasBit(id.incompatible, 8) }
  predicate OnlyKnownFeatures(id: Identity) { id.incompatible < 16 }

  predicate StateValid(s: Superblock) {
    && s.state < 4
    && if UsesCleanUnmount(s.id) then s.state != STATE_TRANSACTION_DIRTY
       else s.state < STATE_MOUNTED
  }

  datatype Range = Range(start: nat, count: nat)
  {
    ghost predicate Has(b: int) { start <= b < start + count }
  }

  predicate Overlap(a: Range, b: Range) {
    if a.count == 0 || b.count == 0 then false
    else if a.start <= b.start then a.count > b.start - a.start
    else b.count > a.start - b.start
  }

  /** The overlap test says exactly whether some block is in both ranges. */
  lemma OverlapMeansShared(a: Range, b: Range)
    ensures Overlap(a, b) <==> exists x: int :: a.Has(x) && b.Has(x)
  {
    if Overlap(a, b) {
      var x := if a.start <= b.start then b.start else a.start;
      assert a.Has(x) && b.Has(x);
    }
  }

  function Tables(id: Identity): (r: seq<Range>)
    ensures |r| == 5
  {
    [Range(id.recordStart, id.recordBlocks),
     Range(id.directoryStart, id.directoryBlocks),
     Range(id.bitmapStart, id.bitmapBlocks),
     Range(id.journalStart, id.journalBlocks),
     Range(id.securityStart, id.securityBlocks)]
  }

  predicate TableInside(id: Identity, start: u64, blocks: u64) {
    start < id.total && blocks <= id.total - start
  }

  predicate SizesValid(id: Identity) {
    && id.total >= 2
    && id.backup == id.total - 1
    && TableInside(id, id.recordStart, id.recordBlocks) && id.recordBlocks != 0
    && TableInside(id, id.directoryStart, id.directoryBlocks) && id.directoryBlocks != 0
    && TableInside(id, id.bitmapStart, id.bitmapBlocks) && id.bitmapBlocks != 0
    && TableInside(id, id.journalStart, id.journalBlocks)
    && TableInside(id, id.securityStart, id.securityBlocks)
    && (UsesSecurity(id) ==> 0 < id.securityBlocks <= 16)
    && id.bitmapBlocks >= 1 + (id.total - 1) / (BLOCK_SIZE * 8)
    && id.recordBlocks <= MAX64 / 16
    && id.root < id.recordBlocks * 16
    && (UsesJournal(id) ==> id.journalBlocks > 2 && (id.journalBlocks - 2) % 2 == 0)
  }

  predicate TablesDisjoint(id: Identity) {
    var t := Tables(id);
    && (forall i :: 0 <= i < 5 ==> !Overlap(t[i], Range(0, 1)) && !Overlap(t[i], Range(id.backup, 1)))
    && (forall i, j :: 0 <= i < j < 5 ==> !Overlap(t[i], t[j]))
  }

  predicate RangesValid(id: Identity) {
    SizesValid(id) && TablesDisjoint(id)
  }

  predicate Encodable(s: Superblock) {
    |s.id.name| <= 64 && StateValid(s) && RangesValid(s.id)
  }

  predicate FormatKnown(id: Identity) {
    id.major == 0 && id.minor <= 1 && id.shift == 12 && id.checksumType == 1
  }

  /** Everything that decoding checks of the decoded fields. */
  predicate Decodable(s: Superblock) {
    Encodable(s) && FormatKnown(s.id) && s.generation != 0 && Valid(s.id.name)
  }

  const SUPER_MAGIC: seq<byte> := [0x5a, 0x69, 0x46, 0x53, 0x0d, 0x0a, 0x1a, 0x0a]

  const HEAD_WIDTHS: seq<nat> := [8, 2, 2, 2, 1, 1, 8, 8, 8, 16]
  const GEOMETRY_WIDTHS: seq<nat> := [8, 8, 8, 8, 8, 8, 8, 8, 8, 8, 8, 8, 8, 8]
  const TAIL_WIDTHS: seq<nat> := [2, 2, 64, 8, 4, 4]

  function HeadParts(id: Identity): (p: seq<seq<byte>>)
    ensures Fits(HEAD_WIDTHS, p)
  {
    [SUPER_MAGIC, LE(2, id.major), LE(2, id.minor), LE(2, 256), [id.shift], [id.checksumType],
     LE(8, id.compatible), LE(8, id.readOnlyCompatible), LE(8, id.incompatible), id.uuid]
  }

  function GeometryParts(s: Superblock): (p: seq<seq<byte>>)
    ensures Fits(GEOMETRY_WIDTHS, p)
  {
    [LE(8, s.generation), LE(8, s.id.total), LE(8, s.id.root),
     LE(8, s.id.recordStart), LE(8, s.id.recordBlocks),
     LE(8, s.id.directoryStart), LE(8, s.id.directoryBlocks),
     LE(8, s.id.bitmapStart), LE(8, s.id.bitmapBlocks),
     LE(8, s.id.journalStart), LE(8, s.id.journalBlocks),
     LE(8, s.id.securityStart), LE(8, s.id.securityBlocks), LE(8, s.id.backup)]
  }

  function TailParts(s: Superblock): (p: seq<seq<byte>>)
    requires |s.id.name| <= 64
    ensures Fits(TAIL_WIDTHS, p)
  {
    [LE(2, |s.id.name|), Zeros(2), s.id.name + Zeros(64 - |s.id.name|),
     LE(8, s.lastCommitted), LE(4, s.state), Zeros(4)]
  }

  lemma LayoutTotals()
    ensures Total(HEAD_WIDTHS) == 56
    ensures Total(GEOMETRY_WIDTHS) == 112
    ensures Total(TAIL_WIDTHS) == 84
    ensures Total(JOURNAL_WIDTHS) == 124
  {
    HeadTotal();
    GeometryTotal();
    TailTotal();
    JournalTotal();
  }

  lemma HeadTotal()
    ensures Total(HEAD_WIDTHS) == 56
  {
    var w := HEAD_WIDTHS;
    assert w[1..][1..][1..] == [2, 1, 1, 8, 8, 8, 16];
    assert w[1..][1..][1..][1..][1..] == [1, 8, 8, 8, 16];
  }

  lemma {:induction false} TotalEights(n: nat)
    ensures Total(seq(n, _ => 8)) == 8 * n
  {
    if n > 0 {
      assert seq(n, _ => 8 as nat)[1..] == seq(n - 1, _ => 8 as nat);
      TotalEights(n - 1);
    }
  }

  lemma GeometryTotal()
    ensures Total(GEOMETRY_WIDTHS) == 112
  {
    TotalEights(14);
    assert GEOMETRY_WIDTHS == seq(14, _ => 8 as nat);
  }

  lemma TailTotal()
    ensures Total(TAIL_WIDTHS) == 84
  {
    assert TAIL_WIDTHS[1..][1..][1..] == [8, 4, 4];
  }

  lemma JournalTotal()
    ensures Total(JOURNAL_WIDTHS) == 124
  {
    hide Total;
    var eights := seq(7, _ => 8 as nat);
    TotalEights(7);
    TotalAppend([4, 2, 2], [8, 8, 4, 4] + (eights + [36]));
    TotalAppend([8, 8, 4, 4], eights + [36]);
    TotalAppend(eights, [36]);
    ShortTotals();
    assert JOURNAL_WIDTHS == [4, 2, 2] + ([8, 8, 4, 4] + (eights + [36]));
  }

  lemma ShortTotals()
    ensures Total([4, 2, 2]) == 8 && Total([8, 8, 4, 4]) == 24 && Total([36]) == 36
  {
    assert [4, 2, 2][1..] == [2, 2];
    assert [8, 8, 4, 4][1..][1..] == [4, 4];
  }

  lemma {:induction false} TotalAppend(a: seq<nat>, b: seq<nat>)
    ensures Total(a + b) == Total(a) + Total(b)
  {
    if a == [] {
      assert a + b == b;
    } else {
      assert (a + b)[1..] == a[1..] + b;
      TotalAppend(a[1..], b);
    }
  }

  /** The 252 bytes that a superblock's checksum covers. */
  function SuperBytes(s: Superblock): (r: seq<byte>)
    requires |s.id.name| <= 64
    ensures |r| == 252
  {
    LayoutTotals();
    SplitConcat(HEAD_WIDTHS, HeadParts(s.id), []);
    SplitConcat(GEOMETRY_WIDTHS, GeometryParts(s), []);
    SplitConcat(TAIL_WIDTHS, TailParts(s), []);
    Concat(HeadParts(s.id)) + Concat(GeometryParts(s)) + Concat(TailParts(s))
  }

  function EncodeSuperblock(s: Superblock): Checked<Block> {
    if !Encodable(s) then Err(InvalidArgument)
    else
      var covered := SuperBytes(s);
      Ok(covered + LE(4, Checksum(0, covered)) + Zeros(3840))
  }

  function ParseSuperblock(h: seq<seq<byte>>, g: seq<seq<byte>>, t: seq<seq<byte>>): Superblock
    requires Fits(HEAD_WIDTHS, h) && Fits(GEOMETRY_WIDTHS, g) && Fits(TAIL_WIDTHS, t)
    requires U16(t[0]) <= 64
  {
    Superblock(
      Identity(
        U16(h[1]), U16(h[2]), h[4][0], h[5][0], U64(h[6]), U64(h[7]), U64(h[8]), h[9],
        U64(g[1]), U64(g[2]), U64(g[3]), U64(g[4]), U64(g[5]), U64(g[6]), U64(g[7]), U64(g[8]),
        U64(g[9]), U64(g[10]), U64(g[11]), U64(g[12]), U64(g[13]), t[2][..U16(t[0])]),
      U64(g[0]), U64(t[3]), U32(t[4]))
  }

  function HeadOf(b: Block): (h: seq<seq<byte>>)
    ensures Fits(HEAD_WIDTHS, h)
  {
    HeadTotal(); Split(HEAD_WIDTHS, b[..56])
  }

  function GeometryOf(b: Block): (g: seq<seq<byte>>)
    ensures Fits(GEOMETRY_WIDTHS, g)
  {
    GeometryTotal(); Split(GEOMETRY_WIDTHS, b[56..168])
  }

  function TailOf(b: Block): (t: seq<seq<byte>>)
    ensures Fits(TAIL_WIDTHS, t)
  {
    TailTotal(); Split(TAIL_WIDTHS, b[168..252])
  }

  function DecodeSuperblock(b: Block): Checked<Superblock> {
    var h := HeadOf(b);
    if h[0] != SUPER_MAGIC then Err(CorruptFilesystem)
    else if U16(h[3]) != 256 then Err(CorruptFilesystem)
    else if U32(b[252..256]) != Checksum(0, b[..252]) then Err(ChecksumMismatch)
    else if U16(TailOf(b)[0]) > 64 then Err(CorruptFilesystem)
    else Accepted(ParseSuperblock(h, GeometryOf(b), TailOf(b)))
  }

  /** The checks on the decoded fields. */
  function Accepted(s: Superblock): Checked<Superblock> {
    if !FormatKnown(s.id) || s.generation == 0 || !StateValid(s) || !RangesValid(s.id) then Err(CorruptFilesystem)
    else if !Valid(s.id.name) then Err(InvalidEncoding)
    else Ok(s)
  }

  lemma DecodedIsDecodable(b: Block)
    requires DecodeSuperblock(b).Ok?
    ensures Decodable(DecodeSuperblock(b).value)
  {
    hide RangesValid, StateValid, FormatKnown, Valid, Checksum;
  }

  lemma HeadRoundTrip(id: Identity)
    ensures var h := HeadParts(id);
            && U16(h[1]) == id.major && U16(h[2]) == id.minor && U16(h[3]) == 256
            && h[4][0] == id.shift && h[5][0] == id.checksumType && U64(h[6]) == id.compatible
            && U64(h[7]) == id.readOnlyCompatible && U64(h[8]) == id.incompatible && h[9] == id.uuid
  {
    hide U16, U64, LE;
    RoundTrip16(id.major);
    RoundTrip16(id.minor);
    RoundTrip16(256);
    RoundTrip64(id.compatible);
    RoundTrip64(id.readOnlyCompatible);
    RoundTrip64(id.incompatible);
  }

  lemma GeometryRoundTrip(s: Superblock)
    ensures var g := GeometryParts(s);
            && U64(g[0]) == s.generation && U64(g[1]) == s.id.total && U64(g[2]) == s.id.root
            && U64(g[3]) == s.id.recordStart && U64(g[4]) == s.id.recordBlocks
            && U64(g[5]) == s.id.directoryStart && U64(g[6]) == s.id.directoryBlocks
            && U64(g[7]) == s.id.bitmapStart && U64(g[8]) == s.id.bitmapBlocks
            && U64(g[9]) == s.id.journalStart && U64(g[10]) == s.id.journalBlocks
            && U64(g[11]) == s.id.securityStart && U64(g[12]) == s.id.securityBlocks
            && U64(g[13]) == s.id.backup
  {
    hide U64, LE;
    RoundTrip64(s.generation);
    RoundTrip64(s.id.total);
    RoundTrip64(s.id.root);
    RoundTrip64(s.id.recordStart);
    RoundTrip64(s.id.recordBlocks);
    RoundTrip64(s.id.directoryStart);
    RoundTrip64(s.id.directoryBlocks);
    RoundTrip64(s.id.bitmapStart);
    RoundTrip64(s.id.bitmapBlocks);
    RoundTrip64(s.id.journalStart);
    RoundTrip64(s.id.journalBlocks);
    RoundTrip64(s.id.securityStart);
    RoundTrip64(s.id.securityBlocks);
    RoundTrip64(s.id.backup);
  }

  lemma TailRoundTrip(s: Superblock)
    requires |s.id.name| <= 64
    ensures var t := TailParts(s);
            && U16(t[0]) == |s.id.name| && t[2][..U16(t[0])] == s.id.name
            && U64(t[3]) == s.lastCommitted && U32(t[4]) == s.state
  {
    hide U16, U32, U64, LE;
    RoundTrip16(|s.id.name|);
    RoundTrip64(s.lastCommitted);
    RoundTrip32(s.state);
  }

  lemma ParseOfParts(s: Superblock)
    requires |s.id.name| <= 64
    ensures U16(TailParts(s)[0]) == |s.id.name|
    ensures ParseSuperblock(HeadParts(s.id), GeometryParts(s), TailParts(s)) == s
  {
    hide HeadParts, GeometryParts, TailParts, U16, U32, U64;
    HeadRoundTrip(s.id);
    GeometryRoundTrip(s);
    TailRoundTrip(s);
  }

  /** The three groups of fields sit where the decoder looks for them. */
  lemma SuperBytesParts(s: Superblock, b: Block)
    requires |s.id.name| <= 64 && b[..252] == SuperBytes(s)
    ensures HeadOf(b) == HeadParts(s.id) && GeometryOf(b) == GeometryParts(s) && TailOf(b) == TailParts(s)
  {
    hide HeadParts, GeometryParts, TailParts, Concat, Split, Total;
    LayoutTotals();
    SplitConcat(HEAD_WIDTHS, HeadParts(s.id), []);
    SplitConcat(GEOMETRY_WIDTHS, GeometryParts(s), []);
    SplitConcat(TAIL_WIDTHS, TailParts(s), []);
    var all := b[..252];
    assert b[..56] == all[..56] == Concat(HeadParts(s.id)) + [];
    assert b[56..168] == all[56..168] == Concat(GeometryParts(s)) + [];
    assert b[168..252] == all[168..252] == Concat(TailParts(s)) + [];
  }

  lemma FirstHeadPart(id: Identity)
    ensures HeadParts(id)[0] == SUPER_MAGIC && U16(HeadParts(id)[3]) == 256
  {
    hide U16, LE;
    HeadRoundTrip(id);
  }

  /** Decoding an encoded superblock returns it, for every superblock a decoder could have produced. */
  lemma SuperblockRoundTrip(s: Superblock)
    requires Decodable(s)
    ensures EncodeSuperblock(s).Ok? && DecodeSuperblock(EncodeSuperblock(s).value) == Ok(s)
  {
    hide HeadParts, GeometryParts, TailParts, SuperBytes, HeadOf, GeometryOf, TailOf, ParseSuperblock;
    hide Checksum, U16, U32, LE, Zeros, RangesValid, StateValid, FormatKnown, Valid;
    var covered := SuperBytes(s);
    var sum := LE(4, Checksum(0, covered));
    var b := EncodeSuperblock(s).value;
    assert b[..252] == covered;
    SuperBytesParts(s, b);
    assert b[252..256] == sum;
    RoundTrip32(Checksum(0, covered));
    ParseOfParts(s);
    FirstHeadPart(s.id);
  }

  datatype JournalHeader = JournalHeader(
    sequence: u64, volumeGeneration: u64, capacity: u64, head: u64, tail: u64,
    nextSequence: u64, nextTransaction: u64, lastCommitted: u64, lastCheckpoint: u64, flags: u32)

  /** How many records lie between tail and head on the ring. */
  function Occupied(h: JournalHeader): (n: nat)
    requires h.head < h.capacity && h.tail < h.capacity
    ensures n < h.capacity
    ensures n == 0 <==> h.head == h.tail
  {
    var head: int, tail: int, capacity: int := h.head, h.tail, h.capacity;
    if head >= tail then head - tail else capacity - (tail - head)
  }

  predicate HeaderValid(h: JournalHeader) {
    && h.sequence != 0 && h.volumeGeneration != 0
    && h.capacity >= 5 && h.head < h.capacity && h.tail < h.capacity
    && h.nextSequence != 0 && h.lastCommitted != MAX64
    && h.nextTransaction == h.lastCommitted + 1
    && h.lastCheckpoint <= h.lastCommitted
    && h.flags == 0
    && if h.lastCheckpoint == h.lastCommitted then Occupied(h) == 0
       else h.lastCommitted - h.lastCheckpoint == 1 && Occupied(h) >= 3
  }

  /** The fields of two headers that must agree; only the sequence number may differ. */
  predicate SameHeaderState(a: JournalHeader, b: JournalHeader) {
    a.(sequence := 0) == b.(sequence := 0)
  }

  const JOURNAL_MAGIC: seq<byte> := [0x5a, 0x49, 0x4a, 0x52]
  const JOURNAL_WIDTHS: seq<nat> := [4, 2, 2, 8, 8, 4, 4, 8, 8, 8, 8, 8, 8, 8, 36]

  function HeaderParts(h: JournalHeader): (p: seq<seq<byte>>)
    ensures Fits(JOURNAL_WIDTHS, p)
  {
    [JOURNAL_MAGIC, LE(2, 1), LE(2, 128), LE(8, h.sequence), LE(8, h.volumeGeneration), LE(4, 2), LE(4, h.flags),
     LE(8, h.capacity), LE(8, h.head), LE(8, h.tail), LE(8, h.nextSequence), LE(8, h.nextTransaction),
     LE(8, h.lastCommitted), LE(8, h.lastCheckpoint), Zeros(36)]
  }

  function HeaderBytes(h: JournalHeader): (r: seq<byte>)
    ensures |r| == 124
  {
    LayoutTotals();
    SplitConcat(JOURNAL_WIDTHS, HeaderParts(h), []);
    Concat(HeaderParts(h))
  }

  function EncodeHeader(h: JournalHeader): Checked<Block> {
    if !HeaderValid(h) then Err(InvalidArgument)
    else
      var covered := HeaderBytes(h);
      Ok(covered + LE(4, Checksum(0, covered)) + Zeros(3968))
  }

  function ParseHeader(p: seq<seq<byte>>): JournalHeader
    requires Fits(JOURNAL_WIDTHS, p)
  {
    JournalHeader(U64(p[3]), U64(p[4]), U64(p[7]), U64(p[8]), U64(p[9]), U64(p[10]), U64(p[11]), U64(p[12]),
                  U64(p[13]), U32(p[6]))
  }

  function HeaderOf(b: Block): (p: seq<seq<byte>>)
    ensures Fits(JOURNAL_WIDTHS, p)
  {
    JournalTotal(); Split(JOURNAL_WIDTHS, b[..124])
  }

  function DecodeHeader(b: Block): Checked<JournalHeader> {
    var p := HeaderOf(b);
    if p[0] != JOURNAL_MAGIC || U16(p[1]) != 1 || U16(p[2]) != 128 || U32(p[5]) != 2 then Err(CorruptFilesystem)
    else if U32(b[124..128]) != Checksum(0, b[..124]) then Err(ChecksumMismatch)
    else
      var h := ParseHeader(p);
      if HeaderValid(h) then Ok(h) else Err(CorruptFilesystem)
  }

  lemma HeaderPartsRoundTrip(h: JournalHeader)
    ensures var p := HeaderParts(h);
            && p[0] == JOURNAL_MAGIC && U16(p[1]) == 1 && U16(p[2]) == 128 && U32(p[5]) == 2
            && ParseHeader(p) == h
  {
    hide U16, U32, U64, LE;
    RoundTrip16(1);
    RoundTrip16(128);
    RoundTrip32(2);
    RoundTrip32(h.flags);
    RoundTrip64(h.sequence);
    RoundTrip64(h.volumeGeneration);
    RoundTrip64(h.capacity);
    RoundTrip64(h.head);
    RoundTrip64(h.tail);
    RoundTrip64(h.nextSequence);
    RoundTrip64(h.nextTransaction);
    RoundTrip64(h.lastCommitted);
    RoundTrip64(h.lastCheckpoint);
  }

  lemma HeaderRoundTrip(h: JournalHeader)
    requires HeaderValid(h)
    ensures EncodeHeader(h).Ok? && DecodeHeader(EncodeHeader(h).value) == Ok(h)
  {
    hide HeaderParts, ParseHeader, Split, Total, Concat, Checksum, U16, U32, LE, Zeros, HeaderValid;
    var covered := HeaderBytes(h);
    var sum := LE(4, Checksum(0, covered));
    var b := EncodeHeader(h).value;
    LayoutTotals();
    assert b[..124] == covered == Concat(HeaderParts(h)) + [];
    assert b[124..128] == sum;
    SplitConcat(JOURNAL_WIDTHS, HeaderParts(h), []);
    RoundTrip32(Checksum(0, covered));
    HeaderPartsRoundTrip(h);
  }

  lemma DecodedHeaderValid(b: Block)
    requires DecodeHeader(b).Ok?
    ensures HeaderValid(DecodeHeader(b).value)
  {
    hide HeaderValid, Checksum;
  }

  /** A header is read from the first 128 bytes of its block. */
  lemma HeaderReads(b: Block, t: Block)
    requires b[..128] == t[..128]
    ensures DecodeHeader(b) == DecodeHeader(t)
  {
    hide Checksum, HeaderValid;
    assert b[..124] == b[..128][..124] && t[..124] == t[..128][..124];
    assert b[124..128] == b[..128][124..128] && t[124..128] == t[..128][124..128];
  }

  /** A superblock is read from the first 256 bytes of its block. */
  lemma SuperReads(b: Block, t: Block)
    requires b[..256] == t[..256]
    ensures DecodeSuperblock(b) == DecodeSuperblock(t)
  {
    hide Checksum, Accepted;
    assert b[..252] == b[..256][..252] && t[..252] == t[..256][..252];
    assert b[252..256] == b[..256][252..256] && t[252..256] == t[..256][252..256];
    assert b[..56] == b[..256][..56] && b[56..168] == b[..256][56..168] && b[168..252] == b[..256][168..252];
    assert t[..56] == t[..256][..56] && t[56..168] == t[..256][56..168] && t[168..252] == t[..256][168..252];
  }
}
