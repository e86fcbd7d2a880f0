/** File records and directory blocks, byte by byte (kernel/fs/zifs/zifs.c). */
module ZifsCodecs {
  import opened Status
  import opened Unicode
  import opened Layout
  import Crc
  import opened ZifsFormat
  import opened ZifsHome
  import opened ZifsFormatter

  /** Three runs of bytes laid end to end are found again at their places. */
  lemma Cut(a: seq<byte>, b: seq<byte>, c: seq<byte>)
    ensures var s := a + b + c;
            s[..|a|] == a && s[|a|..|a| + |b|] == b && s[|a| + |b|..] == c && s[..|a| + |b|] == a + b
  {
  }

  // File records.

  type RecordBytes = b: seq<byte> | |b| == 256 witness Zeros(256)

  const RECORD_MAGIC: seq<byte> := [0x5a, 0x49, 0x46, 0x52]
  const RECORD_WIDTHS: seq<nat> := [4, 2, 2, 8, 8, 8, 8, 8, 8, 4, 4]
  const EXTENT_WIDTHS: seq<nat> := [8, 8, 8, 8]
  const TIME_WIDTHS: seq<nat> := [8, 8, 8, 8, 8, 20]

  lemma RecordTotals()
    ensures Total(RECORD_WIDTHS) == 64 && Total(EXTENT_WIDTHS) == 32 && Total(TIME_WIDTHS) == 60
  {
    hide Total;
    var eights := seq(6, _ => 8 as nat);
    TotalEights(6);
    TotalAppend([4, 2, 2], eights + [4, 4]);
    TotalAppend(eights, [4, 4]);
    assert RECORD_WIDTHS == [4, 2, 2] + (eights + [4, 4]);
    TotalEights(4);
    assert EXTENT_WIDTHS == seq(4, _ => 8 as nat);
    TotalEights(5);
    TotalAppend(seq(5, _ => 8 as nat), [20]);
    assert TIME_WIDTHS == seq(5, _ => 8 as nat) + [20];
    FewTotals();
  }

  lemma FewTotals()
    ensures Total([4, 2, 2]) == 8 && Total([4, 4]) == 8 && Total([20]) == 20
  {
    assert [4, 2, 2][1..] == [2, 2] && [4, 4][1..] == [4];
  }

  /** The fields before the extents. The flags, which nothing tests, are written as zero. */
  function RecordParts(r: FileRecord): (p: seq<seq<byte>>)
    requires |r.extents| <= 4
    ensures Fits(RECORD_WIDTHS, p)
  {
    [RECORD_MAGIC, LE(2, 1), LE(2, r.kind), LE(8, r.fileId), LE(8, r.parentId), LE(8, 0), LE(8, r.fileSize),
     LE(8, r.allocatedSize), LE(8, r.securityId), LE(4, |r.extents|), Zeros(4)]
  }

  /** An extent; its two flag words, which must be zero, are one field. */
  function ExtentParts(e: Extent): (p: seq<seq<byte>>)
    ensures Fits(EXTENT_WIDTHS, p)
  {
    [LE(8, e.logical), LE(8, e.physical), LE(8, e.count), LE(8, 0)]
  }

  function ExtentBytes(extents: seq<Extent>, i: nat): (s: seq<byte>)
    ensures |s| == 32
  {
    RecordTotals();
    if i < |extents| then (SplitConcat(EXTENT_WIDTHS, ExtentParts(extents[i]), []); Concat(ExtentParts(extents[i])))
    else Zeros(32)
  }

  /** The times, which nothing tests and which are written as zero, and the directory block. */
  function TimeParts(r: FileRecord): (p: seq<seq<byte>>)
    ensures Fits(TIME_WIDTHS, p)
  {
    [LE(8, 0), LE(8, 0), LE(8, 0), LE(8, 0), LE(8, r.directoryBlock), Zeros(20)]
  }

  function HeadBytes(r: FileRecord): (s: seq<byte>)
    requires |r.extents| <= 4
    ensures |s| == 64
  {
    RecordTotals();
    SplitConcat(RECORD_WIDTHS, RecordParts(r), []);
    Concat(RecordParts(r))
  }

  function TimeBytes(r: FileRecord): (s: seq<byte>)
    ensures |s| == 60
  {
    RecordTotals();
    SplitConcat(TIME_WIDTHS, TimeParts(r), []);
    Concat(TimeParts(r))
  }

  function ExtentsBytes(extents: seq<Extent>): (s: seq<byte>)
    ensures |s| == 128
  {
    ExtentBytes(extents, 0) + ExtentBytes(extents, 1) + ExtentBytes(extents, 2) + ExtentBytes(extents, 3)
  }

  /** The 252 bytes that a record's checksum covers. */
  function CoveredBytes(r: FileRecord): (s: seq<byte>)
    requires |r.extents| <= 4
    ensures |s| == 252
  {
    HeadBytes(r) + ExtentsBytes(r.extents) + TimeBytes(r)
  }

  function EncodeRecord(r: FileRecord): Checked<RecordBytes> {
    if !Shaped(r) then Err(InvalidArgument)
    else
      var covered := CoveredBytes(r);
      Ok(covered + LE(4, Checksum(0, covered)))
  }

  function FirstParts(b: RecordBytes): (p: seq<seq<byte>>)
    ensures Fits(RECORD_WIDTHS, p)
  {
    RecordTotals(); Split(RECORD_WIDTHS, b[..64])
  }

  function ExtentAt(b: RecordBytes, i: nat): (p: seq<seq<byte>>)
    requires i < 4
    ensures Fits(EXTENT_WIDTHS, p)
  {
    RecordTotals(); Split(EXTENT_WIDTHS, b[64 + 32 * i..96 + 32 * i])
  }

  function LastParts(b: RecordBytes): (p: seq<seq<byte>>)
    ensures Fits(TIME_WIDTHS, p)
  {
    RecordTotals(); Split(TIME_WIDTHS, b[192..252])
  }

  function ParseExtent(p: seq<seq<byte>>): Extent
    requires Fits(EXTENT_WIDTHS, p)
  {
    Extent(U64(p[0]), U64(p[1]), U64(p[2]))
  }

  function ParseExtents(b: RecordBytes, n: nat): (extents: seq<Extent>)
    requires n <= 4
    ensures |extents| == n
  {
    seq(n, i requires 0 <= i < n => ParseExtent(ExtentAt(b, i)))
  }

  /** Used extents carry no flags, and the others are all zero. */
  predicate ExtentsTidy(b: RecordBytes, n: nat) {
    forall i :: 0 <= i < 4 ==>
      if i < n then U64(ExtentAt(b, i)[3]) == 0 else AllZero(b[64 + 32 * i..96 + 32 * i])
  }

  function DecodeRecord(b: RecordBytes): Checked<FileRecord> {
    var p := FirstParts(b);
    if p[0] != RECORD_MAGIC || U16(p[1]) != 1 then Err(CorruptFilesystem)
    else if U32(b[252..256]) != Checksum(0, b[..252]) then Err(ChecksumMismatch)
    else
      var n := U32(p[9]);
      if n > 4 then Err(CorruptFilesystem)
      else
        var r := FileRecord(U64(p[3]), U64(p[4]), U16(p[2]), U64(p[6]), U64(p[7]), U64(p[8]), U64(LastParts(b)[4]),
                            ParseExtents(b, n));
        if ExtentsTidy(b, n) && Shaped(r) then Ok(r) else Err(CorruptFilesystem)
  }

  lemma DecodedIsShaped(b: RecordBytes)
    requires DecodeRecord(b).Ok?
    ensures Shaped(DecodeRecord(b).value)
  {
    hide Shaped, Checksum, ExtentsTidy;
  }

  lemma RecordPartsRead(r: FileRecord)
    requires |r.extents| <= 4
    ensures var p := RecordParts(r);
            && p[0] == RECORD_MAGIC && U16(p[1]) == 1 && U16(p[2]) == r.kind && U64(p[3]) == r.fileId
            && U64(p[4]) == r.parentId && U64(p[6]) == r.fileSize && U64(p[7]) == r.allocatedSize
            && U64(p[8]) == r.securityId && U32(p[9]) == |r.extents|
  {
    hide U16, U32, U64, LE;
    RoundTrip16(1);
    RoundTrip16(r.kind);
    RoundTrip64(r.fileId);
    RoundTrip64(r.parentId);
    RoundTrip64(r.fileSize);
    RoundTrip64(r.allocatedSize);
    RoundTrip64(r.securityId);
    RoundTrip32(|r.extents|);
  }

  lemma ExtentPartsRead(e: Extent)
    ensures ParseExtent(ExtentParts(e)) == e && U64(ExtentParts(e)[3]) == 0
  {
    hide U64, LE;
    RoundTrip64(e.logical);
    RoundTrip64(e.physical);
    RoundTrip64(e.count);
    RoundTrip64(0);
  }

  lemma ExtentsAt(extents: seq<Extent>, i: nat)
    requires i < 4
    ensures ExtentsBytes(extents)[32 * i..32 * i + 32] == ExtentBytes(extents, i)
  {
    hide ExtentBytes;
  }

  /** Each of the four places holds its extent or zeros. */
  lemma ExtentReads(b: RecordBytes, extents: seq<Extent>, i: nat)
    requires b[64..192] == ExtentsBytes(extents) && |extents| <= 4 && i < 4
    ensures i < |extents| ==> ParseExtent(ExtentAt(b, i)) == extents[i] && U64(ExtentAt(b, i)[3]) == 0
    ensures i >= |extents| ==> AllZero(b[64 + 32 * i..96 + 32 * i])
  {
    hide ExtentsBytes, ExtentParts, ParseExtent, U64, Split, Concat, Total;
    ExtentsAt(extents, i);
    SliceOfSlice(b, 64, 192, 32 * i, 32 * i + 32);
    if i < |extents| {
      RecordTotals();
      SplitConcat(EXTENT_WIDTHS, ExtentParts(extents[i]), []);
      assert Concat(ExtentParts(extents[i])) + [] == Concat(ExtentParts(extents[i]));
      ExtentPartsRead(extents[i]);
    }
  }

  lemma ExtentsRead(b: RecordBytes, extents: seq<Extent>)
    requires b[64..192] == ExtentsBytes(extents) && |extents| <= 4
    ensures ParseExtents(b, |extents|) == extents && ExtentsTidy(b, |extents|)
  {
    hide ExtentsBytes, ExtentAt, ParseExtent, U64, AllZero;
    forall i | 0 <= i < 4
      ensures i < |extents| ==> ParseExtent(ExtentAt(b, i)) == extents[i] && U64(ExtentAt(b, i)[3]) == 0
      ensures i >= |extents| ==> AllZero(b[64 + 32 * i..96 + 32 * i])
    {
      ExtentReads(b, extents, i);
    }
  }

  lemma HeadReads(b: RecordBytes, r: FileRecord)
    requires |r.extents| <= 4 && b[..64] == HeadBytes(r) && b[192..252] == TimeBytes(r)
    ensures FirstParts(b) == RecordParts(r) && U64(LastParts(b)[4]) == r.directoryBlock
  {
    hide RecordParts, Split, Concat, Total, LE, U64;
    RecordTotals();
    SplitConcat(RECORD_WIDTHS, RecordParts(r), []);
    SplitConcat(TIME_WIDTHS, TimeParts(r), []);
    assert Concat(RecordParts(r)) + [] == Concat(RecordParts(r)) && Concat(TimeParts(r)) + [] == Concat(TimeParts(r));
    RoundTrip64(r.directoryBlock);
  }

  lemma RecordSlices(r: FileRecord, b: RecordBytes)
    requires |r.extents| <= 4 && b == CoveredBytes(r) + LE(4, Checksum(0, CoveredBytes(r)))
    ensures b[..64] == HeadBytes(r) && b[64..192] == ExtentsBytes(r.extents) && b[192..252] == TimeBytes(r)
    ensures U32(b[252..256]) == Checksum(0, b[..252])
  {
    hide HeadBytes, TimeBytes, ExtentsBytes, LE, Checksum, U32;
    var covered := CoveredBytes(r);
    Cut(HeadBytes(r), ExtentsBytes(r.extents), TimeBytes(r));
    Cut(covered, LE(4, Checksum(0, covered)), []);
    assert covered + LE(4, Checksum(0, covered)) + [] == b;
    assert b[..64] == b[..252][..64] && b[64..192] == b[..252][64..192] && b[192..252] == b[..252][192..];
    RoundTrip32(Checksum(0, covered));
  }

  /** Every record of the right shape is encoded, and decodes to itself. */
  lemma RecordRoundTrip(r: FileRecord)
    requires Shaped(r)
    ensures EncodeRecord(r).Ok? && DecodeRecord(EncodeRecord(r).value) == Ok(r) && !AllZero(EncodeRecord(r).value)
  {
    assert |r.extents| <= 4;
    hide Shaped, CoveredBytes, FirstParts, RecordParts, LastParts, ParseExtents, ExtentsTidy, AllZero;
    hide U16, U32, U64, LE, Checksum;
    var b := EncodeRecord(r).value;
    RecordSlices(r, b);
    HeadReads(b, r);
    RecordPartsRead(r);
    ExtentsRead(b, r.extents);
    MagicFirst(b);
  }

  lemma MagicFirst(b: RecordBytes)
    requires FirstParts(b)[0] == RECORD_MAGIC
    ensures !AllZero(b)
  {
    hide Total;
    RecordTotals();
    assert RECORD_WIDTHS[0] == 4;
    assert FirstParts(b)[0] == b[..64][..4] by { hide Total; }
    assert RECORD_MAGIC[0] == b[..64][..4][0] == b[0];
  }

  // Directory blocks.

  function SizeOf(entries: seq<Entry>): nat
    decreases |entries|
  {
    if entries == [] then 0
    else SizeOf(entries[..|entries| - 1]) + EntrySize(|entries[|entries| - 1].name|)
  }

  /** The entries fit into one directory block. */
  ghost predicate FitsBlock(entries: seq<Entry>) {
    && HEADER_SIZE + SizeOf(entries) <= BLOCK_SIZE
    && forall i :: 0 <= i < |entries| ==> 1 <= |entries[i].name| <= 255
  }

  lemma OneMore(entries: seq<Entry>, e: Entry)
    ensures SizeOf(entries + [e]) == SizeOf(entries) + EntrySize(|e.name|)
  {
    assert (entries + [e])[..|entries|] == entries;
  }

  const DIRECTORY_MAGIC: seq<byte> := [0x5a, 0x49, 0x44, 0x52]
  const DIRECTORY_WIDTHS: seq<nat> := [4, 2, 2, 8, 4, 4, 8, 28]
  const ENTRY_WIDTHS: seq<nat> := [2, 2, 2, 2, 8, 8]
  const MAXIMUM_ENTRIES := 170

  lemma DirectoryTotals()
    ensures Total(DIRECTORY_WIDTHS) == 60 && Total(ENTRY_WIDTHS) == 24
  {
    hide Total;
    TotalAppend([4, 2, 2], [8, 4, 4] + [8, 28]);
    TotalAppend([8, 4, 4], [8, 28]);
    assert DIRECTORY_WIDTHS == [4, 2, 2] + ([8, 4, 4] + [8, 28]);
    TotalAppend([2, 2, 2], [2, 8, 8]);
    assert ENTRY_WIDTHS == [2, 2, 2] + [2, 8, 8];
    ShortWidths();
  }

  lemma ShortWidths()
    ensures Total([4, 2, 2]) == 8 && Total([8, 4, 4]) == 16 && Total([8, 28]) == 36
    ensures Total([2, 2, 2]) == 6 && Total([2, 8, 8]) == 18
  {
    assert [4, 2, 2][1..] == [2, 2] && [8, 4, 4][1..] == [4, 4] && [8, 28][1..] == [28];
    assert [2, 2, 2][1..] == [2, 2] && [2, 8, 8][1..] == [8, 8];
  }

  /** The names a directory may hold. */
  predicate NameOk(name: seq<byte>) {
    && 1 <= |name| <= 255 && Valid(name) && name != [0x2e] && name != [0x2e, 0x2e]
    && forall i :: 0 <= i < |name| ==> name[i] != 0 && name[i] != 0x5c && name[i] != 0x2f
  }

  predicate EntryOk(e: Entry) {
    e.fileId != 0 && REGULAR <= e.kind <= DEVICE && NameOk(e.name)
  }

  function EntryParts(e: Entry): (p: seq<seq<byte>>)
    ensures Fits(ENTRY_WIDTHS, p)
  {
    [LE(2, EntrySize(|e.name|)), LE(2, |e.name|), LE(2, e.kind), LE(2, e.flags), LE(8, e.fileId), LE(8, e.index)]
  }

  function EntryBytes(e: Entry): (s: seq<byte>)
    ensures |s| == EntrySize(|e.name|)
  {
    DirectoryTotals();
    SplitConcat(ENTRY_WIDTHS, EntryParts(e), []);
    Concat(EntryParts(e)) + e.name + Zeros(EntrySize(|e.name|) - 24 - |e.name|)
  }

  function AllEntries(entries: seq<Entry>): (s: seq<byte>)
    ensures |s| == SizeOf(entries)
    decreases |entries|
  {
    if entries == [] then []
    else AllEntries(entries[..|entries| - 1]) + EntryBytes(entries[|entries| - 1])
  }

  datatype Summary = Summary(owner: u64, count: nat, used: nat, generation: u64)

  function DirectoryParts(h: Summary): (p: seq<seq<byte>>)
    ensures Fits(DIRECTORY_WIDTHS, p)
  {
    [DIRECTORY_MAGIC, LE(2, 1), LE(2, 64), LE(8, h.owner), LE(4, h.count), LE(4, h.used), LE(8, h.generation), Zeros(28)]
  }

  function SummaryBytes(h: Summary): (s: seq<byte>)
    ensures |s| == 60
  {
    DirectoryTotals();
    SplitConcat(DIRECTORY_WIDTHS, DirectoryParts(h), []);
    Concat(DirectoryParts(h))
  }

  /** A block with this header and these bytes after it, and the checksum of both. */
  function Sealed(h: Summary, body: seq<byte>): Block
    requires |body| == 4032
  {
    Framed(SummaryBytes(h), LE(4, SealOf(SummaryBytes(h), body)), body)
  }

  function Framed(head: seq<byte>, sum: seq<byte>, body: seq<byte>): Block
    requires |head| == 60 && |sum| == 4 && |body| == 4032
  {
    head + sum + body
  }

  function SealOf(head: seq<byte>, body: seq<byte>): u32 { Checksum(0, head + Zeros(4) + body) }

  /** The block that holds some entries. */
  function EncodeDirectory(owner: u64, generation: u64, entries: seq<Entry>): Block
    requires HEADER_SIZE + SizeOf(entries) <= BLOCK_SIZE
  {
    Sealed(Summary(owner, |entries|, HEADER_SIZE + SizeOf(entries), generation),
           AllEntries(entries) + Zeros(4032 - SizeOf(entries)))
  }

  function DirectoryHead(b: Block): (p: seq<seq<byte>>)
    ensures Fits(DIRECTORY_WIDTHS, p)
  {
    DirectoryTotals(); Split(DIRECTORY_WIDTHS, b[..60])
  }

  function EntryHead(s: seq<byte>): (p: seq<seq<byte>>)
    requires |s| >= 24
    ensures Fits(ENTRY_WIDTHS, p)
  {
    DirectoryTotals(); Split(ENTRY_WIDTHS, s)
  }

  /** The first entry, if there is a proper one, and the size it takes. */
  function DecodeEntry(s: seq<byte>): (r: Option<(Entry, nat)>)
    ensures r.Some? ==> 24 <= r.value.1 <= |s|
  {
    if |s| < 24 then None
    else
      var p := EntryHead(s);
      var size, length := U16(p[0]), U16(p[1]);
      if size < 24 || size % 8 != 0 || size > |s| || length == 0 || length > 255 || length > size - 24 then None
      else
        var e := Entry(U64(p[4]), U64(p[5]), U16(p[2]), U16(p[3]), s[24..24 + length]);
        if EntryOk(e) && AllZero(s[24 + length..size]) then Some((e, size)) else None
  }

  /** The entries from some point on: as many as the header says, with nothing after them. */
  function DecodeEntries(s: seq<byte>, n: nat): Option<seq<Entry>> {
    if n == 0 then if s == [] then Some([]) else None
    else match DecodeEntry(s)
      case None => None
      case Some((e, size)) =>
        match DecodeEntries(s[size..], n - 1)
        case None => None
        case Some(rest) => Some([e] + rest)
  }

  function OwnerOf(b: Block): u64 { U64(DirectoryHead(b)[3]) }

  function CountOf(b: Block): u32 { U32(DirectoryHead(b)[4]) }

  function UsedOf(b: Block): u32 { U32(DirectoryHead(b)[5]) }

  predicate HeadOk(b: Block) {
    var p := DirectoryHead(b);
    p[0] == DIRECTORY_MAGIC && U16(p[1]) == 1 && U16(p[2]) == 64 && HEADER_SIZE <= UsedOf(b) <= BLOCK_SIZE
  }

  predicate ChecksumOk(b: Block) {
    U32(b[60..64]) == Checksum(Checksum(Checksum(0, b[..60]), Zeros(4)), b[64..])
  }

  /** The validation of a block, with the entries it finds. */
  function Validated(b: Block): (r: Checked<seq<Entry>>)
    ensures r.Ok? ==> HEADER_SIZE <= UsedOf(b) <= BLOCK_SIZE
  {
    if !HeadOk(b) then Err(CorruptFilesystem)
    else if !ChecksumOk(b) then Err(ChecksumMismatch)
    else match DecodeEntries(b[64..UsedOf(b)], CountOf(b))
      case None => Err(CorruptFilesystem)
      case Some(entries) => Ok(entries)
  }

  /** How the inspector reads a block of a directory. */
  function DecodeDirectory(b: Block, owner: u64): Checked<seq<Entry>> {
    if owner == 0 then Err(InvalidArgument)
    else
      var r := Validated(b);
      if r.Err? then r
      else if OwnerOf(b) != owner || CountOf(b) > MAXIMUM_ENTRIES then Err(CorruptFilesystem)
      else r
  }

  lemma BitsConcat(a: seq<byte>, b: seq<byte>)
    ensures Bits(a + b) == Bits(a) + Bits(b)
  {
  }

  /** A checksum continued is the checksum of everything. */
  lemma ChecksumChains(seed: u32, a: seq<byte>, b: seq<byte>)
    ensures Checksum(Checksum(seed, a), b) == Checksum(seed, a + b)
  {
    hide Bits;
    BitsConcat(a, b);
    Crc.Chaining(Crc.CASTAGNOLI, seed as bv32, Bits(a), Bits(b));
  }

  lemma EntryPartsRead(e: Entry)
    requires |e.name| <= 255
    ensures var p := EntryParts(e);
            && U16(p[0]) == EntrySize(|e.name|) && U16(p[1]) == |e.name| && U16(p[2]) == e.kind && U16(p[3]) == e.flags
            && U64(p[4]) == e.fileId && U64(p[5]) == e.index
  {
    hide U16, U64, LE;
    RoundTrip16(EntrySize(|e.name|));
    RoundTrip16(|e.name|);
    RoundTrip16(e.kind);
    RoundTrip16(e.flags);
    RoundTrip64(e.fileId);
    RoundTrip64(e.index);
  }

  lemma CutFour(a: seq<byte>, b: seq<byte>, c: seq<byte>, d: seq<byte>)
    ensures var s := a + b + c + d;
            && s[|a|..|a| + |b|] == b && s[|a| + |b|..|a| + |b| + |c|] == c && s[|a| + |b| + |c|..] == d
            && s == a + (b + c + d)
  {
  }

  lemma EntrySlices(e: Entry, rest: seq<byte>)
    requires 1 <= |e.name| <= 255
    ensures var s, n := EntryBytes(e) + rest, EntrySize(|e.name|);
            && |s| >= n >= 24 + |e.name| && EntryHead(s) == EntryParts(e)
            && s[24..24 + |e.name|] == e.name && AllZero(s[24 + |e.name|..n]) && s[n..] == rest
  {
    SizeFacts(|e.name|);
    hide EntryParts, Split, Concat, Total, EntrySize;
    var tail := Zeros(EntrySize(|e.name|) - 24 - |e.name|);
    DirectoryTotals();
    SplitConcat(ENTRY_WIDTHS, EntryParts(e), e.name + tail + rest);
    CutFour(Concat(EntryParts(e)), e.name, tail, rest);
  }

  lemma SizeFacts(n: nat)
    requires 1 <= n <= 255
    ensures 24 + n <= EntrySize(n) < 0x1_0000 && EntrySize(n) % 8 == 0
  {
  }

  lemma EntryReads(e: Entry, rest: seq<byte>)
    requires EntryOk(e)
    ensures DecodeEntry(EntryBytes(e) + rest) == Some((e, EntrySize(|e.name|)))
    ensures (EntryBytes(e) + rest)[EntrySize(|e.name|)..] == rest
  {
    assert 1 <= |e.name| <= 255;
    SizeFacts(|e.name|);
    hide EntryOk, EntryParts, EntryBytes, EntryHead, U16, U64, AllZero, EntrySize;
    EntrySlices(e, rest);
    EntryPartsRead(e);
  }

  lemma Associate(a: seq<byte>, b: seq<byte>, c: seq<byte>)
    ensures a + b + c == a + (b + c)
  {
  }

  lemma Unit(a: seq<byte>)
    ensures [] + a == a + [] == a
  {
  }

  lemma AllEntriesLast(front: seq<Entry>, e: Entry)
    ensures AllEntries(front + [e]) == AllEntries(front) + EntryBytes(e)
  {
    hide EntryBytes;
    assert (front + [e])[..|front|] == front;
  }

  lemma {:induction false} AllEntriesFirst(e: Entry, rest: seq<Entry>)
    ensures AllEntries([e] + rest) == EntryBytes(e) + AllEntries(rest)
    decreases |rest|
  {
    hide EntryBytes, AllEntries, SizeOf, EntrySize;
    if rest == [] {
      NoEntryBytes();
      AllEntriesLast([], e);
      assert [e] + rest == [] + [e];
      Unit(EntryBytes(e));
    } else {
      var front, last := rest[..|rest| - 1], rest[|rest| - 1];
      AllEntriesFirst(e, front);
      AllEntriesLast([e] + front, last);
      AllEntriesLast(front, last);
      assert [e] + rest == [e] + front + [last] && rest == front + [last];
      Associate(EntryBytes(e), AllEntries(front), EntryBytes(last));
    }
  }

  lemma {:induction false} EntriesRead(entries: seq<Entry>)
    requires forall i :: 0 <= i < |entries| ==> EntryOk(entries[i])
    ensures DecodeEntries(AllEntries(entries), |entries|) == Some(entries)
    decreases |entries|
  {
    hide EntryOk, EntryBytes, DecodeEntry, AllEntries;
    if entries == [] {
      NoEntryBytes();
    } else {
      AllEntriesFirst(entries[0], entries[1..]);
      EntryReads(entries[0], AllEntries(entries[1..]));
      EntriesRead(entries[1..]);
      assert [entries[0]] + entries[1..] == entries;
    }
  }

  lemma NoEntryBytes()
    ensures AllEntries([]) == []
  {
  }

  lemma HeadIs(b: Block, h: Summary)
    requires DirectoryHead(b) == DirectoryParts(h) && h.count < 0x1_0000_0000 && HEADER_SIZE <= h.used <= BLOCK_SIZE
    ensures HeadOk(b) && OwnerOf(b) == h.owner && CountOf(b) == h.count && UsedOf(b) == h.used
  {
    hide U16, U32, U64, LE, DirectoryHead;
    RoundTrip16(1);
    RoundTrip16(64);
    RoundTrip64(h.owner);
    RoundTrip32(h.count);
    RoundTrip32(h.used);
  }

  /** A sealed block has its header and passes its own checksum. */
  lemma SealedReads(h: Summary, body: seq<byte>)
    requires |body| == 4032
    ensures var b := Sealed(h, body); DirectoryHead(b) == DirectoryParts(h) && b[64..] == body && ChecksumOk(b)
  {
    hide DirectoryParts, Split, Concat, Total, LE, U32, Checksum;
    var b, head := Sealed(h, body), SummaryBytes(h);
    var sum := Checksum(0, head + Zeros(4) + body);
    Cut(head, LE(4, sum), body);
    assert b[..60] == head && b[60..64] == LE(4, sum) && b[64..] == body;
    DirectoryTotals();
    SplitConcat(DIRECTORY_WIDTHS, DirectoryParts(h), []);
    Unit(Concat(DirectoryParts(h)));
    RoundTrip32(sum);
    ChecksumChains(0, head, Zeros(4));
    ChecksumChains(0, head + Zeros(4), body);
  }

  lemma {:induction false} EntriesTakeRoom(entries: seq<Entry>)
    requires forall i :: 0 <= i < |entries| ==> 1 <= |entries[i].name|
    ensures SizeOf(entries) >= 32 * |entries|
    decreases |entries|
  {
    if entries != [] {
      EntriesTakeRoom(entries[..|entries| - 1]);
    }
  }

  ghost predicate EntriesOk(entries: seq<Entry>) {
    HEADER_SIZE + SizeOf(entries) <= BLOCK_SIZE && forall i :: 0 <= i < |entries| ==> EntryOk(entries[i])
  }

  function SummaryOf(owner: u64, generation: u64, entries: seq<Entry>): Summary {
    Summary(owner, |entries|, HEADER_SIZE + SizeOf(entries), generation)
  }

  lemma EncodedReads(owner: u64, generation: u64, entries: seq<Entry>)
    requires HEADER_SIZE + SizeOf(entries) <= BLOCK_SIZE && |entries| <= 126
    ensures var b := EncodeDirectory(owner, generation, entries);
            && HeadOk(b) && ChecksumOk(b)
            && OwnerOf(b) == owner && CountOf(b) == |entries| && UsedOf(b) == HEADER_SIZE + SizeOf(entries)
            && b[64..HEADER_SIZE + SizeOf(entries)] == AllEntries(entries)
  {
    hide Sealed, ChecksumOk, HeadOk, OwnerOf, CountOf, UsedOf, AllEntries, DirectoryHead, DirectoryParts, SizeOf;
    var a, z := AllEntries(entries), Zeros(4032 - SizeOf(entries));
    var b := EncodeDirectory(owner, generation, entries);
    SealedReads(SummaryOf(owner, generation, entries), a + z);
    HeadIs(b, SummaryOf(owner, generation, entries));
    BodyIs(b, a, z);
  }

  lemma BodyIs(b: seq<byte>, a: seq<byte>, z: seq<byte>)
    requires |b| == 64 + |a| + |z| && b[64..] == a + z
    ensures b[64..64 + |a|] == a
  {
    assert b[64..64 + |a|] == b[64..][..|a|];
    assert (a + z)[..|a|] == a;
  }

  lemma EncodedValidates(owner: u64, generation: u64, entries: seq<Entry>)
    requires EntriesOk(entries)
    ensures |entries| <= 126 && Validated(EncodeDirectory(owner, generation, entries)) == Ok(entries)
  {
    FewEntries(entries);
    hide EncodeDirectory, ChecksumOk, HeadOk, OwnerOf, CountOf, UsedOf, DecodeEntries, AllEntries, EntryOk, SizeOf;
    EncodedReads(owner, generation, entries);
    EntriesRead(entries);
  }

  lemma FewEntries(entries: seq<Entry>)
    requires EntriesOk(entries)
    ensures |entries| <= 126
  {
    EntriesTakeRoom(entries);
  }

  /** Every block of proper entries decodes to them, under its owner's number and no other. */
  lemma DirectoryRoundTrip(owner: u64, generation: u64, entries: seq<Entry>, asked: u64)
    requires HEADER_SIZE + SizeOf(entries) <= BLOCK_SIZE && asked != 0
    requires forall i :: 0 <= i < |entries| ==> EntryOk(entries[i])
    ensures DecodeDirectory(EncodeDirectory(owner, generation, entries), asked)
         == if asked == owner then Ok(entries) else Err(CorruptFilesystem)
  {
    hide EncodeDirectory, Validated, EntryOk, OwnerOf, CountOf, UsedOf, HeadOk, ChecksumOk, SizeOf;
    EncodedValidates(owner, generation, entries);
    EncodedReads(owner, generation, entries);
  }

  // Building a block entry by entry.

  /** The bytes of a block with some of them replaced. */
  function Splice(b: Block, at: nat, bytes: seq<byte>): Block
    requires at + |bytes| <= 4096
  {
    b[..at] + bytes + b[at + |bytes|..]
  }

  function EmptyDirectory(owner: u64, generation: u64): Block { EncodeDirectory(owner, generation, []) }

  /** The block with its checksum made right again. */
  function Resealed(b: Block): Block {
    var open := Splice(b, 60, Zeros(4));
    Splice(open, 60, LE(4, Checksum(0, open)))
  }

  /** The stores that add an entry after the bytes in use. */
  function Stored(b: Block, e: Entry, count: nat, used: nat): Block
    requires used + EntrySize(|e.name|) <= BLOCK_SIZE
  {
    var placed := Splice(b, used, EntryBytes(e));
    Resealed(Splice(Splice(placed, 16, LE(4, count + 1)), 20, LE(4, used + EntrySize(|e.name|))))
  }

  /** How many entries have a name. */
  function Taken(entries: seq<Entry>, name: seq<byte>): nat {
    if entries == [] then 0 else (if entries[0].name == name then 1 else 0) + Taken(entries[1..], name)
  }

  lemma {:induction false} NotTaken(entries: seq<Entry>, name: seq<byte>)
    requires forall i :: 0 <= i < |entries| ==> entries[i].name != name
    ensures Taken(entries, name) == 0
  {
    if entries != [] {
      NotTaken(entries[1..], name);
    }
  }

  /** Why an entry is not to be added to a block that holds others. */
  function Objection(entries: seq<Entry>, e: Entry): Option<Failure> {
    if !Valid(e.name) then Some(InvalidEncoding)
    else if !NameOk(e.name) then Some(InvalidPath)
    else if Taken(entries, e.name) > 1 then Some(CorruptFilesystem)
    else if Taken(entries, e.name) == 1 then Some(AlreadyExists)
    else None
  }

  /** Adds an entry to a valid block, unless its name is bad or taken or there is no room. */
  function AddEntry(b: Block, e: Entry): Checked<Block> {
    if e.fileId == 0 || e.kind < REGULAR || e.kind > DEVICE || e.name == [] || |e.name| > 255 then Err(InvalidArgument)
    else match Validated(b)
      case Err(status) => Err(status)
      case Ok(entries) =>
        match Objection(entries, e)
        case Some(status) => Err(status)
        case None =>
          if EntrySize(|e.name|) > BLOCK_SIZE - UsedOf(b) then Err(BufferTooSmall)
          else Ok(Stored(b, e, CountOf(b), UsedOf(b)))
  }

  function AddAll(b: Block, entries: seq<Entry>): Checked<Block>
    decreases |entries|
  {
    if entries == [] then Ok(b)
    else match AddEntry(b, entries[0])
      case Err(status) => Err(status)
      case Ok(next) => AddAll(next, entries[1..])
  }

  lemma SpliceAt(p: seq<byte>, was: seq<byte>, q: seq<byte>, now: seq<byte>)
    requires |p| + |was| + |q| == 4096 && |was| == |now|
    ensures Splice(p + was + q, |p|, now) == p + now + q
  {
    Cut(p, was, q);
  }

  /** The header of a block: the part before the two counters, the counters, and the part after them. */
  function SummaryFront(owner: u64): (s: seq<byte>)
    ensures |s| == 16
  {
    DIRECTORY_MAGIC + LE(2, 1) + LE(2, 64) + LE(8, owner)
  }

  function SummaryBack(generation: u64): (s: seq<byte>)
    ensures |s| == 36
  {
    LE(8, generation) + Zeros(28)
  }

  lemma SummaryIs(h: Summary)
    ensures SummaryBytes(h) == SummaryFront(h.owner) + LE(4, h.count) + LE(4, h.used) + SummaryBack(h.generation)
  {
    hide LE, Zeros;
    var p := DirectoryParts(h);
    assert p[1..][1..][1..][1..][1..][1..][1..] == [p[7]];
    ConcatEight(p[0], p[1], p[2], p[3], p[4], p[5], p[6], p[7]);
  }

  lemma ConcatEight(
      a: seq<byte>, b: seq<byte>, c: seq<byte>, d: seq<byte>, e: seq<byte>, f: seq<byte>, g: seq<byte>, h: seq<byte>)
    ensures Concat([a, b, c, d, e, f, g, h]) == a + b + c + d + e + f + (g + h)
  {
    ConcatFour(e, f, g, h);
    var s := [a, b, c, d, e, f, g, h];
    assert s[1..] == [b, c, d, e, f, g, h] && s[1..][1..] == [c, d, e, f, g, h];
    assert s[1..][1..][1..] == [d, e, f, g, h] && s[1..][1..][1..][1..] == [e, f, g, h];
    assert Concat([d, e, f, g, h]) == d + Concat([e, f, g, h]);
    assert Concat([b, c, d, e, f, g, h]) == b + (c + Concat([d, e, f, g, h]));
  }

  lemma ConcatFour(e: seq<byte>, f: seq<byte>, g: seq<byte>, h: seq<byte>)
    ensures Concat([e, f, g, h]) == e + f + (g + h)
  {
    assert [h][1..] == [] && Concat([h]) == h + [] == h;
    assert [g, h][1..] == [h] && Concat([g, h]) == g + h;
    assert [f, g, h][1..] == [g, h] && Concat([f, g, h]) == f + (g + h);
    assert [e, f, g, h][1..] == [f, g, h];
  }

  lemma Regroup(a: seq<byte>, b: seq<byte>, c: seq<byte>, d: seq<byte>, e: seq<byte>)
    ensures a + b + (c + d + e) == a + b + c + (d + e) == a + b + c + d + e
    ensures a + (b + c + d + e) == a + b + c + d + e && a + b + c + (d + e) == a + (b + c) + (d + e)
  {
  }

  /** Resealing a block computes the checksum over its other bytes. */
  lemma ResealedIs(head: seq<byte>, sum: seq<byte>, body: seq<byte>)
    requires |head| == 60 && |sum| == 4 && |body| == 4032
    ensures Resealed(head + sum + body) == head + LE(4, SealOf(head, body)) + body
  {
    hide Splice, LE, Checksum;
    SpliceAt(head, sum, body, Zeros(4));
    SpliceAt(head, Zeros(4), body, LE(4, SealOf(head, body)));
  }

  /** Writing the two counters of a header. */
  lemma CountersWritten(f: seq<byte>, c: seq<byte>, u: seq<byte>, k: seq<byte>, rest: seq<byte>, c': seq<byte>, u': seq<byte>)
    requires |f| == 16 && |c| == |u| == |c'| == |u'| == 4 && |k| == 36 && |rest| == 4036
    ensures Splice(Splice(f + c + u + k + rest, 16, c'), 20, u') == f + c' + u' + k + rest
  {
    hide Splice;
    Regroup(f, c, u, k, rest);
    assert f + c + u + k + rest == f + c + (u + k + rest);
    SpliceAt(f, c, u + k + rest, c');
    assert f + c' + (u + k + rest) == f + c' + u + (k + rest);
    SpliceAt(f + c', u, k + rest, u');
    assert f + c' + u' + (k + rest) == f + c' + u' + k + rest;
  }

  lemma ZerosJoin(m: nat, n: nat)
    ensures Zeros(m + n) == Zeros(m) + Zeros(n)
  {
  }

  /** Writing an entry over the zeros after the bytes in use. */
  lemma EntryWritten(head: seq<byte>, x: seq<byte>, a: seq<byte>, was: seq<byte>, zeros: seq<byte>, now: seq<byte>)
    requires |head| + |x| + |a| + |was| + |zeros| == 4096 && |was| == |now|
    ensures Splice(head + x + (a + (was + zeros)), |head| + |x| + |a|, now) == head + (x + (a + now + zeros))
  {
    hide Splice;
    assert head + x + (a + (was + zeros)) == head + x + a + was + zeros;
    SpliceAt(head + x + a, was, zeros, now);
    assert head + x + a + now + zeros == head + (x + (a + now + zeros));
  }

  lemma StoresWritten(h: Summary, h': Summary, a: seq<byte>, left: nat, e: Entry)
    requires |a| + EntrySize(|e.name|) + left == 4032 && h'.owner == h.owner && h'.generation == h.generation
    requires h.used == 64 + |a| && h'.used == h.used + EntrySize(|e.name|) && h'.count == h.count + 1
    ensures Stored(Sealed(h, a + (Zeros(EntrySize(|e.name|)) + Zeros(left))), e, h.count, h.used)
         == Sealed(h', a + EntryBytes(e) + Zeros(left))
  {
    hide Splice, LE, EntrySize, EntryBytes, Resealed, SummaryBytes, SummaryFront, SummaryBack, Zeros, SealOf;
    var zeros, next := Zeros(EntrySize(|e.name|)), a + EntryBytes(e) + Zeros(left);
    var x := LE(4, SealOf(SummaryBytes(h), a + (zeros + Zeros(left))));
    EntryWritten(SummaryBytes(h), x, a, zeros, Zeros(left), EntryBytes(e));
    SummaryIs(h);
    SummaryIs(h');
    CountersWritten(SummaryFront(h.owner), LE(4, h.count), LE(4, h.used), SummaryBack(h.generation), x + next,
                    LE(4, h'.count), LE(4, h'.used));
    Associate(SummaryBytes(h'), x, next);
    ResealedIs(SummaryBytes(h'), x, next);
  }

  lemma StoredIs(owner: u64, generation: u64, entries: seq<Entry>, e: Entry)
    requires HEADER_SIZE + SizeOf(entries) + EntrySize(|e.name|) <= BLOCK_SIZE
    ensures HEADER_SIZE + SizeOf(entries + [e]) <= BLOCK_SIZE
    ensures Stored(EncodeDirectory(owner, generation, entries), e, |entries|, HEADER_SIZE + SizeOf(entries))
         == EncodeDirectory(owner, generation, entries + [e])
  {
    OneMore(entries, e);
    AllEntriesLast(entries, e);
    hide SizeOf, EntrySize, EntryBytes, AllEntries, Stored, Sealed, Zeros;
    var left := 4032 - SizeOf(entries) - EntrySize(|e.name|);
    ZerosJoin(EntrySize(|e.name|), left);
    StoresWritten(SummaryOf(owner, generation, entries), SummaryOf(owner, generation, entries + [e]), AllEntries(entries), left, e);
  }

  /** A proper entry with a new name is stored exactly when there is room for it. */
  lemma Admitted(b: Block, entries: seq<Entry>, e: Entry)
    requires Validated(b) == Ok(entries) && EntryOk(e) && forall i :: 0 <= i < |entries| ==> entries[i].name != e.name
    ensures AddEntry(b, e) == if UsedOf(b) + EntrySize(|e.name|) <= BLOCK_SIZE then Ok(Stored(b, e, CountOf(b), UsedOf(b)))
                              else Err(BufferTooSmall)
  {
    hide Validated, CountOf, UsedOf, Stored, EntrySize, Taken, Valid;
    NotTaken(entries, e.name);
  }

  /** Adding a proper entry with a new name to a block with room gives the block of all the entries. */
  lemma AddsEntry(owner: u64, generation: u64, entries: seq<Entry>, e: Entry)
    requires EntriesOk(entries) && EntryOk(e) && forall i :: 0 <= i < |entries| ==> entries[i].name != e.name
    requires HEADER_SIZE + SizeOf(entries + [e]) <= BLOCK_SIZE
    ensures AddEntry(EncodeDirectory(owner, generation, entries), e) == Ok(EncodeDirectory(owner, generation, entries + [e]))
  {
    OneMore(entries, e);
    hide EncodeDirectory, Validated, OwnerOf, CountOf, UsedOf, HeadOk, ChecksumOk, SizeOf, Stored, EntrySize, AddEntry, EntryOk;
    EncodedValidates(owner, generation, entries);
    EncodedReads(owner, generation, entries);
    Admitted(EncodeDirectory(owner, generation, entries), entries, e);
    StoredIs(owner, generation, entries, e);
  }

  /** And to a block without room, nothing is added. */
  lemma NoRoomForEntry(owner: u64, generation: u64, entries: seq<Entry>, e: Entry)
    requires EntriesOk(entries) && EntryOk(e) && forall i :: 0 <= i < |entries| ==> entries[i].name != e.name
    requires HEADER_SIZE + SizeOf(entries + [e]) > BLOCK_SIZE
    ensures AddEntry(EncodeDirectory(owner, generation, entries), e) == Err(BufferTooSmall)
  {
    OneMore(entries, e);
    hide EncodeDirectory, Validated, OwnerOf, CountOf, UsedOf, HeadOk, ChecksumOk, SizeOf, Stored, EntrySize, AddEntry, EntryOk;
    EncodedValidates(owner, generation, entries);
    EncodedReads(owner, generation, entries);
    Admitted(EncodeDirectory(owner, generation, entries), entries, e);
  }

  ghost predicate NamesDiffer(entries: seq<Entry>) {
    forall i, j :: 0 <= i < j < |entries| ==> entries[i].name != entries[j].name
  }

  /** A block built by adding proper entries one by one is the block of all of them. */
  lemma {:induction false} BuiltBlock(owner: u64, generation: u64, done: seq<Entry>, entries: seq<Entry>)
    requires EntriesOk(done + entries) && NamesDiffer(done + entries)
    ensures HEADER_SIZE + SizeOf(done) <= BLOCK_SIZE
    ensures AddAll(EncodeDirectory(owner, generation, done), entries) == Ok(EncodeDirectory(owner, generation, done + entries))
    decreases |entries|
  {
    hide EncodeDirectory, AddEntry, SizeOf, EntryOk;
    SizeGrows(done, entries);
    if entries == [] {
      assert done + entries == done;
    } else {
      var e := entries[0];
      assert done + [e] + entries[1..] == done + entries;
      SizeGrows(done + [e], entries[1..]);
      assert forall i :: 0 <= i < |done| ==> (done + entries)[i] == done[i];
      assert (done + entries)[|done|] == e;
      AddsEntry(owner, generation, done, e);
      BuiltBlock(owner, generation, done + [e], entries[1..]);
    }
  }

  lemma {:induction false} SizeGrows(a: seq<Entry>, b: seq<Entry>)
    ensures SizeOf(a) <= SizeOf(a + b)
    decreases |b|
  {
    if b == [] {
      assert a + b == a;
    } else {
      SizeGrows(a, b[..|b| - 1]);
      assert a + b == a + b[..|b| - 1] + [b[|b| - 1]];
      OneMore(a + b[..|b| - 1], b[|b| - 1]);
    }
  }
}
