/**
 * Where on disk each field is (kernel/fs/zifs/zifs.c and kernel/fs/zifs/journal.c): what a decoder
 * returns are the numbers at the offsets that the format gives, lowest byte first.
 */
module ZifsOffsets {
  import opened Status
  import opened Unicode
  import opened Layout
  import opened ZifsFormat
  import opened ZifsHome
  import opened ZifsCodecs

  function Word(b: seq<byte>, at: nat): u16
    requires at + 2 <= |b|
  {
    U16(b[at..at + 2])
  }

  function Double(b: seq<byte>, at: nat): u32
    requires at + 4 <= |b|
  {
    U32(b[at..at + 4])
  }

  function Quad(b: seq<byte>, at: nat): u64
    requires at + 8 <= |b|
  {
    U64(b[at..at + 8])
  }

  /** A field of a part of a block that starts at some place. */
  lemma FieldIn(widths: seq<nat>, b: seq<byte>, lo: nat, hi: nat, i: nat, at: nat)
    requires lo <= hi <= |b| && Total(widths) <= hi - lo && i < |widths| && Total(widths[..i]) == at
    ensures lo + at + widths[i] <= |b| && Split(widths, b[lo..hi])[i] == b[lo + at..lo + at + widths[i]]
  {
    hide Split, Total;
    FieldAt(widths, b[lo..hi], i);
    SliceOfSlice(b, lo, hi, at, at + widths[i]);
  }

  lemma {:induction false} EightsBefore(n: nat, i: nat)
    requires i <= n
    ensures Total(seq(n, _ => 8 as nat)[..i]) == 8 * i
  {
    assert seq(n, _ => 8 as nat)[..i] == seq(i, _ => 8 as nat);
    TotalEights(i);
  }

  lemma GeometryAt(b: Block, i: nat)
    requires i < 14
    ensures U64(GeometryOf(b)[i]) == Quad(b, 56 + 8 * i)
  {
    hide Split, Total, U64;
    GeometryTotal();
    assert GEOMETRY_WIDTHS == seq(14, _ => 8 as nat);
    EightsBefore(14, i);
    FieldIn(GEOMETRY_WIDTHS, b, 56, 168, i, 8 * i);
  }

  lemma HeadOffsets()
    ensures var w := HEAD_WIDTHS;
            && Total(w[..0]) == 0 && Total(w[..1]) == 8 && Total(w[..2]) == 10 && Total(w[..3]) == 12 && Total(w[..4]) == 14
            && Total(w[..5]) == 15 && Total(w[..6]) == 16 && Total(w[..7]) == 24 && Total(w[..8]) == 32 && Total(w[..9]) == 40
  {
    var w := HEAD_WIDTHS;
    assert Total(w[..0]) == 0;
    hide Total;
    TotalNext(w, 0);
    TotalNext(w, 1);
    TotalNext(w, 2);
    TotalNext(w, 3);
    TotalNext(w, 4);
    TotalNext(w, 5);
    TotalNext(w, 6);
    TotalNext(w, 7);
    TotalNext(w, 8);
  }

  lemma TailOffsets()
    ensures var w := TAIL_WIDTHS;
            Total(w[..0]) == 0 && Total(w[..2]) == 4 && Total(w[..3]) == 68 && Total(w[..4]) == 76
  {
    var w := TAIL_WIDTHS;
    assert Total(w[..0]) == 0;
    hide Total;
    TotalNext(w, 0);
    TotalNext(w, 1);
    TotalNext(w, 2);
    TotalNext(w, 3);
  }

  lemma HeadAt(b: Block)
    ensures var h := HeadOf(b);
            && h[0] == b[0..8] && U16(h[1]) == Word(b, 8) && U16(h[2]) == Word(b, 10) && U16(h[3]) == Word(b, 12)
            && h[4][0] == b[14] && h[5][0] == b[15]
            && U64(h[6]) == Quad(b, 16) && U64(h[7]) == Quad(b, 24) && U64(h[8]) == Quad(b, 32) && h[9] == b[40..56]
  {
    hide Split, Total, U64, U16;
    HeadTotal();
    HeadOffsets();
    assert b[..56] == b[0..56];
    FieldIn(HEAD_WIDTHS, b, 0, 56, 0, 0);
    FieldIn(HEAD_WIDTHS, b, 0, 56, 1, 8);
    FieldIn(HEAD_WIDTHS, b, 0, 56, 2, 10);
    FieldIn(HEAD_WIDTHS, b, 0, 56, 3, 12);
    FieldIn(HEAD_WIDTHS, b, 0, 56, 4, 14);
    FieldIn(HEAD_WIDTHS, b, 0, 56, 5, 15);
    FieldIn(HEAD_WIDTHS, b, 0, 56, 6, 16);
    FieldIn(HEAD_WIDTHS, b, 0, 56, 7, 24);
    FieldIn(HEAD_WIDTHS, b, 0, 56, 8, 32);
    FieldIn(HEAD_WIDTHS, b, 0, 56, 9, 40);
  }

  lemma TailAt(b: Block)
    ensures var t := TailOf(b);
            U16(t[0]) == Word(b, 168) && t[2] == b[172..236] && U64(t[3]) == Quad(b, 236) && U32(t[4]) == Double(b, 244)
  {
    hide Split, Total, U64, U16, U32;
    TailTotal();
    TailOffsets();
    FieldIn(TAIL_WIDTHS, b, 168, 252, 0, 0);
    FieldIn(TAIL_WIDTHS, b, 168, 252, 2, 4);
    FieldIn(TAIL_WIDTHS, b, 168, 252, 3, 68);
    FieldIn(TAIL_WIDTHS, b, 168, 252, 4, 76);
  }

  /** A block that decodes as a superblock has its magic, its size and its checksum in place. */
  lemma SuperblockMarked(b: Block)
    requires DecodeSuperblock(b).Ok?
    ensures b[0..8] == SUPER_MAGIC && Word(b, 12) == 256 && Double(b, 252) == Checksum(0, b[..252])
  {
    hide HeadOf, TailOf, GeometryOf, ParseSuperblock, Accepted, Checksum, U16, U32;
    HeadAt(b);
  }

  /** And every field of the superblock is read from its own place. */
  lemma SuperblockAt(b: Block)
    requires DecodeSuperblock(b).Ok?
    ensures var s := DecodeSuperblock(b).value;
            && s.id.major == Word(b, 8) && s.id.minor == Word(b, 10) && s.id.shift == b[14] && s.id.checksumType == b[15]
            && s.id.compatible == Quad(b, 16) && s.id.readOnlyCompatible == Quad(b, 24) && s.id.incompatible == Quad(b, 32)
            && s.id.uuid == b[40..56] && s.generation == Quad(b, 56) && s.id.total == Quad(b, 64) && s.id.root == Quad(b, 72)
            && s.id.recordStart == Quad(b, 80) && s.id.recordBlocks == Quad(b, 88)
            && s.id.directoryStart == Quad(b, 96) && s.id.directoryBlocks == Quad(b, 104)
            && s.id.bitmapStart == Quad(b, 112) && s.id.bitmapBlocks == Quad(b, 120)
            && s.id.journalStart == Quad(b, 128) && s.id.journalBlocks == Quad(b, 136)
            && s.id.securityStart == Quad(b, 144) && s.id.securityBlocks == Quad(b, 152) && s.id.backup == Quad(b, 160)
            && Word(b, 168) <= 64 && s.id.name == b[172..172 + Word(b, 168)]
            && s.lastCommitted == Quad(b, 236) && s.state == Double(b, 244)
  {
    hide HeadOf, TailOf, GeometryOf, Checksum, U16, U32, U64, FormatKnown, StateValid, RangesValid, Valid, Quad, Word, Double;
    HeadAt(b);
    TailAt(b);
    GeometriesAt(b);
    assert b[172..236][..Word(b, 168)] == b[172..172 + Word(b, 168)];
  }

  lemma GeometriesAt(b: Block)
    ensures var g := GeometryOf(b);
            && U64(g[0]) == Quad(b, 56) && U64(g[1]) == Quad(b, 64) && U64(g[2]) == Quad(b, 72) && U64(g[3]) == Quad(b, 80)
            && U64(g[4]) == Quad(b, 88) && U64(g[5]) == Quad(b, 96) && U64(g[6]) == Quad(b, 104) && U64(g[7]) == Quad(b, 112)
            && U64(g[8]) == Quad(b, 120) && U64(g[9]) == Quad(b, 128) && U64(g[10]) == Quad(b, 136)
            && U64(g[11]) == Quad(b, 144) && U64(g[12]) == Quad(b, 152) && U64(g[13]) == Quad(b, 160)
  {
    hide GeometryOf, U64, Quad;
    forall i | 0 <= i < 14
      ensures U64(GeometryOf(b)[i]) == Quad(b, 56 + 8 * i)
    {
      GeometryAt(b, i);
    }
  }

  lemma JournalOffsets()
    ensures var w := JOURNAL_WIDTHS;
            && Total(w[..0]) == 0 && Total(w[..1]) == 4 && Total(w[..2]) == 6 && Total(w[..3]) == 8 && Total(w[..4]) == 16
            && Total(w[..5]) == 24 && Total(w[..6]) == 28 && Total(w[..7]) == 32 && Total(w[..8]) == 40 && Total(w[..9]) == 48
            && Total(w[..10]) == 56 && Total(w[..11]) == 64 && Total(w[..12]) == 72 && Total(w[..13]) == 80
  {
    var w := JOURNAL_WIDTHS;
    assert Total(w[..0]) == 0;
    hide Total;
    TotalNext(w, 0);
    TotalNext(w, 1);
    TotalNext(w, 2);
    TotalNext(w, 3);
    TotalNext(w, 4);
    TotalNext(w, 5);
    TotalNext(w, 6);
    TotalNext(w, 7);
    TotalNext(w, 8);
    TotalNext(w, 9);
    TotalNext(w, 10);
    TotalNext(w, 11);
    TotalNext(w, 12);
  }

  /** The same for a journal header. */
  lemma HeaderFieldsAt(b: Block)
    requires DecodeHeader(b).Ok?
    ensures var h := DecodeHeader(b).value;
            && b[0..4] == JOURNAL_MAGIC && Word(b, 4) == 1 && Word(b, 6) == 128 && Double(b, 24) == 2
            && Double(b, 124) == Checksum(0, b[..124])
            && h.sequence == Quad(b, 8) && h.volumeGeneration == Quad(b, 16) && h.flags == Double(b, 28)
            && h.capacity == Quad(b, 32) && h.head == Quad(b, 40) && h.tail == Quad(b, 48) && h.nextSequence == Quad(b, 56)
            && h.nextTransaction == Quad(b, 64) && h.lastCommitted == Quad(b, 72) && h.lastCheckpoint == Quad(b, 80)
  {
    hide Split, Total, U64, U16, U32, Checksum, HeaderValid;
    JournalTotal();
    JournalOffsets();
    assert b[..124] == b[0..124];
    FieldIn(JOURNAL_WIDTHS, b, 0, 124, 0, 0);
    FieldIn(JOURNAL_WIDTHS, b, 0, 124, 1, 4);
    FieldIn(JOURNAL_WIDTHS, b, 0, 124, 2, 6);
    FieldIn(JOURNAL_WIDTHS, b, 0, 124, 3, 8);
    FieldIn(JOURNAL_WIDTHS, b, 0, 124, 4, 16);
    FieldIn(JOURNAL_WIDTHS, b, 0, 124, 5, 24);
    FieldIn(JOURNAL_WIDTHS, b, 0, 124, 6, 28);
    FieldIn(JOURNAL_WIDTHS, b, 0, 124, 7, 32);
    FieldIn(JOURNAL_WIDTHS, b, 0, 124, 8, 40);
    FieldIn(JOURNAL_WIDTHS, b, 0, 124, 9, 48);
    FieldIn(JOURNAL_WIDTHS, b, 0, 124, 10, 56);
    FieldIn(JOURNAL_WIDTHS, b, 0, 124, 11, 64);
    FieldIn(JOURNAL_WIDTHS, b, 0, 124, 12, 72);
    FieldIn(JOURNAL_WIDTHS, b, 0, 124, 13, 80);
  }

  lemma RecordOffsets()
    ensures var w := RECORD_WIDTHS;
            && Total(w[..0]) == 0 && Total(w[..1]) == 4 && Total(w[..2]) == 6 && Total(w[..3]) == 8 && Total(w[..4]) == 16
            && Total(w[..5]) == 24 && Total(w[..6]) == 32 && Total(w[..7]) == 40 && Total(w[..8]) == 48 && Total(w[..9]) == 56
  {
    var w := RECORD_WIDTHS;
    assert Total(w[..0]) == 0;
    hide Total;
    TotalNext(w, 0);
    TotalNext(w, 1);
    TotalNext(w, 2);
    TotalNext(w, 3);
    TotalNext(w, 4);
    TotalNext(w, 5);
    TotalNext(w, 6);
    TotalNext(w, 7);
    TotalNext(w, 8);
  }

  lemma FirstPartsAt(b: RecordBytes)
    ensures var p := FirstParts(b);
            && p[0] == b[0..4] && U16(p[1]) == Word(b, 4) && U16(p[2]) == Word(b, 6) && U64(p[3]) == Quad(b, 8)
            && U64(p[4]) == Quad(b, 16) && U64(p[6]) == Quad(b, 32) && U64(p[7]) == Quad(b, 40) && U64(p[8]) == Quad(b, 48)
            && U32(p[9]) == Double(b, 56)
  {
    hide Split, Total, U64, U16, U32;
    RecordTotals();
    RecordOffsets();
    assert b[..64] == b[0..64];
    FieldIn(RECORD_WIDTHS, b, 0, 64, 0, 0);
    FieldIn(RECORD_WIDTHS, b, 0, 64, 1, 4);
    FieldIn(RECORD_WIDTHS, b, 0, 64, 2, 6);
    FieldIn(RECORD_WIDTHS, b, 0, 64, 3, 8);
    FieldIn(RECORD_WIDTHS, b, 0, 64, 4, 16);
    FieldIn(RECORD_WIDTHS, b, 0, 64, 6, 32);
    FieldIn(RECORD_WIDTHS, b, 0, 64, 7, 40);
    FieldIn(RECORD_WIDTHS, b, 0, 64, 8, 48);
    FieldIn(RECORD_WIDTHS, b, 0, 64, 9, 56);
  }

  lemma ExtentFieldsAt(b: RecordBytes, i: nat)
    requires i < 4
    ensures ParseExtent(ExtentAt(b, i)) == Extent(Quad(b, 64 + 32 * i), Quad(b, 72 + 32 * i), Quad(b, 80 + 32 * i))
  {
    hide Split, Total, U64;
    RecordTotals();
    assert EXTENT_WIDTHS == seq(4, _ => 8 as nat);
    EightsBefore(4, 0);
    EightsBefore(4, 1);
    EightsBefore(4, 2);
    FieldIn(EXTENT_WIDTHS, b, 64 + 32 * i, 96 + 32 * i, 0, 0);
    FieldIn(EXTENT_WIDTHS, b, 64 + 32 * i, 96 + 32 * i, 1, 8);
    FieldIn(EXTENT_WIDTHS, b, 64 + 32 * i, 96 + 32 * i, 2, 16);
  }

  lemma LastPartAt(b: RecordBytes)
    ensures U64(LastParts(b)[4]) == Quad(b, 224)
  {
    hide Split, Total, U64;
    RecordTotals();
    assert TIME_WIDTHS[..4] == seq(4, _ => 8 as nat);
    TotalEights(4);
    FieldIn(TIME_WIDTHS, b, 192, 252, 4, 32);
  }

  /** And for a file record, with its extents from byte 64 on and 32 bytes each. */
  lemma RecordAt(b: RecordBytes)
    requires DecodeRecord(b).Ok?
    ensures var r := DecodeRecord(b).value;
            && b[0..4] == RECORD_MAGIC && Word(b, 4) == 1 && Double(b, 252) == Checksum(0, b[..252])
            && r.kind == Word(b, 6) && r.fileId == Quad(b, 8) && r.parentId == Quad(b, 16) && r.fileSize == Quad(b, 32)
            && r.allocatedSize == Quad(b, 40) && r.securityId == Quad(b, 48) && r.directoryBlock == Quad(b, 224)
            && |r.extents| == Double(b, 56) <= 4
            && forall i :: 0 <= i < |r.extents| ==>
                 r.extents[i] == Extent(Quad(b, 64 + 32 * i), Quad(b, 72 + 32 * i), Quad(b, 80 + 32 * i))
  {
    hide FirstParts, LastParts, ExtentAt, ParseExtent, U16, U32, U64, Checksum, ExtentsTidy, Shaped;
    FirstPartsAt(b);
    LastPartAt(b);
    var n := Double(b, 56);
    forall i | 0 <= i < n && n <= 4
      ensures ParseExtent(ExtentAt(b, i)) == Extent(Quad(b, 64 + 32 * i), Quad(b, 72 + 32 * i), Quad(b, 80 + 32 * i))
    {
      ExtentFieldsAt(b, i);
    }
  }

  lemma DirectoryOffsets()
    ensures var w := DIRECTORY_WIDTHS;
            && Total(w[..0]) == 0 && Total(w[..1]) == 4 && Total(w[..2]) == 6 && Total(w[..3]) == 8 && Total(w[..4]) == 16
            && Total(w[..5]) == 20
    ensures var w := ENTRY_WIDTHS;
            && Total(w[..0]) == 0 && Total(w[..1]) == 2 && Total(w[..2]) == 4 && Total(w[..3]) == 6 && Total(w[..4]) == 8
            && Total(w[..5]) == 16
  {
    var w, e := DIRECTORY_WIDTHS, ENTRY_WIDTHS;
    assert Total(w[..0]) == Total(e[..0]) == 0;
    hide Total;
    TotalNext(w, 0);
    TotalNext(w, 1);
    TotalNext(w, 2);
    TotalNext(w, 3);
    TotalNext(w, 4);
    TotalNext(e, 0);
    TotalNext(e, 1);
    TotalNext(e, 2);
    TotalNext(e, 3);
    TotalNext(e, 4);
  }

  /** A directory block names its owner and says how many entries it has and how many bytes they take. */
  lemma DirectoryAt(b: Block)
    requires Validated(b).Ok?
    ensures b[0..4] == DIRECTORY_MAGIC && Word(b, 4) == 1 && Word(b, 6) == 64 && OwnerOf(b) == Quad(b, 8)
    ensures CountOf(b) == Double(b, 16) && UsedOf(b) == Double(b, 20)
  {
    hide Split, Total, U64, U16, U32, ChecksumOk, DecodeEntries;
    DirectoryTotals();
    DirectoryOffsets();
    assert b[..60] == b[0..60];
    FieldIn(DIRECTORY_WIDTHS, b, 0, 60, 0, 0);
    FieldIn(DIRECTORY_WIDTHS, b, 0, 60, 1, 4);
    FieldIn(DIRECTORY_WIDTHS, b, 0, 60, 2, 6);
    FieldIn(DIRECTORY_WIDTHS, b, 0, 60, 3, 8);
    FieldIn(DIRECTORY_WIDTHS, b, 0, 60, 4, 16);
    FieldIn(DIRECTORY_WIDTHS, b, 0, 60, 5, 20);
  }

  /** An entry is its size, the length of its name, and its fields, with the name after them. */
  lemma EntryAt(s: seq<byte>)
    requires DecodeEntry(s).Some?
    ensures |s| >= 24
    ensures var (e, size) := DecodeEntry(s).value;
            && size == Word(s, 0) && |e.name| == Word(s, 2) && e.kind == Word(s, 4) && e.flags == Word(s, 6)
            && e.fileId == Quad(s, 8) && e.index == Quad(s, 16) && 24 + |e.name| <= |s| && e.name == s[24..24 + |e.name|]
  {
    hide Split, Total, U64, U16, EntryOk, AllZero;
    DirectoryTotals();
    DirectoryOffsets();
    assert s[0..|s|] == s;
    FieldIn(ENTRY_WIDTHS, s, 0, |s|, 0, 0);
    FieldIn(ENTRY_WIDTHS, s, 0, |s|, 1, 2);
    FieldIn(ENTRY_WIDTHS, s, 0, |s|, 2, 4);
    FieldIn(ENTRY_WIDTHS, s, 0, |s|, 3, 6);
    FieldIn(ENTRY_WIDTHS, s, 0, |s|, 4, 8);
    FieldIn(ENTRY_WIDTHS, s, 0, |s|, 5, 16);
  }
}
