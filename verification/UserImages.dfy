/**
 * Recursive loading of a program and the libraries it imports (kernel/pe/user_image.c).
 *
 * What the image files contain is given by the readers below, arbitrary functions of a file and of
 * the base it is loaded at; everything the loader decides is modelled.
 */
module UserImages {
  import opened Status
  import opened Unicode
  import opened Layout
  import opened AddressSpaces

  const CAPACITY := 8
  const NAME_LIMIT := 63

  type File = seq<byte>
  type Name = seq<byte>

  datatype Section = Section(
    address: u32, virtualSize: u32, rawOffset: u32, rawSize: u32, write: bool, execute: bool)

  datatype PeImage = PeImage(
    base: u64, size: u32, headerSize: u32, sections: seq<Section>, native: bool, library: bool, exports: bool,
    directory: u32, directorySize: u32, entry: u32)

  /** The image has a relocation directory. */
  predicate Relocatable(image: PeImage) { image.directory != 0 && image.directorySize != 0 }

  /** A symbol wanted from another image, and where in the importing one its address goes. */
  datatype Import = Import(from: Name, symbol: seq<byte>, slot: u32)

  /** The imports in table order, and how the walk over the table ends after them. */
  datatype ImportTable = ImportTable(imports: seq<Import>, end: Status)

  datatype Contents = Contents(
    parse: File -> Checked<PeImage>,
    imports: (File, nat) -> ImportTable,
    /* the relative address of an exported symbol, as the tables say it */
    exported: (File, nat, Import) -> Checked<nat>)

  /** The readers of files never answer that memory is corrupt, which only unloading does. */
  ghost predicate Honest(c: Contents) {
    && (forall file :: c.parse(file).Err? ==> c.parse(file).status != MemoryCorruption)
    && (forall file, base :: c.imports(file, base).end != MemoryCorruption)
    && (forall file, base, i :: c.exported(file, base, i).Err? ==> c.exported(file, base, i).status != MemoryCorruption)
  }

  // The contract of an image.

  function MappedSize(s: Section): nat { if s.virtualSize > s.rawSize then s.virtualSize else s.rawSize }

  function PageUp(n: nat): nat { (n + PAGE - 1) / PAGE * PAGE }

  function SectionEnd(s: Section): nat { PageUp(s.address + MappedSize(s)) }

  predicate SectionsValid(image: PeImage) {
    && (forall i :: 0 <= i < |image.sections| ==>
          var s := image.sections[i];
          MappedSize(s) != 0 && s.address % PAGE == 0 && s.address >= PageUp(image.headerSize) && SectionEnd(s) <= image.size)
    && (forall i, j :: 0 <= j < i < |image.sections| ==>
          var s, t := image.sections[i], image.sections[j];
          !(s.address < SectionEnd(t) && t.address < SectionEnd(s)))
  }

  predicate ContractValid(image: PeImage, isMain: bool) {
    && image.native
    && image.size != 0 && image.size % PAGE == 0 && image.base % PAGE == 0 && RangeValid(image.base, image.size)
    && isMain != image.library && (!isMain ==> image.exports)
    && 0 < PageUp(image.headerSize) <= image.size
    && SectionsValid(image)
  }

  /** Some of the bytes from one place to another are on a page. */
  predicate OnPage(start: nat, end: nat, page: nat) { page * PAGE < end && start < (page + 1) * PAGE }

  /** The page of an image holds some of its headers, or some of a section. */
  predicate HeaderPage(image: PeImage, page: nat) { OnPage(0, image.headerSize, page) }

  predicate SectionPage(s: Section, page: nat) { OnPage(s.address, s.address + MappedSize(s), page) }

  /** No page belongs to two parts of the image. */
  ghost predicate PagesApart(image: PeImage) {
    && (forall i, page: nat :: 0 <= i < |image.sections| && HeaderPage(image, page) ==> !SectionPage(image.sections[i], page))
    && (forall i, j, page: nat :: 0 <= j < i < |image.sections| && SectionPage(image.sections[j], page) ==>
          !SectionPage(image.sections[i], page))
  }

  /**
   * An image for programs: whole pages in the user's range, with headers and sections that start pages
   * of their own inside it. A program is not a library, and a library exports something.
   */
  ghost predicate ProperImage(image: PeImage, isMain: bool) {
    && image.native && (isMain <==> !image.library) && (image.library ==> image.exports)
    && 0 < image.headerSize <= image.size && image.size % PAGE == 0
    && image.base % PAGE == 0 && USER_MIN <= image.base && image.base + image.size <= USER_MAX
    && (forall i :: 0 <= i < |image.sections| ==> SectionFits(image, image.sections[i]))
    && PagesApart(image)
  }

  ghost predicate SectionFits(image: PeImage, s: Section) {
    MappedSize(s) > 0 && s.address % PAGE == 0 && s.address + MappedSize(s) <= image.size
  }

  lemma UpWithin(n: nat, size: nat)
    requires size % PAGE == 0
    ensures n <= PageUp(n) && (PageUp(n) <= size <==> n <= size) && (PageUp(n) == 0 <==> n == 0) && PageUp(n) % PAGE == 0
  {
  }

  /** Two runs of bytes that start pages, extended to whole pages, overlap exactly when they share a page. */
  lemma SharedPage(a: nat, aEnd: nat, b: nat, bEnd: nat)
    requires a % PAGE == 0 && b % PAGE == 0 && a < aEnd && b < bEnd
    ensures a < PageUp(bEnd) && b < PageUp(aEnd) <==> exists page: nat :: OnPage(a, aEnd, page) && OnPage(b, bEnd, page)
  {
    UpWithin(aEnd, PageUp(aEnd));
    UpWithin(bEnd, PageUp(bEnd));
    if a < PageUp(bEnd) && b < PageUp(aEnd) {
      var page := (if a < b then b else a) / PAGE;
      assert OnPage(a, aEnd, page) && OnPage(b, bEnd, page);
    }
    if page: nat :| OnPage(a, aEnd, page) && OnPage(b, bEnd, page) {
      assert a <= page * PAGE && b <= page * PAGE;
    }
  }

  ghost predicate SectionPasses(image: PeImage, s: Section) {
    MappedSize(s) != 0 && s.address % PAGE == 0 && s.address >= PageUp(image.headerSize) && SectionEnd(s) <= image.size
  }

  lemma SectionAlone(image: PeImage, s: Section)
    requires image.size % PAGE == 0 && image.headerSize > 0
    ensures SectionPasses(image, s) <==> SectionFits(image, s) && forall page: nat :: HeaderPage(image, page) ==> !SectionPage(s, page)
  {
    hide PageUp, OnPage, MappedSize;
    UpWithin(s.address + MappedSize(s), image.size);
    if MappedSize(s) != 0 && s.address % PAGE == 0 {
      SharedPage(0, image.headerSize, s.address, s.address + MappedSize(s));
      UpPositive(s.address + MappedSize(s));
      if s.address < PageUp(image.headerSize) {
        var page: nat :| OnPage(0, image.headerSize, page) && OnPage(s.address, s.address + MappedSize(s), page);
        assert HeaderPage(image, page) && SectionPage(s, page);
      }
    }
  }

  lemma UpPositive(n: nat)
    requires n > 0
    ensures PageUp(n) > 0
  {
  }

  lemma SectionsAlone(s: Section, t: Section)
    requires MappedSize(s) > 0 && s.address % PAGE == 0 && MappedSize(t) > 0 && t.address % PAGE == 0
    ensures !(s.address < SectionEnd(t) && t.address < SectionEnd(s)) <==>
      forall page: nat :: SectionPage(t, page) ==> !SectionPage(s, page)
  {
    hide PageUp, MappedSize, OnPage;
    SharedPage(s.address, s.address + MappedSize(s), t.address, t.address + MappedSize(t));
    if s.address < SectionEnd(t) && t.address < SectionEnd(s) {
      var page: nat :|
        OnPage(s.address, s.address + MappedSize(s), page) && OnPage(t.address, t.address + MappedSize(t), page);
      assert SectionPage(t, page) && SectionPage(s, page);
    }
  }

  lemma SectionsAre(image: PeImage)
    requires image.size % PAGE == 0 && image.headerSize > 0
    ensures SectionsValid(image) <==>
      (forall i :: 0 <= i < |image.sections| ==> SectionFits(image, image.sections[i])) && PagesApart(image)
  {
    hide SectionPage, HeaderPage, SectionEnd, PageUp, MappedSize;
    forall i | 0 <= i < |image.sections|
      ensures SectionPasses(image, image.sections[i]) <==>
        && SectionFits(image, image.sections[i])
        && forall page: nat :: HeaderPage(image, page) ==> !SectionPage(image.sections[i], page)
    {
      SectionAlone(image, image.sections[i]);
    }
    forall i, j | 0 <= j < i < |image.sections| && SectionFits(image, image.sections[i]) && SectionFits(image, image.sections[j])
      ensures var s, t := image.sections[i], image.sections[j];
              !(s.address < SectionEnd(t) && t.address < SectionEnd(s)) <==>
              forall page: nat :: SectionPage(t, page) ==> !SectionPage(s, page)
    {
      SectionsAlone(image.sections[i], image.sections[j]);
    }
  }

  /** The tests that the loader makes of an image are those of a well-formed one. */
  lemma ContractIs(image: PeImage, isMain: bool)
    ensures ContractValid(image, isMain) <==> ProperImage(image, isMain)
  {
    hide SectionsValid, PagesApart, PageUp;
    if image.size % PAGE == 0 && image.headerSize > 0 {
      SectionsAre(image);
    }
    if image.size % PAGE == 0 {
      UpWithin(image.headerSize, image.size);
    }
  }

  // Where to put it.

  datatype Source = Source(name: Name, file: File)

  datatype Options = Options(force: bool, searchBase: nat, searchEnd: nat, alignment: nat, sources: seq<Source>)

  predicate OptionsValid(o: Options) {
    && USER_MIN <= o.searchBase < o.searchEnd <= USER_MAX
    && o.alignment >= PAGE && PowerOfTwo(o.alignment)
  }

  /** The status and the base the choice leaves behind, which a failure may set as well. */
  datatype Choice = Choice(status: Status, base: nat)

  function SearchBase(image: PeImage, o: Options, s: Space): Choice {
    if !Relocatable(image) then Choice(ImageRelocationFailed, 0)
    else match FindFreeRange(s, o.searchBase, o.searchEnd, image.size, o.alignment)
      case Err(status) => Choice(status, 0)
      case Ok(first) =>
        if first != image.base then Choice(Success, first)
        else match FindFreeRange(s, first + o.alignment, o.searchEnd, image.size, o.alignment)
          case Err(status) => Choice(status, first)
          case Ok(second) => Choice(Success, second)
  }

  function SelectBase(image: PeImage, o: Options, s: Space, isMain: bool): Choice {
    if isMain && o.force then SearchBase(image, o, s)
    else match FindFreeRange(s, image.base, image.base + image.size, image.size, PAGE)
      case Ok(base) => Choice(Success, base)
      case Err(status) => if status == NotFound then SearchBase(image, o, s) else Choice(status, 0)
  }

  /** The statuses of a choice, a mapping and a protection never say that memory is corrupt. */
  lemma {:induction false} SearchStatus(regions: seq<Region>, candidate: nat, end: nat, size: nat, alignment: nat)
    requires alignment > 0
    ensures var r := Search(regions, candidate, end, size, alignment); r.Err? ==> r.status != MemoryCorruption
    decreases end - candidate
  {
    hide IsFree, NextCandidate;
    var r := Region(candidate, size);
    if candidate < end && size <= end - candidate && !IsFree(regions, r) {
      var next := NextCandidate(regions, r, alignment);
      if next > candidate {
        SearchStatus(regions, next, end, size, alignment);
      }
    }
  }

  lemma RangeStatus(s: Space, base: nat, end: nat, size: nat, alignment: nat)
    ensures var r := FindFreeRange(s, base, end, size, alignment); r.Err? ==> r.status != MemoryCorruption
  {
    hide Search;
    if SearchArguments(base, end, size, alignment) {
      SearchStatus(s.regions, AlignUp(base, alignment), end, size, alignment);
    }
  }

  lemma ChoiceStatus(image: PeImage, o: Options, s: Space, isMain: bool)
    ensures SelectBase(image, o, s, isMain).status != MemoryCorruption
  {
    hide FindFreeRange;
    RangeStatus(s, image.base, image.base + image.size, image.size, PAGE);
    RangeStatus(s, o.searchBase, o.searchEnd, image.size, o.alignment);
    RangeStatus(s, image.base + o.alignment, o.searchEnd, image.size, o.alignment);
  }

  lemma MapStatuses(s: Space, base: nat, size: nat, p: Protection)
    ensures MapOwned(s, base, size, p).status != MemoryCorruption
    ensures ProtectOwned(s, base, size, p).status != MemoryCorruption
  {
    hide Paint, IsFree, Contains;
  }

  lemma {:induction false} SectionStatuses(s: Space, base: nat, sections: seq<Section>)
    ensures ProtectSections(s, base, sections).status != MemoryCorruption
    decreases |sections|
  {
    hide ProtectOwned;
    if sections != [] {
      var front, last := sections[..|sections| - 1], sections[|sections| - 1];
      SectionStatuses(s, base, front);
      if SectionProtection(last).Some? {
        MapStatuses(ProtectSections(s, base, front).space, base + last.address, PageUp(MappedSize(last)), SectionProtection(last).value);
      }
    }
  }

  lemma ProtectionStatus(s: Space, base: nat, image: PeImage)
    ensures ProtectImage(s, base, image).status != MemoryCorruption
  {
    hide ProtectOwned, ProtectSections;
    MapStatuses(s, base, image.size, READ_ONLY);
    SectionStatuses(ProtectOwned(s, base, image.size, READ_ONLY).space, base, image.sections);
  }

  /** A failed choice leaves no base, or one whose range is free. */
  lemma FailedChoice(image: PeImage, o: Options, s: Space, isMain: bool)
    ensures var c := SelectBase(image, o, s, isMain);
            c.status.Failed() && c.base != 0 ==> IsFree(s.regions, Region(c.base, image.size))
  {
    hide Search, IsFree;
  }

  /** And only the forced relocation of the main image can leave one. */
  lemma FailedChoiceIsForced(image: PeImage, o: Options, s: Space, isMain: bool)
    requires ContractValid(image, isMain)
    ensures var c := SelectBase(image, o, s, isMain);
            c.status.Failed() && c.base != 0 ==> isMain && o.force
  {
    hide IsFree;
    if !(isMain && o.force) {
      PreferredDecides(image, s);
    }
  }

  /** If the preferred range is free, the first search for it finds it. */
  lemma PreferredDecides(image: PeImage, s: Space)
    requires image.size != 0 && image.size % PAGE == 0 && image.base % PAGE == 0 && RangeValid(image.base, image.size)
    ensures IsFree(s.regions, Region(image.base, image.size)) <==>
      FindFreeRange(s, image.base, image.base + image.size, image.size, PAGE) == Ok(image.base)
    ensures FindFreeRange(s, image.base, image.base + image.size, image.size, PAGE).Ok? ==>
      FindFreeRange(s, image.base, image.base + image.size, image.size, PAGE).value == image.base
  {
    hide IsFree;
    assert AlignUp(image.base, PAGE) == image.base;
    PageIsPower();
  }

  /**
   * A base that is chosen has a free range. It is the preferred one exactly when that is free and
   * relocation is not forced; any other is chosen only for an image that can be relocated.
   */
  lemma ChosenBase(image: PeImage, o: Options, s: Space, isMain: bool)
    requires ContractValid(image, isMain)
    ensures var c := SelectBase(image, o, s, isMain);
            var forced := isMain && o.force;
            var preferred := IsFree(s.regions, Region(image.base, image.size));
            && (!forced && preferred ==> c == Choice(Success, image.base))
            && (c.status.Ok() ==>
                  && IsFree(s.regions, Region(c.base, image.size))
                  && (c.base == image.base <==> !forced && preferred)
                  && (c.base != image.base ==> Relocatable(image) && o.searchBase <= c.base && c.base + image.size <= o.searchEnd))
  {
    hide IsFree, SectionsValid, FindFreeRange;
    PreferredDecides(image, s);
    LowestFree(s, o.searchBase, o.searchEnd, image.size, o.alignment);
  }

  /** A base at which the search could put an image. */
  predicate Candidate(image: PeImage, o: Options, s: Space, base: nat)
    requires o.alignment > 0
  {
    && o.searchBase <= base && base + image.size <= o.searchEnd && base % o.alignment == 0
    && IsFree(s.regions, Region(base, image.size))
  }

  /** Relocation is forced, and the preferred base is the only one that the search could find. */
  ghost predicate OnlyPreferred(image: PeImage, o: Options, s: Space, isMain: bool) {
    && isMain && o.force && Relocatable(image) && o.alignment > 0
    && Candidate(image, o, s, image.base)
    && forall base: nat :: Candidate(image, o, s, base) ==> base == image.base
  }

  lemma SearchFinds(image: PeImage, o: Options, s: Space, from: nat)
    requires OptionsValid(o) && ContractValid(image, true) && o.searchBase <= from
    ensures var r := FindFreeRange(s, from, o.searchEnd, image.size, o.alignment);
            && (r.Ok? ==> from <= r.value && Candidate(image, o, s, r.value))
            && forall base: nat :: from <= base && Candidate(image, o, s, base) ==> r.Ok? && r.value <= base
  {
    hide IsFree, Search, SectionsValid;
    PageIsPower();
    PowersDivide(o.alignment, PAGE);
    hide PowerOfTwo, FindFreeRange;
    LowestFree(s, from, o.searchEnd, image.size, o.alignment);
  }

  /**
   * A failed choice leaves a base behind exactly when relocation is forced on an image that can be
   * relocated and its preferred range is the only one to be had.
   */
  lemma FailedChoiceExactly(image: PeImage, o: Options, s: Space, isMain: bool)
    requires ContractValid(image, isMain) && OptionsValid(o)
    ensures var c := SelectBase(image, o, s, isMain);
            && (c.status.Failed() && c.base != 0 <==> OnlyPreferred(image, o, s, isMain))
            && (c.status.Failed() && c.base != 0 ==> c.base == image.base)
  {
    FailedChoiceIsForced(image, o, s, isMain);
    if isMain && o.force {
      hide IsFree, FindFreeRange, PowerOfTwo, SectionsValid;
      SearchFinds(image, o, s, o.searchBase);
      if o.searchBase <= image.base {
        SearchFinds(image, o, s, image.base + o.alignment);
      }
      hide Candidate;
      forall base: nat | Candidate(image, o, s, base) && Candidate(image, o, s, image.base) && base > image.base
        ensures base >= image.base + o.alignment
      {
        CandidateAligned(image, o, s, base);
        CandidateAligned(image, o, s, image.base);
        NextMultiple(image.base, base, o.alignment);
      }
    }
  }

  lemma CandidateAligned(image: PeImage, o: Options, s: Space, base: nat)
    requires o.alignment > 0 && Candidate(image, o, s, base)
    ensures base % o.alignment == 0
  {
  }

  /** Multiples are at least the divisor apart. */
  lemma NextMultiple(a: nat, b: nat, d: nat)
    requires d > 0 && a % d == 0 && b % d == 0 && b > a
    ensures b >= a + d
  {
    var q, r := a / d, b / d;
    assert a == q * d && b == r * d;
    assert r <= q ==> r * d <= q * d;
    assert r >= q + 1 ==> r * d >= (q + 1) * d;
  }

  /** A forced relocation that fails and leaves the preferred base behind. */
  lemma BaseLeftBehind() returns (image: PeImage, o: Options, s: Space)
    ensures ContractValid(image, true) && OptionsValid(o) && SpaceOk(s)
    ensures SelectBase(image, o, s, true).status.Failed() && SelectBase(image, o, s, true).base == image.base != 0
  {
    image := PeImage(0x1_0000, 0x2000, 0x400, [], true, false, false, 0x1000, 12, 0);
    o := Options(true, 0x1_0000, 0x1_2000, PAGE, []);
    s := Space([], map[], []);
    PageIsPower();
  }

  lemma PageIsPower()
    ensures PowerOfTwo(PAGE)
  {
    assert PowerOfTwo(4);
    assert PowerOfTwo(16);
    assert PowerOfTwo(64);
    assert PowerOfTwo(256);
    assert PowerOfTwo(1024);
  }

  // Protection.

  function SectionProtection(s: Section): Option<Protection> {
    if s.write && s.execute then None else Some(Protection(s.write, s.execute))
  }

  function ProtectSections(s: Space, base: nat, sections: seq<Section>): Change
    decreases |sections|
  {
    if sections == [] then Change(Success, s)
    else
      var front := ProtectSections(s, base, sections[..|sections| - 1]);
      var last := sections[|sections| - 1];
      if front.status.Failed() then front
      else if MappedSize(last) == 0 || MappedSize(last) > 0xffff_ffff - (PAGE - 1) then Change(BadImageFormat, front.space)
      else match SectionProtection(last)
        case None => Change(BadImageFormat, front.space)
        case Some(p) => ProtectOwned(front.space, base + last.address, PageUp(MappedSize(last)), p)
  }

  /** First the whole image read-only, then each section as it asks. */
  function ProtectImage(s: Space, base: nat, image: PeImage): Change {
    var whole := ProtectOwned(s, base, image.size, READ_ONLY);
    if whole.status.Failed() then whole else ProtectSections(whole.space, base, image.sections)
  }

  /** The protection that a page ends up with: that of the section over it, or what it had. */
  function PageProtection(sections: seq<Section>, base: nat, page: nat, under: Protection): Protection
    decreases |sections|
  {
    if sections == [] then under
    else
      var last := sections[|sections| - 1];
      if Region(base + last.address, PageUp(MappedSize(last))).Has(page) then Protection(last.write, last.execute)
      else PageProtection(sections[..|sections| - 1], base, page, under)
  }

  lemma PaintAt(s: Space, base: nat, size: nat, p: Protection, page: nat)
    requires SpaceOk(s) && ProtectOwned(s, base, size, p).status == Success && page in s.table
    ensures var t := ProtectOwned(s, base, size, p).space.table;
            page in t && t[page] == if Region(base, size).Has(page) then p else s.table[page]
  {
    PaintKeys(s.table, Region(base, size), p, page);
  }

  /** Protecting sections keeps the regions and gives each mapped page its protection. */
  lemma {:induction false} SectionsPaint(s: Space, base: nat, sections: seq<Section>)
    requires SpaceOk(s)
    ensures var c := ProtectSections(s, base, sections);
            && SpaceOk(c.space) && c.space.regions == s.regions && c.space.luck == s.luck
            && (c.status.Ok() ==> c.status == Success)
            && (c.status == Success ==> forall page: nat :: page in s.table ==>
                  page in c.space.table && c.space.table[page] == PageProtection(sections, base, page, s.table[page]))
    decreases |sections|
  {
    hide SpaceOk, ProtectOwned, Region.Has, PageUp;
    if sections != [] {
      var front, last := sections[..|sections| - 1], sections[|sections| - 1];
      SectionsPaint(s, base, front);
      var f := ProtectSections(s, base, front).space;
      var p := Protection(last.write, last.execute);
      var size := PageUp(MappedSize(last));
      ProtectKeeps(f, base + last.address, size, p);
      StatusIsSuccess(f, base + last.address, size, p);
      if ProtectSections(s, base, sections).status == Success {
        forall page: nat | page in s.table
          ensures var t := ProtectSections(s, base, sections).space.table;
                  page in t && t[page] == PageProtection(sections, base, page, s.table[page])
        {
          PaintAt(f, base + last.address, size, p, page);
        }
      }
    }
  }

  lemma {:induction false} OutsideSections(image: PeImage, base: nat, n: nat, page: nat, under: Protection)
    requires SectionsValid(image) && n <= |image.sections| && base % PAGE == 0
    requires !Region(base, image.size).Has(page)
    ensures PageProtection(image.sections[..n], base, page, under) == under
    decreases n
  {
    if n > 0 {
      var sections := image.sections[..n];
      assert sections[..n - 1] == image.sections[..n - 1];
      SectionInside(image, base, n - 1, page);
      OutsideSections(image, base, n - 1, page, under);
    }
  }

  lemma SectionInside(image: PeImage, base: nat, i: nat, page: nat)
    requires SectionsValid(image) && i < |image.sections| && base % PAGE == 0
    ensures var s := image.sections[i];
            Region(base + s.address, PageUp(MappedSize(s))).Has(page) ==> Region(base, image.size).Has(page)
  {
    var s := image.sections[i];
    assert SectionEnd(s) == s.address + PageUp(MappedSize(s));
  }

  /** After protection an image's pages have their section's protection; other pages are untouched. */
  lemma ImageProtected(s: Space, base: nat, image: PeImage)
    requires SpaceOk(s) && SectionsValid(image) && base % PAGE == 0
    ensures var c := ProtectImage(s, base, image);
            && SpaceOk(c.space) && c.space.regions == s.regions && c.space.luck == s.luck
            && (c.status.Ok() ==> c.status == Success)
            && (c.status == Success ==> forall page: nat :: page in s.table ==>
                  && page in c.space.table
                  && c.space.table[page] == if Region(base, image.size).Has(page)
                                            then PageProtection(image.sections, base, page, READ_ONLY) else s.table[page])
  {
    hide SpaceOk, ProtectOwned, Region.Has, SectionsValid, PageProtection, ProtectSections;
    ProtectKeeps(s, base, image.size, READ_ONLY);
    var whole := ProtectOwned(s, base, image.size, READ_ONLY);
    if whole.status.Ok() {
      StatusIsSuccess(s, base, image.size, READ_ONLY);
      SectionsPaint(whole.space, base, image.sections);
      if ProtectImage(s, base, image).status == Success {
        forall page: nat | page in s.table
          ensures var t := ProtectImage(s, base, image).space.table;
                  && page in t
                  && t[page] == if Region(base, image.size).Has(page)
                                then PageProtection(image.sections, base, page, READ_ONLY) else s.table[page]
        {
          PaintAt(s, base, image.size, READ_ONLY, page);
          if !Region(base, image.size).Has(page) {
            assert image.sections[..|image.sections|] == image.sections;
            OutsideSections(image, base, |image.sections|, page, s.table[page]);
          }
        }
      }
    }
  }

  /** Whatever the outcome, pages outside the image keep their protection. */
  lemma {:induction false} SectionsOutside(s: Space, base: nat, image: PeImage, n: nat, page: nat)
    requires SpaceOk(s) && SectionsValid(image) && base % PAGE == 0 && n <= |image.sections|
    requires page in s.table && !Region(base, image.size).Has(page)
    ensures var c := ProtectSections(s, base, image.sections[..n]);
            SpaceOk(c.space) && page in c.space.table && c.space.table[page] == s.table[page]
    decreases n
  {
    hide SpaceOk, Region.Has, PageUp, SectionsValid, ProtectOwned;
    if n > 0 {
      var sections := image.sections[..n];
      assert sections[..n - 1] == image.sections[..n - 1];
      SectionsOutside(s, base, image, n - 1, page);
      SectionInside(image, base, n - 1, page);
      var last := image.sections[n - 1];
      var f := ProtectSections(s, base, sections[..n - 1]).space;
      var p := Protection(last.write, last.execute);
      ProtectKeeps(f, base + last.address, PageUp(MappedSize(last)), p);
      ProtectElsewhere(f, base + last.address, PageUp(MappedSize(last)), p, page);
    }
  }

  lemma ProtectElsewhere(s: Space, base: nat, size: nat, p: Protection, page: nat)
    requires page in s.table && !Region(base, size).Has(page)
    ensures var t := ProtectOwned(s, base, size, p).space.table;
            page in t && t[page] == s.table[page]
  {
    PaintKeys(s.table, Region(base, size), p, page);
  }

  lemma ImageOutside(s: Space, base: nat, image: PeImage, page: nat)
    requires SpaceOk(s) && SectionsValid(image) && base % PAGE == 0
    requires page in s.table && !Region(base, image.size).Has(page)
    ensures var t := ProtectImage(s, base, image).space.table;
            page in t && t[page] == s.table[page]
  {
    hide SpaceOk, Region.Has, SectionsValid, ProtectOwned, ProtectSections;
    ProtectKeeps(s, base, image.size, READ_ONLY);
    ProtectElsewhere(s, base, image.size, READ_ONLY, page);
    assert image.sections[..|image.sections|] == image.sections;
    SectionsOutside(ProtectOwned(s, base, image.size, READ_ONLY).space, base, image, |image.sections|, page);
  }

  lemma RegionIsAligned(s: Space, r: Region)
    requires SpaceOk(s) && r in s.regions
    ensures Aligned(r)
  {
  }

  /** Sections over a mapped image can be protected unless one of them asks for writable code. */
  lemma {:induction false} SectionsSucceed(s: Space, base: nat, image: PeImage, n: nat)
    requires SpaceOk(s) && SectionsValid(image) && image.size % PAGE == 0 && Region(base, image.size) in s.regions
    requires n <= |image.sections|
    ensures ProtectSections(s, base, image.sections[..n]).status.Ok() <==>
      forall i :: 0 <= i < n ==> !(image.sections[i].write && image.sections[i].execute)
    decreases n
  {
    hide SpaceOk, SectionsValid, ProtectOwned, PageUp, PageProtection, Aligned;
    if n > 0 {
      var sections := image.sections[..n];
      var last := image.sections[n - 1];
      assert sections[..n - 1] == image.sections[..n - 1];
      SectionsSucceed(s, base, image, n - 1);
      SectionsPaint(s, base, sections[..n - 1]);
      RegionIsAligned(s, Region(base, image.size));
      NonEmptySection(image, n - 1);
      if !(last.write && last.execute) {
        InnerSucceeds(ProtectSections(s, base, sections[..n - 1]).space, base, image, n - 1, Protection(last.write, last.execute));
      }
    }
  }

  lemma NonEmptySection(image: PeImage, i: nat)
    requires SectionsValid(image) && i < |image.sections|
    ensures MappedSize(image.sections[i]) != 0
  {
  }

  lemma InnerSucceeds(s: Space, base: nat, image: PeImage, i: nat, p: Protection)
    requires SectionsValid(image) && i < |image.sections| && image.size % PAGE == 0
    requires Region(base, image.size) in s.regions && Aligned(Region(base, image.size)) && !(p.write && p.execute)
    ensures var last := image.sections[i];
            && MappedSize(last) <= 0xffff_ffff - (PAGE - 1)
            && ProtectOwned(s, base + last.address, PageUp(MappedSize(last)), p).status == Success
  {
    var last := image.sections[i];
    var r := Region(base, image.size);
    var j :| 0 <= j < |s.regions| && s.regions[j] == r;
    assert SectionEnd(last) == last.address + PageUp(MappedSize(last));
    assert Contains(s.regions[j], Region(base + last.address, PageUp(MappedSize(last))));
  }

  lemma ProtectSucceeds(s: Space, base: nat, image: PeImage)
    requires SpaceOk(s) && SectionsValid(image) && image.size % PAGE == 0 && Region(base, image.size) in s.regions
    ensures ProtectImage(s, base, image).status.Ok() <==>
      forall i :: 0 <= i < |image.sections| ==> !(image.sections[i].write && image.sections[i].execute)
  {
    hide SpaceOk, SectionsValid;
    var r := Region(base, image.size);
    RegionIsAligned(s, r);
    var j :| 0 <= j < |s.regions| && s.regions[j] == r;
    assert Contains(s.regions[j], r);
    ProtectKeeps(s, base, image.size, READ_ONLY);
    assert image.sections[..|image.sections|] == image.sections;
    SectionsSucceed(ProtectOwned(s, base, image.size, READ_ONLY).space, base, image, |image.sections|);
  }

  ghost predicate Covers(image: PeImage, base: nat, i: nat, page: nat)
    requires i < |image.sections|
  {
    Region(base + image.sections[i].address, PageUp(MappedSize(image.sections[i]))).Has(page)
  }

  /** The place so far into an image lies in a section of code. */
  ghost predicate CodeAt(image: PeImage, base: nat, offset: nat) {
    exists i :: 0 <= i < |image.sections| && image.sections[i].execute && Covers(image, base, i, (base + offset) / PAGE)
  }

  /** Sections do not share pages. */
  lemma CoveredOnce(image: PeImage, base: nat, i: nat, j: nat, page: nat)
    requires SectionsValid(image) && base % PAGE == 0 && i < |image.sections| && j < |image.sections| && i != j
    requires Covers(image, base, i, page)
    ensures !Covers(image, base, j, page)
  {
    hide Covers, SectionEnd;
    CoversSpan(image, base, i, page);
    CoversSpan(image, base, j, page);
  }

  lemma CoversSpan(image: PeImage, base: nat, i: nat, page: nat)
    requires SectionsValid(image) && base % PAGE == 0 && i < |image.sections|
    ensures Covers(image, base, i, page) ==> image.sections[i].address <= page * PAGE - base < SectionEnd(image.sections[i])
  {
    var s := image.sections[i];
    assert s.address % PAGE == 0 && SectionEnd(s) == s.address + PageUp(MappedSize(s));
    hide SectionsValid;
  }

  lemma {:induction false} CodeExactly(image: PeImage, base: nat, n: nat, page: nat)
    requires SectionsValid(image) && base % PAGE == 0 && n <= |image.sections|
    ensures PageProtection(image.sections[..n], base, page, READ_ONLY).execute <==>
      exists i :: 0 <= i < n && image.sections[i].execute && Covers(image, base, i, page)
    decreases n
  {
    if n > 0 {
      hide SectionsValid, PageUp, Region.Has;
      var sections := image.sections[..n];
      assert sections[..n - 1] == image.sections[..n - 1];
      CodeExactly(image, base, n - 1, page);
      if Covers(image, base, n - 1, page) {
        forall i | 0 <= i < n - 1
          ensures !Covers(image, base, i, page)
        {
          CoveredOnce(image, base, n - 1, i, page);
        }
      }
    }
  }

  lemma StatusIsSuccess(s: Space, base: nat, size: nat, p: Protection)
    ensures ProtectOwned(s, base, size, p).status.Ok() ==> ProtectOwned(s, base, size, p).status == Success
  {
  }

  // The images of a process.

  datatype LoadState = Loading | Ready

  datatype UserImage = UserImage(name: Name, file: File, base: nat, size: nat, state: LoadState, main: bool)

  /** The first of the images with a name, or how many there are. */
  function FindImage(images: seq<UserImage>, name: Name): (i: nat)
    ensures i <= |images|
    ensures i < |images| ==> images[i].name == name
    ensures forall j :: 0 <= j < i ==> images[j].name != name
  {
    if images == [] then 0 else if images[0].name == name then 0 else 1 + FindImage(images[1..], name)
  }

  function RegionOf(i: UserImage): Region { Region(i.base, i.size) }

  function RegionsOf(images: seq<UserImage>): (r: seq<Region>)
    ensures |r| == |images|
  {
    seq(|images|, i requires 0 <= i < |images| => RegionOf(images[i]))
  }

  ghost predicate NamesDistinct(images: seq<UserImage>) {
    forall i, j :: 0 <= i < j < |images| ==> images[i].name != images[j].name
  }

  /**
   * The loader's state. For each image it also keeps which images its imports were bound to, and
   * when it became ready; the loader itself needs neither.
   */
  datatype World = World(images: seq<UserImage>, space: Space, uses: seq<set<nat>>, rank: seq<nat>, clock: nat)

  /** Each page of a finished image has the protection of its section. */
  ghost predicate Protected(c: Contents, s: Space, i: UserImage) {
    && c.parse(i.file).Ok?
    && forall page: nat :: RegionOf(i).Has(page) ==>
         page in s.table && s.table[page] == PageProtection(c.parse(i.file).value.sections, i.base, page, READ_ONLY)
  }

  /** Every import of an image, up to the n-th, is bound. */
  ghost predicate Bound(c: Contents, s: Space, images: seq<UserImage>, i: UserImage, uses: set<nat>, n: nat) {
    var imports := c.imports(i.file, i.base).imports;
    n <= |imports| && forall k :: 0 <= k < n ==> Provides(c, s, images, uses, imports[k])
  }

  /** One of the images used has the name and exports the symbol, on an executable page. */
  ghost predicate Provides(c: Contents, s: Space, images: seq<UserImage>, uses: set<nat>, wanted: Import) {
    exists j :: j in uses && j < |images| && Exports(c, s, images[j], wanted)
  }

  predicate Exports(c: Contents, s: Space, i: UserImage, wanted: Import) {
    && i.name == wanted.from && c.parse(i.file).Ok?
    && var e := c.exported(i.file, i.base, wanted);
       e.Ok? && 0 < e.value < c.parse(i.file).value.size && Executable(s, i.base + e.value)
  }

  /** Whatever could be executed still can. */
  ghost predicate KeepsCode(s: Space, t: Space) {
    forall page: nat :: page in s.table && s.table[page].execute ==> page in t.table && t.table[page].execute
  }

  lemma ProvidesStays(
        c: Contents, s: Space, t: Space, images: seq<UserImage>, later: seq<UserImage>, uses: set<nat>, more: set<nat>,
        wanted: Import)
    requires Provides(c, s, images, uses, wanted) && |images| <= |later| && uses <= more && KeepsCode(s, t)
    requires forall j :: 0 <= j < |images| && j in uses ==> SameFile(later[j], images[j])
    ensures Provides(c, t, later, more, wanted)
  {
    var j :| j in uses && j < |images| && Exports(c, s, images[j], wanted);
    assert j in more && Exports(c, t, later[j], wanted);
  }

  /** The same file under the same name at the same base. */
  predicate SameFile(a: UserImage, b: UserImage) {
    a.name == b.name && a.file == b.file && a.base == b.base
  }

  ghost predicate UsesReady(w: World, i: nat)
    requires i < |w.uses|
  {
    forall j :: j in w.uses[i] ==> j < |w.images| && w.images[j].state == Ready
  }

  ghost predicate Finished(c: Contents, w: World, i: nat)
    requires i < |w.images| == |w.uses| == |w.rank|
  {
    && Protected(c, w.space, w.images[i])
    && c.imports(w.images[i].file, w.images[i].base).end.Ok()
    && Bound(c, w.space, w.images, w.images[i], w.uses[i], |c.imports(w.images[i].file, w.images[i].base).imports|)
    && (w.images[i].main ==> c.parse(w.images[i].file).Ok? && Executable(w.space, w.images[i].base + c.parse(w.images[i].file).value.entry))
    && w.rank[i] < w.clock
    && (forall j :: j in w.uses[i] && j < |w.images| ==> w.rank[j] < w.rank[i])
  }

  /**
   * What holds throughout a load: the space is sound and consists of what was there at the start,
   * untouched, followed by the regions of the first so many images; names are distinct; images use
   * only ready images; and ready images are finished.
   */
  ghost predicate Sane(c: Contents, initial: Space, w: World, held: nat) {
    && SpaceOk(w.space)
    && |w.images| <= CAPACITY && |w.uses| == |w.rank| == |w.images|
    && NamesDistinct(w.images)
    && held <= |w.images|
    && w.space.regions == initial.regions + RegionsOf(w.images[..held])
    && (forall p: nat :: p in initial.table ==> p in w.space.table && w.space.table[p] == initial.table[p])
    && (forall i :: 0 <= i < |w.images| ==> UsesReady(w, i))
    && (forall i :: 0 <= i < |w.images| && w.images[i].state == Ready ==> Finished(c, w, i))
    && (forall i :: 0 <= i < held && w.images[i].state == Loading ==> Unprotected(w.space, w.images[i]))
  }

  /** The pages of an image that is still being filled are writable and nothing else. */
  ghost predicate Unprotected(s: Space, i: UserImage) {
    forall page: nat :: RegionOf(i).Has(page) ==> page in s.table && s.table[page] == READ_WRITE
  }

  /** A later state: earlier images and mapped pages are as they were. */
  ghost predicate Extends(w: World, v: World) {
    && |w.images| <= |v.images| && w.images == v.images[..|w.images|]
    && |w.uses| <= |v.uses| && w.uses == v.uses[..|w.uses|]
    && |w.rank| <= |v.rank| && w.rank == v.rank[..|w.rank|]
    && w.clock <= v.clock
    && (forall p: nat :: p in w.space.table ==> p in v.space.table && v.space.table[p] == w.space.table[p])
  }

  /** The images past some point are all ready. */
  ghost predicate ReadyFrom(w: World, n: nat) {
    forall i :: n <= i < |w.images| ==> w.images[i].state == Ready
  }

  // The steps of loading one image.

  function Begin(w: World, image: PeImage, file: File, name: Name, isMain: bool): World {
    w.(images := w.images + [UserImage(name, file, 0, image.size, Loading, isMain)], uses := w.uses + [{}], rank := w.rank + [0])
  }

  lemma BeginSane(c: Contents, initial: Space, w: World, image: PeImage, file: File, name: Name, isMain: bool)
    requires Sane(c, initial, w, |w.images|) && |w.images| < CAPACITY
    requires forall i :: 0 <= i < |w.images| ==> w.images[i].name != name
    ensures Sane(c, initial, Begin(w, image, file, name, isMain), |w.images|)
    ensures Extends(w, Begin(w, image, file, name, isMain))
  {
    hide SpaceOk, Protected, Finished, UsesReady, Unprotected;
    var v := Begin(w, image, file, name, isMain);
    assert v.images[..|w.images|] == w.images == w.images[..|w.images|];
    assert Extends(w, v);
    assert forall i :: 0 <= i < |w.images| ==> v.images[i] == w.images[i];
    forall i | 0 <= i < |v.images|
      ensures UsesReady(v, i)
      ensures v.images[i].state == Ready ==> Finished(c, v, i)
    {
      if i < |w.images| {
        UsesStay(w, v, i);
        if v.images[i].state == Ready {
          FinishedStays(c, w, v, i);
        }
      } else {
        UsesNothing(v, i);
      }
    }
  }

  lemma UsesNothing(w: World, i: nat)
    requires i < |w.uses| && w.uses[i] == {}
    ensures UsesReady(w, i)
  {
  }

  lemma UsesStay(w: World, v: World, i: nat)
    requires i < |w.uses| && UsesReady(w, i) && Extends(w, v)
    ensures UsesReady(v, i)
  {
    assert v.uses[i] == w.uses[i];
    assert forall j :: 0 <= j < |w.images| ==> v.images[j] == w.images[j];
  }

  /** A finished image stays finished in every later state. */
  lemma FinishedStays(c: Contents, w: World, v: World, i: nat)
    requires |w.uses| == |w.rank| == |w.images| && |v.uses| == |v.rank| == |v.images|
    requires i < |w.images| && Finished(c, w, i) && UsesReady(w, i) && Extends(w, v)
    ensures Finished(c, v, i)
  {
    hide PageProtection, Region.Has, Provides;
    assert v.images[i] == w.images[i] && v.uses[i] == w.uses[i] && v.rank[i] == w.rank[i];
    assert forall j :: 0 <= j < |w.images| ==> v.images[j] == w.images[j] && v.rank[j] == w.rank[j];
    var imports := c.imports(w.images[i].file, w.images[i].base).imports;
    forall k | 0 <= k < |imports|
      ensures Provides(c, v.space, v.images, v.uses[i], imports[k])
    {
      ProvidesStays(c, w.space, v.space, w.images, v.images, w.uses[i], v.uses[i], imports[k]);
    }
  }

  /** The last image, given a base and mapped there. */
  function Place(w: World, base: nat, space: Space): World
    requires w.images != []
  {
    var n := |w.images| - 1;
    w.(images := w.images[n := w.images[n].(base := base)], space := space)
  }

  /** The loading image at the end has its region appended and its pages mapped read-write. */
  lemma PlaceSane(c: Contents, initial: Space, w: World, base: nat)
    requires w.images != [] && Sane(c, initial, w, |w.images| - 1)
    requires w.images[|w.images| - 1].state == Loading
    requires MapOwned(w.space, base, w.images[|w.images| - 1].size, READ_WRITE).status == Success
    ensures var v := Place(w, base, MapOwned(w.space, base, w.images[|w.images| - 1].size, READ_WRITE).space);
            Sane(c, initial, v, |v.images|)
  {
    hide SpaceOk, Protected, Finished, UsesReady, MapOwned, Region.Has, Unprotected;
    var n := |w.images| - 1;
    var size := w.images[n].size;
    var change := MapOwned(w.space, base, size, READ_WRITE);
    MapKeeps(w.space, base, size, READ_WRITE);
    MapAppends(w.space, base, size, READ_WRITE);
    var v := Place(w, base, change.space);
    assert v.images[..n] == w.images[..n];
    assert RegionsOf(v.images[..n + 1]) == RegionsOf(w.images[..n]) + [Region(base, size)];
    assert initial.regions + (RegionsOf(w.images[..n]) + [Region(base, size)])
        == (initial.regions + RegionsOf(w.images[..n])) + [Region(base, size)];
    assert v.images[..n + 1] == v.images;
    forall i | 0 <= i < |v.images| && v.images[i].state == Loading
      ensures Unprotected(v.space, v.images[i])
    {
      if i < n {
        UnprotectedStays(w.space, v.space, w.images[i]);
      } else {
        UnprotectedNow(v.space, v.images[n]);
      }
    }
    forall i | 0 <= i < |v.images|
      ensures UsesReady(v, i)
      ensures v.images[i].state == Ready ==> Finished(c, v, i)
    {
      PlaceUses(w, v, i);
      if v.images[i].state == Ready {
        LoadingUnused(w, i, n);
        PlaceFinished(c, w, v, i);
      }
    }
  }

  lemma UnprotectedStays(s: Space, t: Space, i: UserImage)
    requires Unprotected(s, i)
    requires forall page: nat :: page in s.table ==> page in t.table && t.table[page] == s.table[page]
    ensures Unprotected(t, i)
  {
    hide Region.Has;
  }

  lemma UnprotectedNow(s: Space, i: UserImage)
    requires forall page: nat :: RegionOf(i).Has(page) ==> page in s.table && s.table[page] == READ_WRITE
    ensures Unprotected(s, i)
  {
    hide Region.Has;
  }

  /** No image uses one that is still loading. */
  lemma LoadingUnused(w: World, i: nat, n: nat)
    requires i < |w.uses| && UsesReady(w, i) && n < |w.images| && w.images[n].state == Loading
    ensures n !in w.uses[i]
  {
  }

  lemma MapAppends(s: Space, base: nat, size: nat, p: Protection)
    requires SpaceOk(s) && MapOwned(s, base, size, p).status == Success
    ensures var t := MapOwned(s, base, size, p).space;
            && t.regions == s.regions + [Region(base, size)]
            && (forall page: nat :: page in s.table ==> page in t.table && t.table[page] == s.table[page])
            && (forall page: nat :: Region(base, size).Has(page) ==> page in t.table && t.table[page] == p)
            && base % PAGE == 0 && base >= USER_MIN
  {
    hide Touch, Region.Has;
    var r := Region(base, size);
    var t := MapOwned(s, base, size, p).space;
    AlignedOf(base, size, p);
    forall page: nat | page in s.table
      ensures page in t.table && t.table[page] == s.table[page]
    {
      PaintKeys(s.table, r, p, page);
      FreeOfRegion(s, r, page);
    }
    forall page: nat | r.Has(page)
      ensures page in t.table && t.table[page] == p
    {
      PaintKeys(s.table, r, p, page);
    }
  }

  /** A page that is mapped lies in no region that is free. */
  lemma FreeOfRegion(s: Space, r: Region, page: nat)
    requires SpaceOk(s) && Aligned(r) && IsFree(s.regions, r) && page in s.table
    ensures !r.Has(page)
  {
    var i :| 0 <= i < |s.regions| && s.regions[i].Has(page);
    TouchSymmetric(r, s.regions[i]);
    ApartPages(s.regions[i], r, page);
  }

  lemma PlaceUses(w: World, v: World, i: nat)
    requires |w.images| == |v.images| && v.uses == w.uses && i < |w.uses| && UsesReady(w, i)
    requires forall j :: 0 <= j < |w.images| ==> v.images[j].state == w.images[j].state
    ensures UsesReady(v, i)
  {
  }

  /** Finished images do not notice changes to other images and to pages outside their regions. */
  lemma PlaceFinished(c: Contents, w: World, v: World, i: nat)
    requires |w.uses| == |w.rank| == |w.images| == |v.images| == |v.uses| == |v.rank|
    requires i < |w.images| && Finished(c, w, i) && v.images[i] == w.images[i]
    requires v.uses[i] == w.uses[i] && v.rank == w.rank && v.clock >= w.clock
    requires forall j :: 0 <= j < |w.images| && j in w.uses[i] ==> SameFile(v.images[j], w.images[j])
    requires KeepsCode(w.space, v.space)
    requires forall page: nat :: RegionOf(w.images[i]).Has(page) && page in w.space.table ==>
      page in v.space.table && v.space.table[page] == w.space.table[page]
    ensures Finished(c, v, i)
  {
    hide PageProtection, Region.Has, Provides;
    var imports := c.imports(w.images[i].file, w.images[i].base).imports;
    forall k | 0 <= k < |imports|
      ensures Provides(c, v.space, v.images, v.uses[i], imports[k])
    {
      ProvidesStays(c, w.space, v.space, w.images, v.images, w.uses[i], v.uses[i], imports[k]);
    }
  }

  /** An image binds an import to another, which it thereby uses. */
  function Use(w: World, me: nat, j: nat): World
    requires me < |w.uses|
  {
    w.(uses := w.uses[me := w.uses[me] + {j}])
  }

  lemma UseSane(c: Contents, initial: Space, w: World, held: nat, me: nat, j: nat)
    requires Sane(c, initial, w, held) && me < |w.images| && w.images[me].state == Loading
    requires j < |w.images| && w.images[j].state == Ready
    ensures Sane(c, initial, Use(w, me, j), held)
  {
    hide SpaceOk, Finished, UsesReady;
    var v := Use(w, me, j);
    forall i | 0 <= i < |v.images|
      ensures UsesReady(v, i)
      ensures v.images[i].state == Ready ==> Finished(c, v, i)
    {
      UsesMore(w, v, me, j, i);
      if v.images[i].state == Ready {
        PlaceFinished(c, w, v, i);
      }
    }
  }

  lemma UsesMore(w: World, v: World, me: nat, j: nat, i: nat)
    requires me < |w.uses| && i < |w.uses| && UsesReady(w, i) && v == Use(w, me, j)
    requires j < |w.images| && w.images[j].state == Ready
    ensures UsesReady(v, i)
  {
  }

  /** The image is protected, and ready from now on. */
  function Finish(w: World, me: nat, space: Space): World
    requires me < |w.images| == |w.rank|
  {
    w.(images := w.images[me := w.images[me].(state := Ready)], space := space, rank := w.rank[me := w.clock], clock := w.clock + 1)
  }

  /** The region of an image that is held, among the regions of the space. */
  lemma HeldRegion(c: Contents, initial: Space, w: World, i: nat)
    requires Sane(c, initial, w, |w.images|) && i < |w.images|
    ensures |initial.regions| + i < |w.space.regions|
    ensures w.space.regions[|initial.regions| + i] == RegionOf(w.images[i])
    ensures Aligned(RegionOf(w.images[i]))
    ensures forall page: nat :: RegionOf(w.images[i]).Has(page) ==> page in w.space.table
  {
    hide Finished, UsesReady, Touch, Region.Has, Aligned;
    assert w.images[..|w.images|] == w.images;
    var k := |initial.regions| + i;
    assert w.space.regions[k] == RegionsOf(w.images)[i];
    forall page: nat | RegionOf(w.images[i]).Has(page)
      ensures page in w.space.table
    {
      assert Holds(w.space.regions, page);
    }
  }

  lemma PageInOne(s: Space, i: nat, j: nat, page: nat)
    requires SpaceOk(s) && i < |s.regions| && j < |s.regions| && i != j && s.regions[i].Has(page)
    ensures !s.regions[j].Has(page)
  {
    hide Region.Has, Touch;
    assert !Touch(s.regions[i], s.regions[j]) by {
      if i < j {} else { TouchSymmetric(s.regions[i], s.regions[j]); }
    }
    ApartPages(s.regions[i], s.regions[j], page);
  }

  lemma InitialOutside(c: Contents, initial: Space, w: World, me: nat, page: nat)
    requires SpaceOk(initial) && Sane(c, initial, w, |w.images|) && me < |w.images| && page in initial.table
    ensures !RegionOf(w.images[me]).Has(page)
  {
    hide Finished, UsesReady, Region.Has;
    HeldRegion(c, initial, w, me);
    var k :| 0 <= k < |initial.regions| && initial.regions[k].Has(page);
    assert w.space.regions[k] == initial.regions[k];
    PageInOne(w.space, k, |initial.regions| + me, page);
  }

  lemma OthersOutside(c: Contents, initial: Space, w: World, me: nat, i: nat, page: nat)
    requires Sane(c, initial, w, |w.images|) && me < |w.images| && i < |w.images| && i != me
    requires RegionOf(w.images[i]).Has(page)
    ensures !RegionOf(w.images[me]).Has(page)
  {
    hide Finished, UsesReady, Region.Has, Sane;
    HeldRegion(c, initial, w, me);
    HeldRegion(c, initial, w, i);
    SaneSpace(c, initial, w, |w.images|);
    PageInOne(w.space, |initial.regions| + i, |initial.regions| + me, page);
  }

  lemma SaneSpace(c: Contents, initial: Space, w: World, held: nat)
    requires Sane(c, initial, w, held)
    ensures SpaceOk(w.space) && |w.uses| == |w.rank| == |w.images| <= CAPACITY
  {
    hide SpaceOk, Finished, UsesReady;
  }

  lemma FinishSane(c: Contents, initial: Space, w: World, me: nat)
    requires SpaceOk(initial) && Sane(c, initial, w, |w.images|) && me < |w.images| && w.images[me].state == Loading
    requires var i := w.images[me];
             && c.parse(i.file).Ok? && SectionsValid(c.parse(i.file).value) && c.parse(i.file).value.size == i.size
             && ProtectImage(w.space, i.base, c.parse(i.file).value).status == Success
             && c.imports(i.file, i.base).end.Ok()
             && Bound(c, w.space, w.images, i, w.uses[me], |c.imports(i.file, i.base).imports|)
             && (i.main ==> Executable(ProtectImage(w.space, i.base, c.parse(i.file).value).space, i.base + c.parse(i.file).value.entry))
    ensures var i := w.images[me];
            Sane(c, initial, Finish(w, me, ProtectImage(w.space, i.base, c.parse(i.file).value).space), |w.images|)
  {
    hide SpaceOk, Finished, UsesReady, ProtectImage, Protected, Region.Has, SectionsValid, Bound;
    var i := w.images[me];
    var image := c.parse(i.file).value;
    HeldRegion(c, initial, w, me);
    AlignedBase(RegionOf(i));
    ImageProtected(w.space, i.base, image);
    var v := Finish(w, me, ProtectImage(w.space, i.base, image).space);
    assert RegionsOf(v.images[..|w.images|]) == RegionsOf(w.images[..|w.images|]);
    assert Unprotected(w.space, i);
    assert KeepsCode(w.space, v.space);
    forall k | 0 <= k < |v.images| && v.images[k].state == Loading
      ensures Unprotected(v.space, v.images[k])
    {
      assert Unprotected(w.space, w.images[k]);
      forall page: nat | RegionOf(w.images[k]).Has(page)
        ensures page in v.space.table && v.space.table[page] == READ_WRITE
      {
        OthersOutside(c, initial, w, me, k, page);
      }
    }
    forall p: nat | p in initial.table
      ensures p in v.space.table && v.space.table[p] == initial.table[p]
    {
      InitialOutside(c, initial, w, me, p);
    }
    forall k | 0 <= k < |v.images|
      ensures UsesReady(v, k)
      ensures v.images[k].state == Ready ==> Finished(c, v, k)
    {
      UsesAfterFinish(w, v, me, k);
      if k == me {
        FinishedNow(c, w, v, me);
      } else if v.images[k].state == Ready {
        forall page: nat | RegionOf(w.images[k]).Has(page) && page in w.space.table
          ensures page in v.space.table && v.space.table[page] == w.space.table[page]
        {
          OthersOutside(c, initial, w, me, k, page);
        }
        FinishedBeside(c, w, v, me, k);
      }
    }
  }

  lemma AlignedBase(r: Region)
    requires Aligned(r)
    ensures r.base % PAGE == 0
  {
  }

  lemma UsesAfterFinish(w: World, v: World, me: nat, k: nat)
    requires |w.uses| == |w.rank| == |w.images| && me < |w.images| && k < |w.uses| && UsesReady(w, k)
    requires v.images == w.images[me := w.images[me].(state := Ready)] && v.uses == w.uses
    ensures UsesReady(v, k)
  {
  }

  /** The image that was just protected meets what is asked of a finished one. */
  lemma FinishedNow(c: Contents, w: World, v: World, me: nat)
    requires |w.uses| == |w.rank| == |w.images| && me < |w.images| && UsesReady(w, me)
    requires forall j :: 0 <= j < |w.images| && w.images[j].state == Ready ==> Finished(c, w, j)
    requires v == Finish(w, me, v.space) && w.images[me].state == Loading
    requires var i := w.images[me];
             && c.parse(i.file).Ok? && c.parse(i.file).value.size == i.size
             && c.imports(i.file, i.base).end.Ok()
             && Bound(c, w.space, w.images, i, w.uses[me], |c.imports(i.file, i.base).imports|)
             && KeepsCode(w.space, v.space)
             && (i.main ==> Executable(v.space, i.base + c.parse(i.file).value.entry))
             && (forall page: nat :: RegionOf(i).Has(page) ==>
                   page in v.space.table && v.space.table[page] == PageProtection(c.parse(i.file).value.sections, i.base, page, READ_ONLY))
    ensures Finished(c, v, me)
  {
    hide PageProtection, Region.Has, Provides, Protected;
    var i := w.images[me];
    var imports := c.imports(i.file, i.base).imports;
    forall k | 0 <= k < |imports|
      ensures Provides(c, v.space, v.images, v.uses[me], imports[k])
    {
      ProvidesStays(c, w.space, v.space, w.images, v.images, w.uses[me], v.uses[me], imports[k]);
    }
    ProtectedAgain(c, v.space, i, v.images[me]);
    forall j | j in v.uses[me] && j < |v.images|
      ensures v.rank[j] < v.rank[me]
    {
      assert Finished(c, w, j);
    }
  }

  lemma ProtectedAgain(c: Contents, s: Space, i: UserImage, k: UserImage)
    requires c.parse(i.file).Ok? && k.file == i.file && RegionOf(k) == RegionOf(i)
    requires forall page: nat :: RegionOf(i).Has(page) ==>
      page in s.table && s.table[page] == PageProtection(c.parse(i.file).value.sections, i.base, page, READ_ONLY)
    ensures Protected(c, s, k)
  {
    hide PageProtection, Region.Has;
  }

  /** The other finished images are not disturbed: their uses were ready, hence not this image. */
  lemma FinishedBeside(c: Contents, w: World, v: World, me: nat, k: nat)
    requires |w.uses| == |w.rank| == |w.images| && me < |w.images| && k < |w.images| && k != me
    requires v == Finish(w, me, v.space) && w.images[me].state == Loading
    requires Finished(c, w, k) && UsesReady(w, k)
    requires KeepsCode(w.space, v.space)
    requires forall page: nat :: RegionOf(w.images[k]).Has(page) && page in w.space.table ==>
      page in v.space.table && v.space.table[page] == w.space.table[page]
    ensures Finished(c, v, k)
  {
    hide PageProtection, Region.Has, Provides;
    var imports := c.imports(w.images[k].file, w.images[k].base).imports;
    forall n | 0 <= n < |imports|
      ensures Provides(c, v.space, v.images, v.uses[k], imports[n])
    {
      ProvidesStays(c, w.space, v.space, w.images, v.images, w.uses[k], v.uses[k], imports[n]);
    }
  }
}
