/**
 * What it takes for a program to load (kernel/pe/user_image.c): the tests made of each image, and the
 * plan of a program with everything it imports.
 */
module ProgramPlans {
  import opened Status
  import opened AddressSpaces
  import opened UserImages
  import opened ImageMemory

  predicate NameValid(name: Name) {
    0 < |name| <= NAME_LIMIT && forall i :: 0 <= i < |name| ==> name[i] != 0
  }

  predicate SourcesValid(o: Options, main: Name) {
    && (forall i :: 0 <= i < |o.sources| ==> NameValid(o.sources[i].name) && o.sources[i].file != [] && o.sources[i].name != main)
    && (forall i, j :: 0 <= j < i < |o.sources| ==> o.sources[i].name != o.sources[j].name)
  }

  function FindSource(sources: seq<Source>, name: Name): (s: Option<Source>)
    ensures s.Some? ==> s.value.name == name
  {
    if sources == [] then None else if sources[0].name == name then Some(sources[0]) else FindSource(sources[1..], name)
  }

  // One image.

  lemma ContractSizes(image: PeImage, isMain: bool)
    requires ContractValid(image, isMain)
    ensures image.base % PAGE == 0 && image.size % PAGE == 0 && RangeValid(image.base, image.size)
    ensures SectionsValid(image)
  {
  }

  /** The choice of a base and the mapping there succeed. */
  predicate HasPlace(o: Options, s: Space, image: PeImage, isMain: bool) {
    var choice := SelectBase(image, o, s, isMain);
    choice.status.Ok() && MapOwned(s, choice.base, image.size, READ_WRITE).status.Ok()
  }

  lemma PlaceChosen(o: Options, s: Space, image: PeImage, isMain: bool)
    requires HasPlace(o, s, image, isMain)
    ensures SelectBase(image, o, s, isMain).status.Ok()
  {
    hide SelectBase, MapOwned;
  }

  /** The protections can be set and the entry point of a program is then code. */
  predicate Seals(s: Space, base: nat, image: PeImage, isMain: bool) {
    var change := ProtectImage(s, base, image);
    change.status.Ok() && (isMain ==> Executable(change.space, base + image.entry))
  }

  /** The arguments and the image of a program pass the tests made before anything is mapped. */
  predicate Acceptable(c: Contents, o: Options, file: File, name: Name) {
    file != [] && NameValid(name) && OptionsValid(o) && SourcesValid(o, name) && ImageAccepted(c, file, true)
  }

  /** The file is an image that meets the contract. */
  predicate ImageAccepted(c: Contents, file: File, isMain: bool) {
    c.parse(file).Ok? && InFile(c.parse(file).value, file) && ContractValid(c.parse(file).value, isMain)
  }

  /** A mapped image seals exactly when no section is writable code and, for a program, a code section holds the entry. */
  lemma SealsExactly(s: Space, base: nat, image: PeImage, isMain: bool)
    requires SpaceOk(s) && ContractValid(image, isMain) && Region(base, image.size) in s.regions && image.entry < image.size
    ensures Seals(s, base, image, isMain) <==>
      && (forall i :: 0 <= i < |image.sections| ==> !(image.sections[i].write && image.sections[i].execute))
      && (isMain ==> CodeAt(image, base, image.entry))
  {
    hide ContractValid, SectionsValid, SpaceOk, ProtectImage, PageProtection, CodeAt, Executable;
    RegionIsAligned(s, Region(base, image.size));
    ContractSizes(image, isMain);
    ProtectSucceeds(s, base, image);
    ImageProtected(s, base, image);
    if ProtectImage(s, base, image).status.Ok() {
      EntryPage(s, base, image);
    }
  }

  lemma EntryMapped(s: Space, base: nat, image: PeImage)
    requires SpaceOk(s) && Region(base, image.size) in s.regions && image.entry < image.size
    ensures (base + image.entry) / PAGE in s.table && Region(base, image.size).Has((base + image.entry) / PAGE)
    ensures RangeValid(base + image.entry, 1)
  {
    hide Apart;
    var r := Region(base, image.size);
    var j :| 0 <= j < |s.regions| && s.regions[j] == r;
    assert Aligned(r);
    EntryInside(base, image.size, image.entry);
    assert Holds(s.regions, (base + image.entry) / PAGE);
  }

  lemma EntryInside(base: nat, size: nat, entry: nat)
    requires base % PAGE == 0 && size % PAGE == 0 && entry < size
    ensures Region(base, size).Has((base + entry) / PAGE)
  {
  }

  lemma EntryPage(s: Space, base: nat, image: PeImage)
    requires SpaceOk(s) && SectionsValid(image) && base % PAGE == 0 && Region(base, image.size) in s.regions
    requires ProtectImage(s, base, image).status == Success && image.entry < image.size
    ensures Executable(ProtectImage(s, base, image).space, base + image.entry) <==> CodeAt(image, base, image.entry)
  {
    hide SpaceOk, SectionsValid, ProtectImage, PageProtection, Covers, Region.Has, RangeValid;
    var page := (base + image.entry) / PAGE;
    EntryMapped(s, base, image);
    ImageProtected(s, base, image);
    CodeExactly(image, base, |image.sections|, page);
    assert image.sections[..|image.sections|] == image.sections;
  }

  // The plan of a program.

  datatype Program = Program(name: Name, file: File)

  /** The file that a name stands for. */
  function FileOf(o: Options, main: Program, name: Name): Option<File> {
    if name == main.name then Some(main.file)
    else
      var source := FindSource(o.sources, name);
      if source.Some? then Some(source.value.file) else None
  }

  /** The image that a name stands for, if it is acceptable. */
  function ImageOf(c: Contents, o: Options, main: Program, name: Name): Option<PeImage> {
    var file := FileOf(o, main, name);
    if file.None? || file.value == [] || !NameValid(name) || !ImageAccepted(c, file.value, name == main.name) then None
    else Some(c.parse(file.value).value)
  }

  /** The imports of a module at its preferred base. */
  function TableOf(c: Contents, o: Options, main: Program, name: Name): ImportTable
    requires ImageOf(c, o, main, name).Some?
  {
    c.imports(FileOf(o, main, name).value, ImageOf(c, o, main, name).value.base)
  }

  /** The module that an import names exports code under its symbol. */
  ghost predicate ExportOk(c: Contents, o: Options, main: Program, wanted: Import) {
    && ImageOf(c, o, main, wanted.from).Some?
    && var image := ImageOf(c, o, main, wanted.from).value;
       var e := c.exported(FileOf(o, main, wanted.from).value, image.base, wanted);
       e.Ok? && 0 < e.value < image.size && CodeAt(image, image.base, e.value)
  }

  /** A module is acceptable, has no writable code, and every import has a slot and code to go to. */
  ghost predicate ModuleOk(c: Contents, o: Options, main: Program, name: Name) {
    && ImageOf(c, o, main, name).Some?
    && var image, table := ImageOf(c, o, main, name).value, TableOf(c, o, main, name);
       && table.end.Ok()
       && (forall i :: 0 <= i < |image.sections| ==> !(image.sections[i].write && image.sections[i].execute))
       && (name == main.name ==> CodeAt(image, image.base, image.entry))
       && (forall k :: 0 <= k < |table.imports| ==> table.imports[k].slot + 8 <= image.size && ExportOk(c, o, main, table.imports[k]))
  }

  /** The modules of a program, each ranked above those it imports. */
  datatype Plan = Plan(rank: map<Name, nat>)

  ghost predicate Ranked(c: Contents, o: Options, main: Program, p: Plan, name: Name)
    requires ImageOf(c, o, main, name).Some? && name in p.rank
  {
    forall k :: 0 <= k < |TableOf(c, o, main, name).imports| ==>
      var from := TableOf(c, o, main, name).imports[k].from;
      from in p.rank && p.rank[from] < p.rank[name]
  }

  ghost predicate PlanOk(c: Contents, o: Options, main: Program, p: Plan) {
    && main.name in p.rank && |p.rank| <= CAPACITY
    && forall name :: name in p.rank ==>
         ModuleOk(c, o, main, name) && Ranked(c, o, main, p, name)
  }

  /** Every module that the program could load finds its preferred range free. */
  ghost predicate Roomy(c: Contents, o: Options, initial: Space, main: Program) {
    && !o.force && initial.luck == [] && |initial.regions| + CAPACITY <= REGION_CAPACITY
    && (forall name :: ImageOf(c, o, main, name).Some? ==>
          IsFree(initial.regions, HomeOf(ImageOf(c, o, main, name).value)))
    && (forall a, b :: a != b && ImageOf(c, o, main, a).Some? && ImageOf(c, o, main, b).Some? ==>
          !Touch(HomeOf(ImageOf(c, o, main, a).value), HomeOf(ImageOf(c, o, main, b).value)))
  }

  function HomeOf(image: PeImage): Region { Region(image.base, image.size) }

  lemma PreparedAtHome(image: PeImage, file: File)
    requires InFile(image, file)
    ensures Prepared(image, file, image.base).Ok?
  {
    hide InFile, Copied;
  }

  /** The place so far into a ready image is executable exactly when it lies in a section of code. */
  lemma ReadyCode(c: Contents, initial: Space, w: World, j: nat, isMain: bool, offset: nat)
    requires Sane(c, initial, w, |w.images|) && j < |w.images| && w.images[j].state == Ready
    requires ImageAccepted(c, w.images[j].file, isMain) && c.parse(w.images[j].file).value.size == w.images[j].size
    requires offset < w.images[j].size
    ensures Executable(w.space, w.images[j].base + offset) <==>
      CodeAt(c.parse(w.images[j].file).value, w.images[j].base, offset)
  {
    hide Sane, InFile, SectionsValid, Region.Has, Covers, PageProtection, RangeValid, Aligned;
    var i := w.images[j];
    var image := c.parse(i.file).value;
    HeldRegion(c, initial, w, j);
    ContractSizes(image, isMain);
    ReadyProtected(c, initial, w, j);
    PlaceInside(RegionOf(i), offset);
    CodeExactly(image, i.base, |image.sections|, (i.base + offset) / PAGE);
    assert image.sections[..|image.sections|] == image.sections;
  }

  lemma ReadyProtected(c: Contents, initial: Space, w: World, j: nat)
    requires Sane(c, initial, w, |w.images|) && j < |w.images| && w.images[j].state == Ready
    ensures Protected(c, w.space, w.images[j])
  {
    hide SpaceOk, Protected, UsesReady, Unprotected, Bound;
    assert Finished(c, w, j);
  }

  lemma PlaceInside(r: Region, offset: nat)
    requires Aligned(r) && offset < r.size
    ensures r.base % PAGE == 0 && r.Has((r.base + offset) / PAGE) && RangeValid(r.base + offset, 1)
  {
    EntryInside(r.base, r.size, offset);
  }

  /** A ready image has no section of writable code. */
  lemma NoWritableCode(c: Contents, initial: Space, w: World, j: nat, isMain: bool, k: nat)
    requires Sane(c, initial, w, |w.images|) && j < |w.images| && w.images[j].state == Ready
    requires ImageAccepted(c, w.images[j].file, isMain) && c.parse(w.images[j].file).value.size == w.images[j].size
    requires k < |c.parse(w.images[j].file).value.sections|
    ensures var s := c.parse(w.images[j].file).value.sections[k]; !(s.write && s.execute)
  {
    var i := w.images[j];
    var image := c.parse(i.file).value;
    hide InFile, SpaceOk, UsesReady, Unprotected, Bound, SectionsValid;
    HeldRegion(c, initial, w, j);
    ContractSizes(image, isMain);
    assert Finished(c, w, j);
    hide Sane, PageProtection, Covers, Region.Has;
    var page := FirstPage(image, i.base, k);
    SectionInside(image, i.base, k, page);
    CoveredProtection(image, i.base, |image.sections|, k, page);
    assert image.sections[..|image.sections|] == image.sections;
    SaneSpace(c, initial, w, |w.images|);
    PageSafe(w.space, page);
  }

  lemma PageSafe(s: Space, page: nat)
    requires SpaceOk(s) && page in s.table
    ensures !(s.table[page].write && s.table[page].execute)
  {
    hide Apart, Holds, Aligned;
  }

  lemma FirstPage(image: PeImage, base: nat, k: nat) returns (page: nat)
    requires SectionsValid(image) && base % PAGE == 0 && k < |image.sections|
    ensures Covers(image, base, k, page)
    ensures Region(base + image.sections[k].address, PageUp(MappedSize(image.sections[k]))).Has(page)
  {
    page := (base + image.sections[k].address) / PAGE;
    assert MappedSize(image.sections[k]) != 0 && image.sections[k].address % PAGE == 0;
    hide SectionsValid;
  }

  /** A page has the protection of the section over it. */
  lemma {:induction false} CoveredProtection(image: PeImage, base: nat, n: nat, k: nat, page: nat)
    requires SectionsValid(image) && base % PAGE == 0 && k < n <= |image.sections| && Covers(image, base, k, page)
    ensures PageProtection(image.sections[..n], base, page, READ_ONLY)
         == Protection(image.sections[k].write, image.sections[k].execute)
    decreases n
  {
    hide SectionsValid, PageUp, Region.Has;
    var sections := image.sections[..n];
    assert sections[..n - 1] == image.sections[..n - 1];
    if k < n - 1 {
      CoveredOnce(image, base, k, n - 1, page);
      CoveredProtection(image, base, n - 1, k, page);
    }
  }

  // The plan of a loaded program.

  ghost function NamesOf(images: seq<UserImage>): set<Name> {
    set i | 0 <= i < |images| :: images[i].name
  }

  /** The order in which the images of a loaded program became ready. */
  ghost function PlanOf(w: World): Plan
    requires |w.rank| == |w.images|
  {
    Plan(map name | name in NamesOf(w.images) :: RankOf(w, name))
  }

  ghost function RankOf(w: World, name: Name): nat
    requires |w.rank| == |w.images|
  {
    var i := FindImage(w.images, name);
    if i < |w.images| then w.rank[i] else 0
  }

  lemma RankAt(w: World, i: nat)
    requires |w.rank| == |w.images| && NamesDistinct(w.images) && i < |w.images|
    ensures w.images[i].name in PlanOf(w).rank && PlanOf(w).rank[w.images[i].name] == w.rank[i]
    ensures FindImage(w.images, w.images[i].name) == i
  {
    FoundFirst(w.images, w.images[i].name, i);
  }

  lemma ImportProvided(c: Contents, initial: Space, w: World, i: nat, k: nat) returns (j: nat)
    requires Sane(c, initial, w, |w.images|) && i < |w.images| && w.images[i].state == Ready
    requires k < |c.imports(w.images[i].file, w.images[i].base).imports|
    ensures |w.rank| == |w.images| && NamesDistinct(w.images)
    ensures j < |w.images| && w.images[j].state == Ready && w.rank[j] < w.rank[i]
    ensures Exports(c, w.space, w.images[j], c.imports(w.images[i].file, w.images[i].base).imports[k])
  {
    hide SpaceOk, Protected, Unprotected, Exports;
    assert Finished(c, w, i) && UsesReady(w, i);
    var wanted := c.imports(w.images[i].file, w.images[i].base).imports[k];
    assert Provides(c, w.space, w.images, w.uses[i], wanted);
    j :| j in w.uses[i] && j < |w.images| && Exports(c, w.space, w.images[j], wanted);
  }

  lemma ModuleThere(c: Contents, o: Options, main: Program, name: Name)
    requires ModuleOk(c, o, main, name)
    ensures ImageOf(c, o, main, name).Some?
  {
    hide ImageOf;
  }

  lemma NamedAccepted(c: Contents, o: Options, main: Program, name: Name, file: File)
    requires ImageOf(c, o, main, name).Some? && FileOf(o, main, name) == Some(file)
    ensures file != [] && NameValid(name) && ImageAccepted(c, file, name == main.name)
    ensures c.parse(file) == Ok(ImageOf(c, o, main, name).value)
  {
    hide FindSource, InFile, ContractValid;
  }

  lemma AcceptedNamed(c: Contents, o: Options, main: Program, name: Name, file: File)
    requires FileOf(o, main, name) == Some(file) && file != [] && NameValid(name) && ImageAccepted(c, file, name == main.name)
    ensures ImageOf(c, o, main, name) == Some(c.parse(file).value)
  {
    hide FindSource, InFile, ContractValid;
  }

  lemma NamedThere(c: Contents, o: Options, main: Program, name: Name)
    requires ImageOf(c, o, main, name).Some?
    ensures FileOf(o, main, name).Some? && NameValid(name)
  {
    hide FindSource, ImageAccepted;
  }
}
