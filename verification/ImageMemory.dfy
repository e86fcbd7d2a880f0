/**
 * The bytes of a loaded image (kernel/pe/user_image.c): the file copied into its pages, relocated to
 * its base, with the addresses of its imports written in.
 */
module ImageMemory {
  import opened Status
  import opened Unicode
  import opened Layout
  import opened AddressSpaces
  import opened UserImages
  import opened Relocation

  // Copying and relocating.

  /** What the parser makes sure of: everything that is copied is in the file and inside the image. */
  predicate InFile(image: PeImage, file: File) {
    && image.headerSize <= |file| && image.headerSize <= image.size && image.entry < image.size
    && forall i :: 0 <= i < |image.sections| ==> SectionInFile(image, file, image.sections[i])
  }

  predicate SectionInFile(image: PeImage, file: File, s: Section) {
    && s.address + MappedSize(s) <= image.size
    && (s.rawSize != 0 ==> s.rawOffset + s.rawSize <= |file|)
  }

  /** Fresh pages with the headers and the first n sections copied in. */
  function Copied(image: PeImage, file: File, n: nat): (m: seq<byte>)
    requires InFile(image, file) && n <= |image.sections|
    ensures |m| == image.size
    decreases n
  {
    if n == 0 then Put(Zeros(image.size), 0, file[..image.headerSize])
    else
      var s := image.sections[n - 1];
      assert SectionInFile(image, file, s);
      if s.rawSize == 0 then Copied(image, file, n - 1)
      else Put(Copied(image, file, n - 1), s.address, file[s.rawOffset..s.rawOffset + s.rawSize])
  }

  /** The place so far into the image is one that the file has bytes for. */
  ghost predicate InRaw(image: PeImage, n: nat, b: nat)
    requires n <= |image.sections|
  {
    exists k :: 0 <= k < n && image.sections[k].address <= b < image.sections[k].address + image.sections[k].rawSize
  }

  ghost predicate SectionHeld(file: File, m: seq<byte>, s: Section) {
    && s.address + s.rawSize <= |m| && (s.rawSize != 0 ==> s.rawOffset + s.rawSize <= |file|)
    && (s.rawSize != 0 ==> m[s.address..s.address + s.rawSize] == file[s.rawOffset..s.rawOffset + s.rawSize])
  }

  /** The bytes of the headers and of the first n sections are the file's, and all others are zero. */
  ghost predicate HoldsParts(image: PeImage, file: File, m: seq<byte>, n: nat)
    requires n <= |image.sections|
  {
    && |m| == image.size && image.headerSize <= |file| && image.headerSize <= |m|
    && m[..image.headerSize] == file[..image.headerSize]
    && (forall k :: 0 <= k < n ==> SectionHeld(file, m, image.sections[k]))
    && forall b :: image.headerSize <= b < |m| && !InRaw(image, n, b) ==> m[b] == 0
  }

  /** A memory as the file says it is: its headers, every section at its address, and zeros between them. */
  ghost predicate HoldsFile(image: PeImage, file: File, m: seq<byte>) {
    HoldsParts(image, file, m, |image.sections|)
  }

  lemma PutOutside(m: seq<byte>, at: nat, s: seq<byte>, lo: nat, hi: nat)
    requires at + |s| <= |m| && lo <= hi <= |m| && (hi <= at || at + |s| <= lo)
    ensures Put(m, at, s)[lo..hi] == m[lo..hi]
  {
  }

  lemma PutInside(m: seq<byte>, at: nat, s: seq<byte>)
    requires at + |s| <= |m|
    ensures Put(m, at, s)[at..at + |s|] == s
  {
  }

  lemma SectionsApart(image: PeImage, i: nat, j: nat)
    requires SectionsValid(image) && j < i < |image.sections|
    ensures var s, t := image.sections[i], image.sections[j];
            && image.headerSize <= s.address
            && (s.address + s.rawSize <= t.address || t.address + t.rawSize <= s.address)
  {
    var s, t := image.sections[i], image.sections[j];
    assert s.address >= PageUp(image.headerSize);
    assert !(s.address < SectionEnd(t) && t.address < SectionEnd(s));
    UpIsUp(image.headerSize);
    UpIsUp(s.address + MappedSize(s));
    UpIsUp(t.address + MappedSize(t));
  }

  lemma UpIsUp(n: nat)
    ensures n <= PageUp(n)
  {
  }

  lemma HeadersBelow(image: PeImage, k: nat)
    requires SectionsValid(image) && k < |image.sections|
    ensures image.headerSize <= image.sections[k].address
  {
    UpIsUp(image.headerSize);
  }

  /** Copying one more section. */
  lemma PartsMore(image: PeImage, file: File, m: seq<byte>, n: nat)
    requires InFile(image, file) && SectionsValid(image) && n < |image.sections| && HoldsParts(image, file, m, n)
    ensures var s := image.sections[n];
            && s.address + s.rawSize <= |m| && (s.rawSize != 0 ==> s.rawOffset + s.rawSize <= |file|)
            && HoldsParts(image, file,
                          if s.rawSize == 0 then m else Put(m, s.address, file[s.rawOffset..s.rawOffset + s.rawSize]), n + 1)
  {
    hide SectionsValid, Put, InFile, InRaw, SectionHeld;
    var s := image.sections[n];
    InFileAt(image, file, n);
    var raw := if s.rawSize == 0 then [] else file[s.rawOffset..s.rawOffset + s.rawSize];
    var m' := if s.rawSize == 0 then m else Put(m, s.address, raw);
    HeadersBelow(image, n);
    if s.rawSize != 0 {
      PutOutside(m, s.address, raw, 0, image.headerSize);
      PutInside(m, s.address, raw);
    }
    forall k | 0 <= k < n
      ensures SectionHeld(file, m', image.sections[k])
    {
      SectionsApart(image, n, k);
      if s.rawSize != 0 {
        HeldStays(file, m, image.sections[k], s.address, raw);
      }
    }
    HeldNow(file, m', s);
    forall b | image.headerSize <= b < |m| && !InRaw(image, n + 1, b)
      ensures m'[b] == 0
    {
      RawMore(image, n, b);
      if s.rawSize != 0 {
        PutElsewhere(m, s.address, raw, b);
      }
    }
  }

  lemma InFileAt(image: PeImage, file: File, n: nat)
    requires InFile(image, file) && n < |image.sections|
    ensures var s := image.sections[n];
            s.address + s.rawSize <= image.size && (s.rawSize != 0 ==> s.rawOffset + s.rawSize <= |file|)
  {
    assert SectionInFile(image, file, image.sections[n]);
  }

  lemma HeldStays(file: File, m: seq<byte>, t: Section, at: nat, raw: seq<byte>)
    requires SectionHeld(file, m, t) && at + |raw| <= |m| && (t.address + t.rawSize <= at || at + |raw| <= t.address)
    ensures SectionHeld(file, Put(m, at, raw), t)
  {
    hide Put;
    PutOutside(m, at, raw, t.address, t.address + t.rawSize);
  }

  lemma HeldNow(file: File, m: seq<byte>, s: Section)
    requires s.address + s.rawSize <= |m| && (s.rawSize != 0 ==> s.rawOffset + s.rawSize <= |file|)
    requires s.rawSize != 0 ==> m[s.address..s.address + s.rawSize] == file[s.rawOffset..s.rawOffset + s.rawSize]
    ensures SectionHeld(file, m, s)
  {
  }

  lemma PutElsewhere(m: seq<byte>, at: nat, s: seq<byte>, b: nat)
    requires at + |s| <= |m| && b < |m| && !(at <= b < at + |s|)
    ensures Put(m, at, s)[b] == m[b]
  {
  }

  lemma RawMore(image: PeImage, n: nat, b: nat)
    requires n < |image.sections| && !InRaw(image, n + 1, b)
    ensures !InRaw(image, n, b) && !(image.sections[n].address <= b < image.sections[n].address + image.sections[n].rawSize)
  {
    forall k | 0 <= k < n
      ensures !(image.sections[k].address <= b < image.sections[k].address + image.sections[k].rawSize)
    {
    }
  }

  lemma {:induction false} CopiedParts(image: PeImage, file: File, n: nat)
    requires InFile(image, file) && SectionsValid(image) && n <= |image.sections|
    ensures HoldsParts(image, file, Copied(image, file, n), n)
    decreases n
  {
    hide SectionsValid, InFile, HoldsParts;
    if n == 0 {
      HeadersCopied(image, file);
    } else {
      CopiedParts(image, file, n - 1);
      PartsMore(image, file, Copied(image, file, n - 1), n - 1);
    }
  }

  lemma HeadersCopied(image: PeImage, file: File)
    requires InFile(image, file)
    ensures HoldsParts(image, file, Copied(image, file, 0), 0)
  {
    var m := Copied(image, file, 0);
    assert m[..image.headerSize] == file[..image.headerSize];
  }

  /** The file says what every byte is. */
  lemma HoldsOnce(image: PeImage, file: File, a: seq<byte>, b: seq<byte>)
    requires HoldsFile(image, file, a) && HoldsFile(image, file, b)
    ensures a == b
  {
    forall i | 0 <= i < |a|
      ensures a[i] == b[i]
    {
      if i < image.headerSize {
        assert a[i] == a[..image.headerSize][i] && b[i] == b[..image.headerSize][i];
      } else if InRaw(image, |image.sections|, i) {
        var k :| 0 <= k < |image.sections|
          && image.sections[k].address <= i < image.sections[k].address + image.sections[k].rawSize;
        var s := image.sections[k];
        assert SectionHeld(file, a, s) && SectionHeld(file, b, s);
        assert a[i] == a[s.address..s.address + s.rawSize][i - s.address];
        assert b[i] == b[s.address..s.address + s.rawSize][i - s.address];
      }
    }
  }

  /** Copying leaves what the file says. */
  lemma CopiedHolds(image: PeImage, file: File, m: seq<byte>)
    requires InFile(image, file) && SectionsValid(image)
    ensures HoldsFile(image, file, m) <==> m == Copied(image, file, |image.sections|)
  {
    hide SectionsValid, InFile, HoldsParts, Copied;
    CopiedParts(image, file, |image.sections|);
    if HoldsFile(image, file, m) {
      HoldsOnce(image, file, m, Copied(image, file, |image.sections|));
    }
  }

  function RelocationOf(image: PeImage): Image {
    Image(image.size, image.base, image.directory, image.directorySize)
  }

  function Prepared(image: PeImage, file: File, base: nat): (r: Checked<seq<byte>>)
    requires InFile(image, file)
    ensures r.Ok? ==> |r.value| == image.size
  {
    if base > MAX64 then Err(OutOfBounds)
    else
      var w := Relocate(RelocationOf(image), Copied(image, file, |image.sections|), base);
      if w.status.Failed() then Err(w.status) else Ok(w.mem)
  }

  /** Neither copying nor relocating ever says that memory is corrupt. */
  lemma {:induction false} EntriesStatus(mem: seq<byte>, size: nat, page: u32, at: nat, n: nat, delta: u64)
    requires at + 2 * n <= |mem| && size <= |mem|
    ensures WalkEntries(mem, size, page, at, n, delta).status != MemoryCorruption
    decreases n
  {
    hide EntryAt, AddAt;
    if n > 0 {
      match Classify(EntryAt(mem, at), page, size)
      case Refuse(why) =>
      case Nothing => EntriesStatus(mem, size, page, at + 2, n - 1, delta);
      case Fix(t) => EntriesStatus(AddAt(mem, t, delta), size, page, at + 2, n - 1, delta);
    }
  }

  lemma {:induction false} BlocksStatus(mem: seq<byte>, size: nat, cursor: nat, end: nat, delta: u64)
    requires cursor <= end <= |mem| && size <= |mem|
    ensures WalkBlocks(mem, size, cursor, end, delta).status != MemoryCorruption
    decreases end - cursor
  {
    hide WalkEntries;
    if cursor + 8 <= end {
      var page, blockSize := WordAt(mem, cursor), WordAt(mem, cursor + 4);
      if BlockFits(blockSize, end - cursor) {
        var entries := WalkEntries(mem, size, page, cursor + 8, (blockSize - 8) / 2, delta);
        EntriesStatus(mem, size, page, cursor + 8, (blockSize - 8) / 2, delta);
        if entries.status.Ok() {
          BlocksStatus(entries.mem, size, cursor + blockSize, end, delta);
        }
      }
    }
  }

  lemma PreparedStatus(image: PeImage, file: File, base: nat)
    requires InFile(image, file)
    ensures Prepared(image, file, base).Err? ==> Prepared(image, file, base).status != MemoryCorruption
  {
    hide InFile, WalkBlocks, Copied;
    var i, mem := RelocationOf(image), Copied(image, file, |image.sections|);
    if base <= MAX64 && base != i.base && DirectoryUsable(i) {
      BlocksStatus(mem, i.size, i.directory, i.directory + i.directorySize, Delta(i.base, base));
    }
  }

  // Binding.

  /** The address that an import is bound to: that of its symbol in the image of the name it gives. */
  function AddressOf(c: Contents, images: seq<UserImage>, wanted: Import): Option<u64> {
    var j := FindImage(images, wanted.from);
    if j == |images| then None
    else
      var e := c.exported(images[j].file, images[j].base, wanted);
      if e.Err? || images[j].base + e.value > MAX64 then None else Some(images[j].base + e.value)
  }

  /** A memory with the addresses of the first n imports written into their slots. */
  function Patched(c: Contents, images: seq<UserImage>, mem: seq<byte>, imports: seq<Import>, n: nat): (m: seq<byte>)
    requires n <= |imports|
    ensures |m| == |mem|
    decreases n
  {
    if n == 0 then mem
    else
      var front := Patched(c, images, mem, imports, n - 1);
      var address := AddressOf(c, images, imports[n - 1]);
      if address.None? || imports[n - 1].slot + 8 > |mem| then front
      else Bind(front, imports[n - 1].slot, address.value)
  }

  /** The bytes that a ready image must have. */
  ghost predicate Filled(c: Contents, images: seq<UserImage>, i: UserImage, memory: seq<byte>) {
    && c.parse(i.file).Ok? && InFile(c.parse(i.file).value, i.file)
    && var prepared := Prepared(c.parse(i.file).value, i.file, i.base);
       var imports := c.imports(i.file, i.base).imports;
       && prepared.Ok? && memory == Patched(c, images, prepared.value, imports, |imports|)
       && forall k :: 0 <= k < |imports| ==> imports[k].slot + 8 <= |memory|
  }

  /** Ready images have the bytes they must have. */
  ghost predicate Remembers(c: Contents, images: seq<UserImage>, memory: seq<seq<byte>>) {
    && |memory| == |images|
    && forall i :: 0 <= i < |images| && images[i].state == Ready ==> Filled(c, images, images[i], memory[i])
  }

  lemma {:induction false} FoundFirst(images: seq<UserImage>, name: Name, j: nat)
    requires j < |images| && images[j].name == name && forall i :: 0 <= i < j ==> images[i].name != name
    ensures FindImage(images, name) == j
  {
  }

  /** An import that some image provides keeps its address when images are added. */
  lemma AddressStays(c: Contents, s: Space, images: seq<UserImage>, later: seq<UserImage>, uses: set<nat>, wanted: Import)
    requires Provides(c, s, images, uses, wanted) && |images| <= |later| && NamesDistinct(images) && NamesDistinct(later)
    requires forall j :: 0 <= j < |images| && j in uses ==> SameFile(later[j], images[j])
    ensures AddressOf(c, later, wanted) == AddressOf(c, images, wanted)
  {
    hide Exports;
    var j :| j in uses && j < |images| && Exports(c, s, images[j], wanted);
    assert images[j].name == wanted.from by { ExportsName(c, s, images[j], wanted); }
    FoundFirst(images, wanted.from, j);
    FoundFirst(later, wanted.from, j);
  }

  lemma ExportsName(c: Contents, s: Space, i: UserImage, wanted: Import)
    requires Exports(c, s, i, wanted)
    ensures i.name == wanted.from
  {
  }

  lemma {:induction false} PatchedStays(
      c: Contents, s: Space, images: seq<UserImage>, later: seq<UserImage>, uses: set<nat>,
      mem: seq<byte>, imports: seq<Import>, n: nat)
    requires n <= |imports| && |images| <= |later| && NamesDistinct(images) && NamesDistinct(later)
    requires forall k :: 0 <= k < n ==> Provides(c, s, images, uses, imports[k])
    requires forall j :: 0 <= j < |images| && j in uses ==> SameFile(later[j], images[j])
    ensures Patched(c, later, mem, imports, n) == Patched(c, images, mem, imports, n)
    decreases n
  {
    hide Provides, AddressOf;
    if n > 0 {
      PatchedStays(c, s, images, later, uses, mem, imports, n - 1);
      AddressStays(c, s, images, later, uses, imports[n - 1]);
    }
  }

  /** Ready images keep their bytes while other images are added, placed or bound. */
  lemma RemembersStay(
      c: Contents, initial: Space, w: World, held: nat, later: seq<UserImage>, was: seq<seq<byte>>, now: seq<seq<byte>>)
    requires Sane(c, initial, w, held) && Remembers(c, w.images, was)
    requires |w.images| <= |later| == |now| && NamesDistinct(later)
    requires forall j :: 0 <= j < |w.images| && w.images[j].state == Ready ==> later[j] == w.images[j] && now[j] == was[j]
    requires forall j :: 0 <= j < |later| && later[j].state == Ready ==> j < |w.images| && w.images[j].state == Ready
    ensures Remembers(c, later, now)
  {
    hide SpaceOk, Protected, Unprotected, Patched, Prepared, InFile, Provides;
    forall i | 0 <= i < |later| && later[i].state == Ready
      ensures Filled(c, later, later[i], now[i])
    {
      var u := w.images[i];
      assert Finished(c, w, i) && Filled(c, w.images, u, was[i]) && UsesReady(w, i);
      var imports := c.imports(u.file, u.base).imports;
      PatchedStays(c, w.space, w.images, later, w.uses[i], Prepared(c.parse(u.file).value, u.file, u.base).value, imports, |imports|);
    }
  }

  /** An image that has its bytes becomes ready. */
  lemma RemembersMore(c: Contents, initial: Space, w: World, me: nat, memory: seq<seq<byte>>)
    requires Sane(c, initial, w, |w.images|) && Remembers(c, w.images, memory) && me < |w.images| && w.images[me].state == Loading
    requires |w.uses| == |w.images| && Filled(c, w.images, w.images[me], memory[me])
    requires Bound(c, w.space, w.images, w.images[me], w.uses[me], |c.imports(w.images[me].file, w.images[me].base).imports|)
    ensures Remembers(c, w.images[me := w.images[me].(state := Ready)], memory)
  {
    hide SpaceOk, Protected, Unprotected, Patched, Prepared, InFile, Provides;
    var later := w.images[me := w.images[me].(state := Ready)];
    forall i | 0 <= i < |later| && later[i].state == Ready
      ensures Filled(c, later, later[i], memory[i])
    {
      var u := w.images[i];
      assert i != me ==> Finished(c, w, i);
      assert Filled(c, w.images, u, memory[i]);
      var imports := c.imports(u.file, u.base).imports;
      PatchedStays(c, w.space, w.images, later, w.uses[i], Prepared(c.parse(u.file).value, u.file, u.base).value, imports, |imports|);
    }
  }

  /** Writing the address of one more import. */
  lemma PatchOne(c: Contents, initial: Space, w: World, v: World, me: nat, start: seq<byte>, imports: seq<Import>, k: nat)
    requires Sane(c, initial, w, |w.images|) && Sane(c, initial, v, |v.images|) && me < |w.images| <= |v.images| && |w.uses| == |w.images|
    requires forall j :: 0 <= j < |w.images| ==> v.images[j] == w.images[j]
    requires imports == c.imports(w.images[me].file, w.images[me].base).imports && k < |imports|
    requires Bound(c, w.space, w.images, w.images[me], w.uses[me], k)
    requires AddressOf(c, v.images, imports[k]).Some? && imports[k].slot + 8 <= |start|
    ensures Patched(c, v.images, start, imports, k + 1)
         == Bind(Patched(c, w.images, start, imports, k), imports[k].slot, AddressOf(c, v.images, imports[k]).value)
  {
    hide SpaceOk, Finished, Unprotected, UsesReady, Provides, AddressOf;
    PatchedStays(c, w.space, w.images, v.images, w.uses[me], start, imports, k);
  }

  function Bind(mem: seq<byte>, slot: nat, address: u64): (m: seq<byte>)
    requires slot + 8 <= |mem|
    ensures |m| == |mem|
  {
    Put(mem, slot, LE(8, address))
  }

  // What the bytes are.

  ghost predicate InSlot(imports: seq<Import>, n: nat, b: int)
    requires n <= |imports|
  {
    exists k :: 0 <= k < n && imports[k].slot <= b < imports[k].slot + 8
  }

  lemma {:induction false} OutsideSlots(c: Contents, images: seq<UserImage>, mem: seq<byte>, imports: seq<Import>, n: nat, b: nat)
    requires n <= |imports| && b < |mem| && !InSlot(imports, n, b)
    ensures Patched(c, images, mem, imports, n)[b] == mem[b]
    decreases n
  {
    hide AddressOf;
    if n > 0 {
      forall k | 0 <= k < n - 1
        ensures !(imports[k].slot <= b < imports[k].slot + 8)
      {
      }
      assert !(imports[n - 1].slot <= b < imports[n - 1].slot + 8);
      OutsideSlots(c, images, mem, imports, n - 1, b);
    }
  }

  ghost predicate SlotsApart(imports: seq<Import>) {
    forall i, j :: 0 <= i < j < |imports| ==>
      imports[i].slot + 8 <= imports[j].slot || imports[j].slot + 8 <= imports[i].slot
  }

  /** Of slots that do not overlap, each holds the address of its import. */
  lemma {:induction false} SlotsHold(c: Contents, images: seq<UserImage>, mem: seq<byte>, imports: seq<Import>, n: nat, k: nat)
    requires k < n <= |imports| && SlotsApart(imports) && imports[k].slot + 8 <= |mem| && AddressOf(c, images, imports[k]).Some?
    ensures QwordAt(Patched(c, images, mem, imports, n), imports[k].slot) == AddressOf(c, images, imports[k]).value
    decreases n
  {
    hide AddressOf, LE, U64;
    var front := Patched(c, images, mem, imports, n - 1);
    var slot := imports[k].slot;
    if k == n - 1 {
      var address := AddressOf(c, images, imports[k]).value;
      assert Bind(front, slot, address)[slot..slot + 8] == LE(8, address);
      RoundTrip64(address);
    } else {
      SlotsHold(c, images, mem, imports, n - 1, k);
      var all := Patched(c, images, mem, imports, n);
      assert all[slot..slot + 8] == front[slot..slot + 8];
    }
  }

  /** No import slot overlaps the qword at t. */
  ghost predicate Avoided(imports: seq<Import>, t: nat) {
    forall k :: 0 <= k < |imports| ==> imports[k].slot + 8 <= t || t + 8 <= imports[k].slot
  }

  /** The first image with the name that an import wants exports its symbol at an address. */
  ghost predicate Locates(c: Contents, images: seq<UserImage>, wanted: Import, address: u64) {
    exists j :: 0 <= j < |images| && ExportedBy(c, images[j], wanted, address)
      && forall i :: 0 <= i < j ==> images[i].name != wanted.from
  }

  ghost predicate ExportedBy(c: Contents, i: UserImage, wanted: Import, address: u64) {
    i.name == wanted.from && i.base <= address && c.exported(i.file, i.base, wanted) == Ok(address - i.base)
  }

  lemma LocatedAt(c: Contents, images: seq<UserImage>, wanted: Import, address: u64)
    requires Locates(c, images, wanted, address)
    ensures AddressOf(c, images, wanted) == Some(address)
  {
    var j :| 0 <= j < |images| && ExportedBy(c, images[j], wanted, address) && forall i :: 0 <= i < j ==> images[i].name != wanted.from;
    assert FindImage(images, wanted.from) == j;
  }

  /** The address of the symbol that an import wants is in its slot, if slots do not overlap. */
  ghost predicate SlotsBound(c: Contents, images: seq<UserImage>, imports: seq<Import>, memory: seq<byte>) {
    SlotsApart(imports) ==>
      forall k, address: u64 :: 0 <= k < |imports| && Locates(c, images, imports[k], address) ==>
        imports[k].slot + 8 <= |memory| && QwordAt(memory, imports[k].slot) == address
  }

  /**
   * Let a memory hold what the file says. In a loaded image every relocation target then holds what
   * that memory does, moved by the distance from the preferred base; every import slot holds the
   * address of its symbol; and every other byte is that memory's.
   */
  lemma LoadedBytes(c: Contents, images: seq<UserImage>, i: UserImage, memory: seq<byte>, raw: seq<byte>)
    requires Filled(c, images, i, memory)
    requires var image := c.parse(i.file).value;
             SectionsValid(image) && HoldsFile(image, i.file, raw) && WellPlaced(RelocationOf(image), raw)
    ensures var image := c.parse(i.file).value;
            var imports := c.imports(i.file, i.base).imports;
            && |memory| == |raw| && image.directory + image.directorySize <= |raw|
            && var targets := TargetsOf(RelocationOf(image), raw);
               && Relocation.InRange(targets, |raw|)
               && (forall k :: 0 <= k < |targets| && Avoided(imports, targets[k]) ==>
                     QwordAt(memory, targets[k]) == (QwordAt(raw, targets[k]) + (i.base - image.base)) % WORD)
               && SlotsBound(c, images, imports, memory)
               && (forall b :: 0 <= b < |raw| && !Covered(targets, b) && !InSlot(imports, |imports|, b) ==> memory[b] == raw[b])
  {
    hide InFile, Copied, Patched, AddressOf, ParseBlocks, WalkBlocks, WellPlaced, HoldsFile, SectionsValid, SlotsBound;
    hide QwordAt, Covered, Avoided, InSlot;
    var image := c.parse(i.file).value;
    CopiedHolds(image, i.file, raw);
    var imports := c.imports(i.file, i.base).imports;
    var moved := Prepared(image, i.file, i.base).value;
    RelocateExact(RelocationOf(image), raw, i.base);
    var targets := TargetsOf(RelocationOf(image), raw);
    forall k | 0 <= k < |targets| && Avoided(imports, targets[k])
      ensures QwordAt(memory, targets[k]) == (QwordAt(raw, targets[k]) + (i.base - image.base)) % WORD
    {
      AvoidedQword(c, images, moved, imports, targets[k]);
    }
    AllSlotsHold(c, images, moved, imports);
    forall b | 0 <= b < |raw| && !Covered(targets, b) && !InSlot(imports, |imports|, b)
      ensures memory[b] == raw[b]
    {
      OutsideSlots(c, images, moved, imports, |imports|, b);
    }
  }

  lemma AllSlotsHold(c: Contents, images: seq<UserImage>, mem: seq<byte>, imports: seq<Import>)
    requires forall k :: 0 <= k < |imports| ==> imports[k].slot + 8 <= |mem|
    ensures SlotsBound(c, images, imports, Patched(c, images, mem, imports, |imports|))
  {
    hide AddressOf, Patched, QwordAt, Locates;
    if SlotsApart(imports) {
      forall k, address: u64 | 0 <= k < |imports| && Locates(c, images, imports[k], address)
        ensures QwordAt(Patched(c, images, mem, imports, |imports|), imports[k].slot) == address
      {
        LocatedAt(c, images, imports[k], address);
        SlotsHold(c, images, mem, imports, |imports|, k);
      }
    }
  }

  /** At its preferred base an image holds what the file says, with the addresses of its imports in their slots. */
  lemma LoadedAtHome(c: Contents, images: seq<UserImage>, i: UserImage, memory: seq<byte>, raw: seq<byte>)
    requires Filled(c, images, i, memory) && i.base == c.parse(i.file).value.base
    requires SectionsValid(c.parse(i.file).value) && HoldsFile(c.parse(i.file).value, i.file, raw)
    ensures var imports := c.imports(i.file, i.base).imports;
            && |memory| == |raw| && SlotsBound(c, images, imports, memory)
            && forall b :: 0 <= b < |raw| && !InSlot(imports, |imports|, b) ==> memory[b] == raw[b]
  {
    hide InFile, Copied, Patched, AddressOf, HoldsFile, SectionsValid, SlotsBound, InSlot;
    CopiedHolds(c.parse(i.file).value, i.file, raw);
    var imports := c.imports(i.file, i.base).imports;
    AllSlotsHold(c, images, raw, imports);
    forall b | 0 <= b < |raw| && !InSlot(imports, |imports|, b)
      ensures memory[b] == raw[b]
    {
      OutsideSlots(c, images, raw, imports, |imports|, b);
    }
  }

  lemma AvoidedQword(c: Contents, images: seq<UserImage>, mem: seq<byte>, imports: seq<Import>, t: nat)
    requires t + 8 <= |mem| && Avoided(imports, t)
    ensures QwordAt(Patched(c, images, mem, imports, |imports|), t) == QwordAt(mem, t)
  {
    hide Patched, U64;
    var all := Patched(c, images, mem, imports, |imports|);
    forall b | t <= b < t + 8
      ensures all[b] == mem[b]
    {
      OutsideSlots(c, images, mem, imports, |imports|, b);
    }
    assert all[t..t + 8] == mem[t..t + 8];
  }
}
