/** The recursive loader itself (kernel/pe/user_image.c), and what a load leaves behind. */
module ImageLoader {
  import opened Status
  import opened Unicode
  import opened Layout
  import opened AddressSpaces
  import opened UserImages
  import opened ImageMemory
  import opened ProgramPlans
  import opened ProgramTours
  import opened ProgramHomes

  // Unloading.

  /** The space is the initial one followed by the regions of the images. */
  ghost predicate Stacked(initial: Space, images: seq<UserImage>, s: Space) {
    && SpaceOk(s)
    && s.regions == initial.regions + RegionsOf(images)
    && (forall p: nat :: p in initial.table ==> p in s.table && s.table[p] == initial.table[p])
  }

  ghost predicate SameMappings(a: Space, b: Space) {
    a.regions == b.regions && a.table == b.table
  }

  lemma StackedNothing(initial: Space, s: Space)
    requires SpaceOk(initial) && Stacked(initial, [], s)
    ensures SameMappings(initial, s)
  {
    hide Touch, Region.Has, Aligned;
    assert s.regions == initial.regions;
    assert forall p: nat :: p in s.table <==> p in initial.table;
  }

  lemma StackedPop(initial: Space, images: seq<UserImage>, s: Space)
    requires SpaceOk(initial) && images != [] && Stacked(initial, images, s)
    ensures var last := images[|images| - 1];
            var c := UnmapOwned(s, last.base, last.size);
            && last.base != 0 && last.size != 0
            && c.status == Success && Stacked(initial, images[..|images| - 1], c.space)
  {
    hide SpaceOk, UnmapOwned, Region.Has;
    var n := |images| - 1;
    var last, front := images[n], images[..n];
    var r := RegionOf(last);
    assert RegionsOf(images) == RegionsOf(front) + [r];
    assert s.regions == (initial.regions + RegionsOf(front)) + [r];
    UnmapLast(s, initial.regions + RegionsOf(front), r);
    LastAligned(s, |initial.regions| + n, r);
    var t := UnmapOwned(s, last.base, last.size).space;
    forall p: nat | p in initial.table
      ensures p in t.table && t.table[p] == initial.table[p]
    {
      InitialNotLast(initial, s, |initial.regions| + n, p);
    }
  }

  lemma LastAligned(s: Space, k: nat, r: Region)
    requires SpaceOk(s) && k < |s.regions| && s.regions[k] == r
    ensures r.base != 0 && r.size != 0
  {
    hide Touch, Region.Has;
    assert Aligned(s.regions[k]);
  }

  lemma InitialNotLast(initial: Space, s: Space, k: nat, page: nat)
    requires SpaceOk(initial) && SpaceOk(s) && |initial.regions| <= k < |s.regions| && page in initial.table
    requires s.regions[..|initial.regions|] == initial.regions
    ensures !s.regions[k].Has(page)
  {
    hide Touch, Region.Has, Aligned;
    var i :| 0 <= i < |initial.regions| && initial.regions[i].Has(page);
    assert s.regions[i] == initial.regions[i];
    PageInOne(s, i, k, page);
  }

  lemma SaneStacked(c: Contents, initial: Space, w: World, held: nat)
    requires Sane(c, initial, w, held)
    ensures held <= |w.images| && Stacked(initial, w.images[..held], w.space)
  {
    hide SpaceOk, Finished, UsesReady;
  }

  /** No region is exactly a range that is free. */
  lemma FreeNotMapped(s: Space, base: nat, size: nat)
    requires IsFree(s.regions, Region(base, size)) && size != 0 && size % PAGE == 0
    ensures UnmapOwned(s, base, size) == Change(NotFound, s)
  {
    var r := Region(base, size);
    forall i | 0 <= i < |s.regions|
      ensures s.regions[i] != r
    {
      assert !Touch(r, s.regions[i]);
    }
  }

  /** All images are mapped, or all but a last one that has no base. */
  ghost predicate Rollable(initial: Space, images: seq<UserImage>, s: Space) {
    || Stacked(initial, images, s)
    || (images != [] && Stacked(initial, images[..|images| - 1], s) && images[|images| - 1].base == 0)
  }

  /** The one image there is has a base but is not mapped there. */
  ghost predicate Stuck(initial: Space, images: seq<UserImage>, s: Space) {
    && |images| == 1 && Stacked(initial, [], s) && images[0].base != 0 && images[0].size != 0 && images[0].size % PAGE == 0
    && IsFree(s.regions, RegionOf(images[0]))
  }

  /** What a failed load leaves behind can be unloaded, but for the image it may be stuck with. */
  ghost predicate LeftOver(initial: Space, w: World, stuck: bool) {
    && |w.uses| == |w.rank| == |w.images|
    && if stuck then Stuck(initial, w.images, w.space) else Rollable(initial, w.images, w.space)
  }

  lemma NothingAbandoned(c: Contents, initial: Space, w: World)
    requires Sane(c, initial, w, |w.images|)
    ensures LeftOver(initial, w, false)
  {
    hide Sane, Stacked;
    SaneStacked(c, initial, w, |w.images|);
    SaneSpace(c, initial, w, |w.images|);
    assert w.images[..|w.images|] == w.images;
  }

  lemma NotBoth(initial: Space, images: seq<UserImage>, s: Space)
    requires Stuck(initial, images, s)
    ensures !Stacked(initial, images, s)
  {
    hide SpaceOk, IsFree;
    assert |RegionsOf(images)| == 1 && |RegionsOf([])| == 0;
  }

  /**
   * Unloads images from the last to the first. It stops early exactly when the last image has a base
   * but is not mapped there, and then nothing else is mapped either.
   */
  method Unload(ghost initial: Space, images0: seq<UserImage>, space0: Space)
    returns (status: Status, images: seq<UserImage>, space: Space)
    requires SpaceOk(initial) && (Rollable(initial, images0, space0) || Stuck(initial, images0, space0))
    ensures SameMappings(initial, space)
    ensures status == if Stuck(initial, images0, space0) then NotFound else Success
    ensures status == if Rollable(initial, images0, space0) then Success else NotFound
    ensures status == NotFound <==>
      !Stacked(initial, images0, space0) && images0 != [] && images0[|images0| - 1].base != 0
    ensures images == if status == Success then [] else images0
  {
    hide Stacked, SameMappings, IsFree, SpaceOk;
    images, space := images0, space0;
    if Stuck(initial, images0, space0) {
      NotBoth(initial, images0, space0);
      StackedNothing(initial, space0);
    }
    while images != []
      invariant if Stuck(initial, images0, space0) then images == images0 && space == space0 else Rollable(initial, images, space)
      decreases |images|
    {
      var last := images[|images| - 1];
      if Stuck(initial, images0, space0) {
        FreeNotMapped(space, last.base, last.size);
      } else if Stacked(initial, images, space) {
        StackedPop(initial, images, space);
      }
      if last.base != 0 && last.size != 0 {
        var change := UnmapOwned(space, last.base, last.size);
        if change.status.Failed() {
          return NotFound, images, space;
        }
        space := change.space;
      }
      images := images[..|images| - 1];
    }
    StackedNothing(initial, space);
    status := Success;
  }

  /** The state as its first n images saw it. */
  function Take(w: World, n: nat): World
    requires n <= |w.images| == |w.uses| == |w.rank|
  {
    World(w.images[..n], w.space, w.uses[..n], w.rank[..n], w.clock)
  }

  lemma TakeExtends(u: World, v: World, w: World, n: nat)
    requires |u.images| == |u.uses| == |u.rank| == n <= |v.images| == |v.uses| == |v.rank|
    requires Extends(u, v) && Extends(Take(v, n), w)
    ensures Extends(u, w)
  {
  }

  lemma ExtendsTake(v: World, w: World, n: nat)
    requires |v.images| == |v.uses| == |v.rank| && n <= |v.images| && Extends(v, w)
    ensures Extends(Take(v, n), w)
  {
  }

  lemma TakeTrans(u: World, v: World, w: World, n: nat)
    requires |u.images| == |u.uses| == |u.rank| && |v.images| == |v.uses| == |v.rank|
    requires n <= |u.images| && n <= |v.images|
    requires Extends(Take(u, n), v) && Extends(Take(v, n), w)
    ensures Extends(Take(u, n), w)
  {
  }

  lemma TakeSelf(w: World, n: nat)
    requires n <= |w.images| == |w.uses| == |w.rank|
    ensures Extends(Take(w, n), w)
  {
  }

  /** What was mapped before an image lies outside the region of the image. */
  lemma EarlierOutside(c: Contents, initial: Space, w: World, v: World, me: nat, page: nat)
    requires SpaceOk(initial) && Sane(c, initial, w, |w.images|) && Sane(c, initial, v, |v.images|)
    requires Extends(w, v) && me == |w.images| < |v.images| && page in w.space.table
    ensures !RegionOf(v.images[me]).Has(page)
  {
    hide Sane, Region.Has;
    SaneSpace(c, initial, w, |w.images|);
    SaneSpace(c, initial, v, |v.images|);
    HeldRegion(c, initial, v, me);
    var k := RegionHolding(c, initial, w, page);
    SameRegion(c, initial, w, v, k);
    PageInOne(v.space, k, |initial.regions| + me, page);
  }

  lemma RegionHolding(c: Contents, initial: Space, w: World, page: nat) returns (k: nat)
    requires Sane(c, initial, w, |w.images|) && page in w.space.table
    ensures k < |w.space.regions| == |initial.regions| + |w.images| && w.space.regions[k].Has(page)
  {
    hide Finished, UsesReady, Region.Has;
    k :| 0 <= k < |w.space.regions| && w.space.regions[k].Has(page);
  }

  lemma SameRegion(c: Contents, initial: Space, w: World, v: World, k: nat)
    requires Sane(c, initial, w, |w.images|) && Sane(c, initial, v, |v.images|) && Extends(w, v)
    requires k < |w.space.regions|
    ensures k < |v.space.regions| && v.space.regions[k] == w.space.regions[k]
  {
    hide Finished, UsesReady, SpaceOk;
    assert w.images[..|w.images|] == w.images && v.images[..|v.images|] == v.images;
    assert forall i :: 0 <= i < |w.images| ==> v.images[i] == w.images[i];
  }

  lemma FinishExtends(c: Contents, initial: Space, w: World, v: World, me: nat, space: Space)
    requires SpaceOk(initial) && Sane(c, initial, w, |w.images|) && Sane(c, initial, v, |v.images|)
    requires Extends(w, v) && me == |w.images| < |v.images|
    requires forall page: nat :: page in v.space.table && !RegionOf(v.images[me]).Has(page) ==>
      page in space.table && space.table[page] == v.space.table[page]
    ensures |v.rank| == |v.images| && Extends(w, Finish(v, me, space))
  {
    hide Sane, Region.Has;
    SaneSpace(c, initial, w, |w.images|);
    SaneSpace(c, initial, v, |v.images|);
    forall page: nat | page in w.space.table
      ensures page in space.table && space.table[page] == w.space.table[page]
    {
      EarlierOutside(c, initial, w, v, me, page);
    }
  }

  // The steps that fail.

  lemma NotOnlyPreferred(image: PeImage, o: Options, s: Space, isMain: bool)
    requires ContractValid(image, isMain) && OptionsValid(o) && SelectBase(image, o, s, isMain).status.Ok()
    ensures !OnlyPreferred(image, o, s, isMain)
  {
    hide SelectBase, OnlyPreferred, ContractValid, OptionsValid;
    FailedChoiceExactly(image, o, s, isMain);
  }

  /** A refused mapping may use up an answer of the allocator, and nothing else. */
  lemma RefusedMap(s: Space, base: nat, size: nat, p: Protection)
    requires SpaceOk(s) && MapOwned(s, base, size, p).status.Failed()
    ensures var t := MapOwned(s, base, size, p).space;
            t.regions == s.regions && t.table == s.table && SpaceOk(t)
  {
    hide Touch, Aligned, Region.Has;
  }

  /** Protecting an image leaves the stack of regions as it is, whether or not it succeeds. */
  lemma ProtectingStacked(c: Contents, initial: Space, w: World, me: nat, image: PeImage)
    requires SpaceOk(initial) && Sane(c, initial, w, |w.images|) && me < |w.images|
    requires SectionsValid(image) && image.size == w.images[me].size
    ensures Stacked(initial, w.images, ProtectImage(w.space, w.images[me].base, image).space)
    ensures ProtectImage(w.space, w.images[me].base, image).space.luck == w.space.luck
    ensures ProtectImage(w.space, w.images[me].base, image).space.regions == w.space.regions
  {
    hide SpaceOk, Sane, ProtectImage, SectionsValid, Region.Has;
    SaneSpace(c, initial, w, |w.images|);
    SaneStacked(c, initial, w, |w.images|);
    assert w.images[..|w.images|] == w.images;
    HeldRegion(c, initial, w, me);
    AlignedBase(RegionOf(w.images[me]));
    ImageProtected(w.space, w.images[me].base, image);
    forall p: nat | p in initial.table
      ensures var t := ProtectImage(w.space, w.images[me].base, image).space.table;
              p in t && t[p] == initial.table[p]
    {
      InitialOutside(c, initial, w, me, p);
      ImageOutside(w.space, w.images[me].base, image, p);
    }
  }

  /** And it changes no page that was mapped before the image. */
  lemma ProtectingExtends(c: Contents, initial: Space, w: World, v: World, me: nat, image: PeImage)
    requires SpaceOk(initial) && Sane(c, initial, w, |w.images|) && Sane(c, initial, v, |v.images|)
    requires Extends(w, v) && me == |w.images| < |v.images|
    requires SectionsValid(image) && image.size == v.images[me].size
    ensures Extends(w, v.(space := ProtectImage(v.space, v.images[me].base, image).space))
  {
    hide Sane, Region.Has, ProtectImage, SectionsValid, SpaceOk;
    SaneSpace(c, initial, v, |v.images|);
    HeldRegion(c, initial, v, me);
    AlignedBase(RegionOf(v.images[me]));
    forall page: nat | page in w.space.table
      ensures var t := ProtectImage(v.space, v.images[me].base, image).space.table;
              page in t && t[page] == w.space.table[page]
    {
      EarlierOutside(c, initial, w, v, me, page);
      ImageOutside(v.space, v.images[me].base, image, page);
    }
  }

  lemma ExtendsItself(w: World)
    ensures Extends(w, w)
  {
  }

  lemma StackedAbandoned(initial: Space, w: World)
    requires Stacked(initial, w.images, w.space) && |w.uses| == |w.rank| == |w.images|
    ensures LeftOver(initial, w, false)
  {
    hide Stacked;
  }

  lemma LeftOverSizes(initial: Space, w: World, stuck: bool)
    requires LeftOver(initial, w, stuck)
    ensures |w.uses| == |w.rank| == |w.images|
  {
    hide Stuck, Rollable;
  }

  /** A last image that was not mapped, after images that are. */
  lemma UnmappedAbandoned(initial: Space, w: World)
    requires w.images != [] && Stacked(initial, w.images[..|w.images| - 1], w.space) && |w.uses| == |w.rank| == |w.images|
    requires var last := w.images[|w.images| - 1];
             last.base == 0 || (|w.images| == 1 && last.size != 0 && last.size % PAGE == 0 && IsFree(w.space.regions, RegionOf(last)))
    ensures LeftOver(initial, w, w.images[|w.images| - 1].base != 0)
  {
    hide Stacked, IsFree;
    if |w.images| == 1 {
      assert w.images[..0] == [];
    }
  }

  lemma SameStacked(initial: Space, images: seq<UserImage>, s: Space, t: Space)
    requires Stacked(initial, images, s) && t.regions == s.regions && t.table == s.table && SpaceOk(t)
    ensures Stacked(initial, images, t)
  {
    hide SpaceOk;
  }

  /** What happens to the last image is no concern of the images before it. */
  lemma LastExtends(u: World, w: World, v: World)
    requires Extends(u, w) && |u.images| + 1 == |w.images| == |v.images|
    requires v.images[..|u.images|] == w.images[..|u.images|]
    requires v.uses == w.uses && v.rank == w.rank && v.clock == w.clock
    requires forall p: nat :: p in w.space.table ==> p in v.space.table && v.space.table[p] == w.space.table[p]
    ensures Extends(u, v)
  {
  }

  lemma ExtendsPrefix(w: World, v: World)
    requires Extends(w, v)
    ensures |w.images| <= |v.images| && v.images[..|w.images|] == w.images
  {
  }

  lemma ExtendsFacts(w: World, v: World)
    requires Extends(w, v)
    ensures |w.images| <= |v.images| && |w.uses| <= |v.uses| && |w.rank| <= |v.rank|
    ensures forall j :: 0 <= j < |w.images| ==> v.images[j] == w.images[j]
    ensures forall j :: 0 <= j < |w.uses| ==> v.uses[j] == w.uses[j]
  {
  }

  lemma ProvidedBy(c: Contents, s: Space, images: seq<UserImage>, uses: set<nat>, wanted: Import, j: nat)
    requires j in uses && j < |images| && Exports(c, s, images[j], wanted)
    ensures Provides(c, s, images, uses, wanted)
  {
  }

  lemma UseExtends(u: World, w: World, v: World, me: nat)
    requires |u.images| == |u.uses| == |u.rank| && me < |u.images| && me < |w.uses|
    requires Extends(Take(u, me), w) && v.images == w.images && v.space == w.space && v.rank == w.rank && v.clock == w.clock
    requires |v.uses| == |w.uses| && v.uses == w.uses[me := v.uses[me]]
    ensures Extends(Take(u, me), v)
  {
  }

  lemma BoundMore(c: Contents, w: World, v: World, me: nat, k: nat)
    requires me < |w.images| == |w.uses| && me < |v.images| == |v.uses| && |w.images| <= |v.images|
    requires v.images[me] == w.images[me] && w.uses[me] <= v.uses[me] && KeepsCode(w.space, v.space)
    requires forall j :: 0 <= j < |w.images| ==> v.images[j] == w.images[j]
    requires Bound(c, w.space, w.images, w.images[me], w.uses[me], k)
    requires k < |c.imports(w.images[me].file, w.images[me].base).imports|
    requires Provides(c, v.space, v.images, v.uses[me], c.imports(w.images[me].file, w.images[me].base).imports[k])
    ensures Bound(c, v.space, v.images, v.images[me], v.uses[me], k + 1)
  {
    hide Provides, KeepsCode;
    var imports := c.imports(w.images[me].file, w.images[me].base).imports;
    forall n | 0 <= n < k
      ensures Provides(c, v.space, v.images, v.uses[me], imports[n])
    {
      ProvidesStays(c, w.space, v.space, w.images, v.images, w.uses[me], v.uses[me], imports[n]);
    }
  }

  lemma ExtendsKeepsCode(w: World, v: World)
    requires Extends(w, v)
    ensures KeepsCode(w.space, v.space)
  {
  }

  lemma ProtectStatus(c: Contents, initial: Space, w: World, me: nat, image: PeImage)
    requires SpaceOk(initial) && Sane(c, initial, w, |w.images|) && me < |w.images| && SectionsValid(image)
    ensures var status := ProtectImage(w.space, w.images[me].base, image).status;
            status.Ok() ==> status == Success
  {
    hide Sane, SectionsValid, ProtectImage, SpaceOk;
    SaneSpace(c, initial, w, |w.images|);
    HeldRegion(c, initial, w, me);
    AlignedBase(RegionOf(w.images[me]));
    ImageProtected(w.space, w.images[me].base, image);
  }

  lemma ImagePages(c: Contents, initial: Space, w: World, me: nat, image: PeImage)
    requires SpaceOk(initial) && Sane(c, initial, w, |w.images|) && me < |w.images|
    requires SectionsValid(image) && image.size == w.images[me].size
    ensures var t := ProtectImage(w.space, w.images[me].base, image).space.table;
            forall page: nat :: page in w.space.table && !RegionOf(w.images[me]).Has(page) ==>
              page in t && t[page] == w.space.table[page]
  {
    hide Sane, SectionsValid, ProtectImage, SpaceOk, Region.Has;
    SaneSpace(c, initial, w, |w.images|);
    HeldRegion(c, initial, w, me);
    AlignedBase(RegionOf(w.images[me]));
    forall page: nat | page in w.space.table && !RegionOf(w.images[me]).Has(page)
      ensures var t := ProtectImage(w.space, w.images[me].base, image).space.table;
              page in t && t[page] == w.space.table[page]
    {
      ImageOutside(w.space, w.images[me].base, image, page);
    }
  }

  lemma MapStatus(s: Space, base: nat, size: nat, p: Protection)
    ensures MapOwned(s, base, size, p).status.Ok() ==> MapOwned(s, base, size, p).status == Success
  {
  }

  // A whole load.

  /**
   * A loaded program: every image is ready and finished, under a name of its own, with its imports
   * bound; the images are laid out after what was mapped before, which is unchanged.
   */
  ghost predicate LoadedProgram(c: Contents, initial: Space, w: World, name: Name) {
    && w.images != [] && w.images[0].name == name
    && Sane(c, initial, w, |w.images|)
    && ReadyFrom(w, 0)
  }

  /** A path of imports from image to image. */
  ghost predicate Path(w: World, path: seq<nat>) {
    && (forall k :: 0 <= k < |path| ==> path[k] < |w.images|)
    && |w.uses| == |w.images|
    && (forall k :: 0 < k < |path| ==> path[k] in w.uses[path[k - 1]])
  }

  lemma {:induction false} RankFalls(c: Contents, initial: Space, w: World, name: Name, path: seq<nat>, k: nat)
    requires LoadedProgram(c, initial, w, name) && Path(w, path) && 0 < k < |path|
    ensures |w.rank| == |w.images| && w.rank[path[k]] < w.rank[path[0]]
    decreases k
  {
    hide SpaceOk, Protected, Bound;
    if k > 1 {
      RankFalls(c, initial, w, name, path, k - 1);
    }
    assert Finished(c, w, path[k - 1]);
  }

  /** The images of a loaded program do not depend on themselves, however indirectly. */
  lemma DependenciesAcyclic(c: Contents, initial: Space, w: World, name: Name, path: seq<nat>)
    requires LoadedProgram(c, initial, w, name) && Path(w, path) && |path| > 1
    ensures path[0] != path[|path| - 1]
  {
    hide LoadedProgram;
    RankFalls(c, initial, w, name, path, |path| - 1);
  }

  /** No two images of a loaded program share a page, and none of their pages is writable code. */
  lemma MappingsApart(c: Contents, initial: Space, w: World, name: Name, i: nat, j: nat, page: nat)
    requires LoadedProgram(c, initial, w, name) && i < |w.images| && RegionOf(w.images[i]).Has(page)
    ensures page in w.space.table && !(w.space.table[page].write && w.space.table[page].execute)
    ensures j < |w.images| && j != i ==> !RegionOf(w.images[j]).Has(page)
  {
    hide Sane, Region.Has, Touch, Aligned;
    HeldRegion(c, initial, w, i);
    SaneSpace(c, initial, w, |w.images|);
    if j < |w.images| && j != i {
      OthersOutside(c, initial, w, j, i, page);
    }
  }

  // When a program that imports nothing loads.

  /** What it takes, image by image, when there is nothing to import. */
  predicate Admits(c: Contents, o: Options, s: Space, image: PeImage, file: File, isMain: bool) {
    && HasPlace(o, s, image, isMain)
    && var base := SelectBase(image, o, s, isMain).base;
       && InFile(image, file) && Prepared(image, file, base).Ok? && c.imports(file, base).end.Ok()
       && Seals(MapOwned(s, base, image.size, READ_WRITE).space, base, image, isMain)
  }

  predicate ImportsNothing(c: Contents, o: Options, s: Space, image: PeImage, file: File, isMain: bool) {
    c.imports(file, SelectBase(image, o, s, isMain).base).imports == []
  }

  /** An image is admitted when it has a place and can be filled, bound and sealed there. */
  lemma AdmitsAt(c: Contents, o: Options, s: Space, image: PeImage, file: File, isMain: bool, base: nat, mapped: Space)
    requires InFile(image, file) && base == SelectBase(image, o, s, isMain).base
    requires mapped == MapOwned(s, base, image.size, READ_WRITE).space
    ensures ImportsNothing(c, o, s, image, file, isMain) <==> c.imports(file, base).imports == []
    ensures Admits(c, o, s, image, file, isMain) <==>
            && HasPlace(o, s, image, isMain) && Prepared(image, file, base).Ok? && c.imports(file, base).end.Ok()
            && Seals(mapped, base, image, isMain)
  {
    hide InFile, SelectBase, MapOwned, HasPlace, Prepared, Seals;
  }

  /** The image is accepted, and then the forced choice of another base fails and leaves the preferred one. */
  ghost predicate LeavesBase(c: Contents, o: Options, s: Space, file: File, isMain: bool) {
    ImageAccepted(c, file, isMain) && OnlyPreferred(c.parse(file).value, o, s, isMain)
  }

  /** The load of a program that gets stuck with an image that has a base but no pages. */
  ghost predicate StuckLoad(c: Contents, o: Options, s: Space, file: File, name: Name) {
    file != [] && NameValid(name) && LeavesBase(c, o, s, file, true)
  }

  lemma OnlyMainSticks(c: Contents, o: Options, s: Space, file: File, isMain: bool)
    ensures LeavesBase(c, o, s, file, isMain) ==> isMain
  {
  }

  /** An acceptable program that cannot be placed anywhere but where it must not go. */
  ghost predicate Sticks(c: Contents, o: Options, s: Space, file: File, name: Name) {
    Acceptable(c, o, file, name) && LeavesBase(c, o, s, file, true)
  }

  lemma LeavesMeansAccepted(c: Contents, o: Options, s: Space, file: File)
    ensures LeavesBase(c, o, s, file, true) ==> ImageAccepted(c, file, true)
  {
  }

  class Loader {
    const contents: Contents
    const options: Options
    /** The address space as the loader found it. */
    ghost const initial: Space

    var images: seq<UserImage>
    var space: Space
    /** The bytes of each image. */
    var memory: seq<seq<byte>>
    ghost var uses: seq<set<nat>>
    ghost var rank: seq<nat>
    ghost var clock: nat

    constructor (contents: Contents, options: Options, space: Space)
      ensures this.contents == contents && this.options == options && initial == space
      ensures W() == World([], space, [], [], 0) && memory == []
    {
      this.contents, this.options, this.initial := contents, options, space;
      this.images, this.space, this.memory := [], space, [];
      this.uses, this.rank, this.clock := [], [], 0;
    }

    ghost function W(): World
      reads this
    {
      World(images, space, uses, rank, clock)
    }

    ghost predicate Good()
      reads this
    {
      && SpaceOk(initial) && OptionsValid(options)
      && Sane(contents, initial, W(), |images|) && Remembers(contents, images, memory)
    }

    /** The images loaded so far are those of the program, at the places of its tour. */
    ghost predicate Home(main: Program)
      reads this
    {
      Sited(contents, options, initial, main, W())
    }

    /** The places after a module, or the imports of one, have been seen to. */
    ghost function Visited(main: Program, name: Name): seq<Place>
      reads this
    {
      Visit(contents, options, initial, main, PlacesOf(images), name)
    }

    ghost function VisitedAll(main: Program, imports: seq<Import>): seq<Place>
      reads this
    {
      VisitAll(contents, options, initial, main, PlacesOf(images), imports)
    }

    ghost predicate Named(main: Program, file: File, name: Name, isMain: bool)
      reads this
    {
      && FileOf(options, main, name) == Some(file) && isMain == (name == main.name)
      && (isMain <==> images == [])
    }

    /** The load follows the tour, and nothing that is still loading stands below the module. */
    ghost predicate ComesNext(goal: Goal, name: Name)
      reads this
    {
      && HasName(goal.tour, name) && name in goal.plan.rank && Visited(goal.main, name) <= goal.tour
      && Underway(contents, options, initial, goal, W(), goal.plan.rank[name] + 1)
    }

    /** The load follows the tour while an image is loading. */
    ghost predicate OnWay(goal: Goal, me: nat)
      reads this
    {
      && me < |images| && images[me].name in goal.plan.rank
      && Underway(contents, options, initial, goal, W(), goal.plan.rank[images[me].name])
    }

    /** And so it does with the imports of the image from some point on. */
    ghost predicate OnCourse(goal: Goal, me: nat, k: nat)
      reads this
    {
      && OnWay(goal, me) && k <= |contents.imports(images[me].file, images[me].base).imports|
      && VisitedAll(goal.main, contents.imports(images[me].file, images[me].base).imports[k..]) <= goal.tour
    }

    /** From a loading image the tour leads on to a module ranked lower. */
    ghost predicate LeadsTo(goal: Goal, me: nat, name: Name)
      reads this
    {
      && me < |images| && images[me].name in goal.plan.rank && HasName(goal.tour, name) && name in goal.plan.rank
      && goal.plan.rank[name] < goal.plan.rank[images[me].name] && Visited(goal.main, name) <= goal.tour
    }

    /** The last image is mapped where it was to go. */
    ghost predicate Settled(before: Space, image: PeImage, isMain: bool)
      reads this
    {
      var base := SelectBase(image, options, before, isMain).base;
      images != [] && images[|images| - 1].base == base && space == MapOwned(before, base, image.size, READ_WRITE).space
    }

    /** Adds the image to the set, chooses its base and maps it there. */
    method Reserve(image: PeImage, file: File, name: Name, isMain: bool) returns (status: Status)
      requires Good() && |images| < CAPACITY && FindImage(images, name) == |images|
      requires ContractValid(image, isMain) && (isMain ==> images == [])
      modifies this
      ensures Extends(old(W()), W()) && |images| == old(|images|) + 1
      ensures |memory| == old(|memory|) + 1 && memory[..old(|memory|)] == old(memory)
      ensures images[old(|images|)].(base := 0) == UserImage(name, file, 0, image.size, Loading, isMain)
      ensures status.Ok() <==> HasPlace(options, old(space), image, isMain)
      ensures status.Ok() ==> Settled(old(space), image, isMain)
      ensures status.Ok() ==> status == Success && Good()
      ensures status.Failed() ==> LeftOver(initial, W(), OnlyPreferred(image, options, old(space), isMain))
      ensures Honest(contents) ==> status != MemoryCorruption
    {
      hide Honest;
      hide Sane, ContractValid, SpaceOk, LeftOver, Extends, HasPlace, Settled, OnlyPreferred, OptionsValid, Remembers;
      ghost var before := W();
      BeginSane(contents, initial, W(), image, file, name, isMain);
      images := images + [UserImage(name, file, 0, image.size, Loading, isMain)];
      uses, rank := uses + [{}], rank + [0];
      RememberSizes(contents, before.images, memory);
      SaneNames(contents, initial, W(), |before.images|);
      RemembersStay(contents, initial, before, |before.images|, images, memory, memory + [Zeros(image.size)]);
      memory := memory + [Zeros(image.size)];
      status := Settle(image, isMain, before);
    }

    /** Chooses the base of the last image and maps it there. */
    method Settle(image: PeImage, isMain: bool, ghost before: World) returns (status: Status)
      requires SpaceOk(initial) && OptionsValid(options) && images != [] && Sane(contents, initial, W(), |images| - 1)
      requires Remembers(contents, images, memory)
      requires images[|images| - 1].state == Loading && images[|images| - 1].base == 0 && images[|images| - 1].size == image.size
      requires ContractValid(image, isMain) && (isMain ==> |images| == 1)
      requires Extends(before, W()) && |before.images| + 1 == |images|
      modifies this
      ensures memory == old(memory)
      ensures Extends(before, W()) && |images| == old(|images|)
      ensures images[|images| - 1].(base := 0) == old(images[|images| - 1])
      ensures status.Ok() <==> HasPlace(options, old(space), image, isMain)
      ensures status.Ok() ==> Settled(old(space), image, isMain)
      ensures status.Ok() ==> status == Success && Good()
      ensures status.Failed() ==> LeftOver(initial, W(), OnlyPreferred(image, options, old(space), isMain))
      ensures Honest(contents) ==> status != MemoryCorruption
    {
      hide Honest;
      hide Sane, SelectBase, MapOwned, ContractValid, IsFree, SpaceOk, Stacked, LeftOver, Extends, OnlyPreferred;
      hide OptionsValid, Remembers, HasPlace, Settled, Aligned, RangeValid;
      ghost var n := |images| - 1;
      ghost var begun := W();
      var choice := SelectBase(image, options, space, isMain);
      if HasPlace(options, space, image, isMain) {
        PlaceChosen(options, space, image, isMain);
      }
      ChoiceStatus(image, options, space, isMain);
      FailedChoiceExactly(image, options, space, isMain);
      if choice.status.Failed() {
        FailedChoice(image, options, space, isMain);
        FailedChoiceIsForced(image, options, space, isMain);
        SaneStacked(contents, initial, begun, n);
        ContractSizes(image, isMain);
        images := images[|images| - 1 := images[|images| - 1].(base := choice.base)];
        assert images[..n] == begun.images[..n];
        SaneSpace(contents, initial, begun, n);
        UnmappedAbandoned(initial, W());
        LastExtends(before, begun, W());
        status := choice.status;
        return;
      }
      status := Occupy(image, isMain, choice.base, before);
    }

    /** Maps the last image at the base that was chosen for it. */
    method Occupy(image: PeImage, isMain: bool, base: nat, ghost before: World) returns (status: Status)
      requires SpaceOk(initial) && OptionsValid(options) && images != [] && Sane(contents, initial, W(), |images| - 1)
      requires Remembers(contents, images, memory)
      requires images[|images| - 1].state == Loading && images[|images| - 1].base == 0 && images[|images| - 1].size == image.size
      requires ContractValid(image, isMain) && Extends(before, W()) && |before.images| + 1 == |images|
      requires SelectBase(image, options, space, isMain).status.Ok() && base == SelectBase(image, options, space, isMain).base
      modifies `images, `space
      ensures Extends(before, W()) && |images| == old(|images|)
      ensures images[|images| - 1].(base := 0) == old(images[|images| - 1])
      ensures status.Ok() <==> HasPlace(options, old(space), image, isMain)
      ensures status.Ok() ==> Settled(old(space), image, isMain)
      ensures status.Ok() ==> status == Success && Good()
      ensures status.Failed() ==> LeftOver(initial, W(), OnlyPreferred(image, options, old(space), isMain))
      ensures status != MemoryCorruption
    {
      hide Sane, SelectBase, MapOwned, ContractValid, IsFree, SpaceOk, Stacked, LeftOver, Extends, OnlyPreferred, OptionsValid;
      hide Remembers, RegionsOf;
      ghost var n := |images| - 1;
      ghost var begun := W();
      var change := MapOwned(space, base, image.size, READ_WRITE);
      MapStatuses(space, base, image.size, READ_WRITE);
      if change.status.Failed() {
        NotOnlyPreferred(image, options, space, isMain);
        SaneStacked(contents, initial, begun, n);
        SaneSpace(contents, initial, begun, n);
        RefusedMap(space, base, image.size, READ_WRITE);
        SameStacked(initial, begun.images[..n], space, change.space);
        space := change.space;
        UnmappedAbandoned(initial, W());
        LastExtends(before, begun, W());
        status := change.status;
        return;
      }
      MapStatus(space, base, image.size, READ_WRITE);
      PlaceSane(contents, initial, begun, base);
      SaneSpace(contents, initial, begun, n);
      MapAppends(space, base, image.size, READ_WRITE);
      images := images[|images| - 1 := images[|images| - 1].(base := base)];
      space := change.space;
      LastExtends(before, begun, W());
      SaneNames(contents, initial, W(), |images|);
      RemembersStay(contents, initial, begun, n, images, memory, memory) by { RememberSizes(contents, begun.images, memory); }
      status := Success;
    }

    /** Loads an image and, through its imports, the images it needs that are not loaded yet. */
    method LoadImage(file: File, name: Name, isMain: bool, ghost goal: Goal) returns (status: Status, index: nat)
      requires Good() && (isMain ==> images == [])
      modifies this
      decreases CAPACITY - |images|, 2
      ensures Extends(old(W()), W())
      ensures status.Ok() ==>
        && status == Success && Good() && ReadyFrom(W(), old(|images|))
        && index < |images| && images[index].state == Ready && images[index].name == name
      ensures status.Ok() ==> old(|memory|) <= |memory| && memory[..old(|memory|)] == old(memory)
      ensures status.Failed() ==> LeftOver(initial, W(), isMain && StuckLoad(contents, options, old(space), file, name))
      ensures FindImage(old(images), name) == old(|images|) ==> LoadedExactly(old(images), old(space), file, name, isMain, status, index)
      ensures status.Ok() && old(Home(goal.main)) && old(Named(goal.main, file, name, isMain)) ==>
        Home(goal.main) && PlacesOf(images) == old(Visited(goal.main, name))
      ensures old(Named(goal.main, file, name, isMain)) && old(ComesNext(goal, name)) ==> status.Ok()
      ensures Honest(contents) ==> status != MemoryCorruption
    {
      hide Honest;
      hide Sane, Extends, LeftOver, NameValid, ImageAccepted, ImportsNothing, Admits, LeavesBase, Remembers, Underway;
      hide Sited, Visit, VisitAll, PlacesOf, HasName, FindImage;
      OnlyMainSticks(contents, options, space, file, isMain);
      index := 0;
      ExtendsItself(W());
      NothingAbandoned(contents, initial, W());
      if Named(goal.main, file, name, isMain) && ComesNext(goal, name) {
        NextIsFine(contents, options, initial, goal, W(), name);
        NamedAccepted(contents, options, goal.main, name, file);
        UnderwaySited(contents, options, initial, goal, W(), goal.plan.rank[name] + 1);
      }
      if file == [] || !NameValid(name) {
        return InvalidArgument, 0;
      }
      var existing := FindImage(images, name);
      if existing < |images| {
        VisitThere(contents, options, initial, goal.main, images, name);
        if images[existing].state == Loading {
          return ImageDependencyCycle, 0;
        }
        return Success, existing;
      }
      if |images| >= CAPACITY {
        return BufferTooSmall, 0;
      }
      status, index := LoadNew(file, name, isMain, goal);
    }

    /** How the load of an image that is not there yet ends. */
    ghost predicate LoadedExactly(before: seq<UserImage>, room: Space, file: File, name: Name, isMain: bool, status: Status, index: nat) {
      && (status.Ok() ==>
            && index == |before| && file != [] && NameValid(name) && |before| < CAPACITY
            && ImageAccepted(contents, file, isMain) && !LeavesBase(contents, options, room, file, isMain))
      && (file != [] && NameValid(name) && |before| < CAPACITY && ImageAccepted(contents, file, isMain)
          && ImportsNothing(contents, options, room, contents.parse(file).value, file, isMain) ==>
            (status.Ok() <==> Admits(contents, options, room, contents.parse(file).value, file, isMain)))
    }

    method LoadNew(file: File, name: Name, isMain: bool, ghost goal: Goal) returns (status: Status, index: nat)
      requires Good() && (isMain ==> images == []) && |images| < CAPACITY && FindImage(images, name) == |images|
      requires file != [] && NameValid(name)
      modifies this
      decreases CAPACITY - |images|, 1
      ensures Extends(old(W()), W())
      ensures status.Ok() ==>
        && status == Success && Good() && ReadyFrom(W(), old(|images|))
        && index == old(|images|) < |images| && images[index].state == Ready && images[index].name == name
      ensures status.Ok() ==> old(|memory|) <= |memory| && memory[..old(|memory|)] == old(memory)
      ensures status.Failed() ==> LeftOver(initial, W(), LeavesBase(contents, options, old(space), file, isMain))
      ensures status.Ok() ==> ImageAccepted(contents, file, isMain) && !LeavesBase(contents, options, old(space), file, isMain)
      ensures (ImageAccepted(contents, file, isMain)
               && ImportsNothing(contents, options, old(space), contents.parse(file).value, file, isMain)) ==>
          (status.Ok() <==> Admits(contents, options, old(space), contents.parse(file).value, file, isMain))
      ensures status.Ok() && old(Home(goal.main)) && old(Named(goal.main, file, name, isMain)) ==>
        Home(goal.main) && PlacesOf(images) == old(Visited(goal.main, name))
      ensures old(Named(goal.main, file, name, isMain)) && old(ComesNext(goal, name)) ==> status.Ok()
      ensures Honest(contents) ==> status != MemoryCorruption
    {
      hide Sane, Extends, LeftOver, ContractValid, HasPlace, Seals, OnlyPreferred, OptionsValid, Remembers, InFile, Prepared;
      hide Underway, Sited, Visit, VisitAll, PlacesOf, HasName, SelectBase, MapOwned, FindImage, ImageOf, FindSource, Bound;
      index := 0;
      ExtendsItself(W());
      NothingAbandoned(contents, initial, W());
      if Named(goal.main, file, name, isMain) && ComesNext(goal, name) {
        NextIsFine(contents, options, initial, goal, W(), name);
        NamedAccepted(contents, options, goal.main, name, file);
      }
      var parsed := contents.parse(file);
      if parsed.Err? {
        return parsed.status, 0;
      }
      if !InFile(parsed.value, file) || !ContractValid(parsed.value, isMain) {
        return BadImageFormat, 0;
      }
      index := |images|;
      status := LoadAccepted(parsed.value, file, name, isMain, goal);
    }

    /** Loads an image whose file is acceptable. */
    method LoadAccepted(image: PeImage, file: File, name: Name, isMain: bool, ghost goal: Goal) returns (status: Status)
      requires Good() && (isMain ==> images == []) && |images| < CAPACITY && FindImage(images, name) == |images|
      requires file != [] && NameValid(name) && ImageAccepted(contents, file, isMain) && contents.parse(file) == Ok(image)
      modifies this
      decreases CAPACITY - |images|, 0
      ensures Extends(old(W()), W())
      ensures status.Ok() ==>
        && status == Success && Good() && ReadyFrom(W(), old(|images|))
        && old(|images|) < |images| && images[old(|images|)].state == Ready && images[old(|images|)].name == name
      ensures status.Ok() ==> old(|memory|) <= |memory| && memory[..old(|memory|)] == old(memory)
      ensures status.Failed() ==> LeftOver(initial, W(), OnlyPreferred(image, options, old(space), isMain))
      ensures status.Ok() ==> !OnlyPreferred(image, options, old(space), isMain)
      ensures ImportsNothing(contents, options, old(space), image, file, isMain) ==>
          (status.Ok() <==> Admits(contents, options, old(space), image, file, isMain))
      ensures status.Ok() && old(Home(goal.main)) && old(Named(goal.main, file, name, isMain)) ==>
        Home(goal.main) && PlacesOf(images) == old(Visited(goal.main, name))
      ensures old(Named(goal.main, file, name, isMain)) && old(ComesNext(goal, name)) ==> status.Ok()
      ensures Honest(contents) ==> status != MemoryCorruption
    {
      hide Honest, Sane, Extends, LeftOver, ContractValid, HasPlace, Seals, OnlyPreferred, OptionsValid, Remembers, InFile, Prepared;
      hide Underway, Sited, Visit, VisitAll, PlacesOf, HasName, SelectBase, MapOwned, FindImage, NameValid, FileOf, ImageOf;
      hide Admits, ImportsNothing;
      ContractSizes(image, isMain);
      ghost var before := W();
      ghost var base := SelectBase(image, options, space, isMain).base;
      AdmitsAt(contents, options, space, image, file, isMain, base, MapOwned(space, base, image.size, READ_WRITE).space);
      if ComesNext(goal, name) {
        UnderwaySited(contents, options, initial, goal, before, goal.plan.rank[name] + 1);
      }
      status := Enter(image, file, name, isMain, goal);
      if status.Failed() {
        return;
      }
      VisitNone(contents, options, initial, goal.main, PlacesOf(images), contents.imports(file, images[|images| - 1].base).imports);
      NotOnlyPreferred(image, options, before.space, isMain) by { PlaceChosen(options, before.space, image, isMain); }
      status := Complete(image, file, name, |images| - 1, before, goal);
    }

    /** Adds the image to the set and maps it at its place in the tour. */
    method Enter(image: PeImage, file: File, name: Name, isMain: bool, ghost goal: Goal) returns (status: Status)
      requires Good() && (isMain ==> images == []) && |images| < CAPACITY && FindImage(images, name) == |images|
      requires file != [] && NameValid(name) && ImageAccepted(contents, file, isMain) && contents.parse(file) == Ok(image)
      modifies this
      ensures Extends(old(W()), W()) && |images| == old(|images|) + 1
      ensures |memory| == old(|memory|) + 1 && memory[..old(|memory|)] == old(memory)
      ensures images[old(|images|)].(base := 0) == UserImage(name, file, 0, image.size, Loading, isMain)
      ensures status.Ok() <==> HasPlace(options, old(space), image, isMain)
      ensures status.Ok() ==> status == Success && Good() && Settled(old(space), image, isMain)
      ensures status.Failed() ==> LeftOver(initial, W(), OnlyPreferred(image, options, old(space), isMain))
      ensures status.Ok() && old(Home(goal.main)) && old(Named(goal.main, file, name, isMain)) ==>
        && Home(goal.main)
        && VisitedAll(goal.main, contents.imports(file, images[|images| - 1].base).imports) == old(Visited(goal.main, name))
      ensures old(Named(goal.main, file, name, isMain)) && old(ComesNext(goal, name)) ==>
        status.Ok() && OnCourse(goal, |images| - 1, 0)
      ensures Honest(contents) ==> status != MemoryCorruption
    {
      hide Honest, Sane, Extends, LeftOver, ContractValid, HasPlace, OnlyPreferred, OptionsValid, Remembers, InFile;
      hide Underway, Sited, Visit, VisitAll, PlacesOf, HasName, SelectBase, MapOwned, FindImage, NameValid, FileOf, ImageOf;
      ghost var before := W();
      ghost var planned := Named(goal.main, file, name, isMain) && ComesNext(goal, name);
      if planned {
        UnderwaySited(contents, options, initial, goal, before, goal.plan.rank[name] + 1);
      }
      ghost var homely := Home(goal.main) && Named(goal.main, file, name, isMain);
      if homely {
        AcceptedNamed(contents, options, goal.main, name, file);
      }
      if planned {
        RoomNext(contents, options, initial, goal, before, goal.plan.rank[name] + 1, name);
      }
      status := Reserve(image, file, name, isMain);
      if status.Failed() {
        return;
      }
      ExtendsPrefix(before, W());
      if homely {
        TourMore(contents, options, initial, goal.main, before, W(), name, file);
      }
      if planned {
        VisitNone(contents, options, initial, goal.main, PlacesOf(images), contents.imports(file, images[|images| - 1].base).imports);
        UnderwayMore(contents, options, initial, goal, before, W(), name);
      }
    }

    /** Fills a reserved image, binds its imports and makes it ready. */
    method Complete(image: PeImage, file: File, name: Name, me: nat, ghost before: World, ghost goal: Goal) returns (status: Status)
      requires SpaceOk(initial) && Good() && me == |images| - 1 && images[me].state == Loading
      requires Sane(contents, initial, before, me) && me == |before.images| && Extends(before, W())
      requires images[me].file == file && images[me].name == name && images[me].size == image.size
      requires contents.parse(file) == Ok(image) && SectionsValid(image) && InFile(image, file)
      modifies this
      decreases CAPACITY - |images|, 8
      ensures old(|memory|) == me + 1
      ensures Extends(before, W())
      ensures status.Ok() ==>
        && status == Success && Good() && ReadyFrom(W(), me)
        && me < |images| && images[me].state == Ready && images[me].name == name
      ensures status.Ok() ==> me <= |memory| && memory[..me] == old(memory[..me])
      ensures status.Failed() ==> LeftOver(initial, W(), false)
      ensures var base := old(images[me].base);
              contents.imports(file, base).imports == [] ==>
                (status.Ok() <==>
                   && Prepared(image, file, base).Ok? && contents.imports(file, base).end.Ok()
                   && Seals(old(space), base, image, old(images[me].main)))
      ensures status.Ok() && old(Home(goal.main)) ==>
        Home(goal.main) && PlacesOf(images) == old(VisitedAll(goal.main, contents.imports(images[me].file, images[me].base).imports))
      ensures old(OnCourse(goal, me, 0)) ==> status.Ok()
      ensures Honest(contents) ==> status != MemoryCorruption
    {
      hide Honest;
      hide Sane, Extends, LeftOver, SectionsValid, ProtectImage, Seals, Remembers, Filled, InFile, Prepared, Patched;
      hide Underway, Sited, Visit, VisitAll, PlacesOf;
      RememberSizes(contents, images, memory);
      NothingAbandoned(contents, initial, W());
      ghost var start := W();
      ghost var reserved := images[me];
      SaneSpace(contents, initial, W(), |images|);
      SaneSpace(contents, initial, before, me);
      if OnCourse(goal, me, 0) {
        CourseFacts(contents, options, initial, goal, W(), goal.plan.rank[name], me);
      }
      var prepared := Prepared(image, file, images[me].base);
      PreparedStatus(image, file, images[me].base);
      if prepared.Err? {
        return prepared.status;
      }
      SaneNames(contents, initial, start, |images|);
      RemembersStay(contents, initial, start, |images|, images, memory, memory[me := prepared.value]);
      memory := memory[me := prepared.value];
      status := BindImports(me, goal);
      TakeExtends(before, start, W(), me);
      if status.Failed() {
        return;
      }
      FilledIs(contents, images, images[me], memory[me]);
      if old(OnCourse(goal, me, 0)) {
        SealsAtStop(contents, options, initial, goal, W(), goal.plan.rank[name], me);
      }
      ghost var bound := W();
      status := Seal(image, me, before);
      if status.Ok() {
        if old(Home(goal.main)) {
          SitedSealed(contents, options, initial, goal.main, bound, W(), me);
        }
      }
    }

    /** Protects an image whose imports are bound and makes it ready. */
    method Seal(image: PeImage, me: nat, ghost before: World) returns (status: Status)
      requires Good() && me < |images| && images[me].state == Loading && ReadyFrom(W(), me + 1)
      requires SpaceOk(initial) && Sane(contents, initial, before, me) && me == |before.images| && Extends(before, W())
      requires contents.parse(images[me].file) == Ok(image) && SectionsValid(image) && images[me].size == image.size
      requires contents.imports(images[me].file, images[me].base).end.Ok() && |uses| == |images|
      requires Bound(contents, space, images, images[me], uses[me], |contents.imports(images[me].file, images[me].base).imports|)
      requires |memory| == |images| && Filled(contents, images, images[me], memory[me])
      modifies this
      ensures memory == old(memory)
      ensures Extends(before, W())
      ensures status.Ok() ==>
        && status == Success && Good() && ReadyFrom(W(), me)
        && me < |images| && images[me].state == Ready && images[me].name == old(images[me].name)
      ensures status.Failed() ==> LeftOver(initial, W(), false)
      ensures status.Ok() <==> Seals(old(space), old(images[me].base), image, old(images[me].main))
      ensures status.Ok() ==>
        && images == old(images)[me := old(images[me]).(state := Ready)]
        && space.luck == old(space.luck) && space.regions == old(space.regions)
      ensures Honest(contents) ==> status != MemoryCorruption
    {
      hide Honest;
      hide Sane, Extends, LeftOver, SectionsValid, ProtectImage, Bound, Stacked, Executable, Remembers, Filled;
      ghost var bound := W();
      SaneSpace(contents, initial, bound, |images|);
      SaneSpace(contents, initial, before, me);
      var change := ProtectImage(space, images[me].base, image);
      ProtectionStatus(space, images[me].base, image);
      ProtectingStacked(contents, initial, bound, me, image);
      ProtectingExtends(contents, initial, before, bound, me, image);
      space := change.space;
      StackedAbandoned(initial, W());
      if change.status.Failed() {
        return change.status;
      }
      if images[me].main && !Executable(space, images[me].base + image.entry) {
        return BadImageFormat;
      }
      ProtectStatus(contents, initial, bound, me, image);
      FinishSane(contents, initial, bound, me);
      ImagePages(contents, initial, bound, me, image);
      FinishExtends(contents, initial, before, bound, me, change.space);
      RemembersMore(contents, initial, bound, me, memory);
      images := images[me := images[me].(state := Ready)];
      rank := rank[me := clock];
      clock := clock + 1;
      status := Success;
    }

    /** The bytes of a loading image have the addresses of its first k imports. */
    ghost predicate PatchedTo(me: nat, start: seq<byte>, k: nat)
      reads this
    {
      && me < |images| == |memory|
      && var imports := contents.imports(images[me].file, images[me].base).imports;
         && k <= |imports| && memory[me] == Patched(contents, images, start, imports, k)
         && forall i :: 0 <= i < k ==> imports[i].slot + 8 <= |start|
    }

    /** Before the first import no slot is written. */
    lemma NothingWritten(me: nat)
      requires me < |images| == |memory|
      ensures PatchedTo(me, memory[me], 0)
    {
      hide Patched;
      NothingPatched(contents, images, memory[me], contents.imports(images[me].file, images[me].base).imports);
    }

    /** After the last import the table of a planned image ends well. */
    lemma CourseEnds(goal: Goal, me: nat, k: nat)
      requires OnCourse(goal, me, k)
      ensures OnWay(goal, me) && me < |images| && contents.imports(images[me].file, images[me].base).end.Ok()
    {
      hide Underway, Visit, VisitAll, PlacesOf;
      CourseFacts(contents, options, initial, goal, W(), goal.plan.rank[images[me].name], me);
    }

    /** Binds the imports of a loading image one after another. */
    method BindImports(me: nat, ghost goal: Goal) returns (status: Status)
      requires Good() && me == |images| - 1 == |memory| - 1 && images[me].state == Loading
      modifies this
      decreases CAPACITY - |images|, 7
      ensures |old(W()).images| == |old(W()).uses| == |old(W()).rank|
      ensures Extends(Take(old(W()), me), W())
      ensures status.Ok() ==>
        && Good() && ReadyFrom(W(), me + 1) && me < |images| && images[me] == old(images[me])
        && contents.imports(images[me].file, images[me].base).end.Ok()
        && |uses| == |images|
        && Bound(contents, space, images, images[me], uses[me], |contents.imports(images[me].file, images[me].base).imports|)
        && PatchedTo(me, old(memory[me]), |contents.imports(images[me].file, images[me].base).imports|)
        && memory[..me] == old(memory[..me])
      ensures status.Failed() ==> LeftOver(initial, W(), false)
      ensures old(contents.imports(images[me].file, images[me].base).imports) == [] ==>
        W() == old(W()) && status == contents.imports(images[me].file, images[me].base).end
      ensures status.Ok() && old(Home(goal.main)) ==>
        Home(goal.main) && PlacesOf(images) == old(VisitedAll(goal.main, contents.imports(images[me].file, images[me].base).imports))
      ensures old(OnCourse(goal, me, 0)) && |old(memory[me])| == old(images[me].size) ==> status.Ok() && OnWay(goal, me)
      ensures Honest(contents) ==> status != MemoryCorruption
    {
      hide Sane, Extends, LeftOver, Bound, Remembers, Patched, Underway, Sited, Visit, VisitAll, PlacesOf, Honest;
      hide Take, SpaceOk, OptionsValid, ReadyFrom, OnWay, OnCourse, PatchedTo;
      SaneSpace(contents, initial, W(), |images|);
      TakeSelf(W(), me);
      NoneLater(W());
      NothingWritten(me);
      NothingBound(contents, space, images, images[me], uses[me]);
      var table := contents.imports(images[me].file, images[me].base);
      var k := 0;
      VisitNone(contents, options, initial, goal.main, PlacesOf(images), table.imports);
      ghost var homely, target := Home(goal.main), VisitedAll(goal.main, table.imports);
      ghost var planned := OnCourse(goal, me, 0) && |memory[me]| == images[me].size;
      while k < |table.imports|
        invariant k <= |table.imports|
        invariant Good() && me < |images| && old(|images|) <= |images| && |uses| == |rank| == |images| <= CAPACITY
        invariant images[me] == old(images[me]) && ReadyFrom(W(), me + 1)
        invariant Extends(Take(old(W()), me), W())
        invariant Bound(contents, space, images, images[me], uses[me], k)
        invariant k == 0 ==> W() == old(W())
        invariant PatchedTo(me, old(memory[me]), k) && me < |memory| && memory[..me] == old(memory[..me])
        invariant homely ==> Home(goal.main) && VisitedAll(goal.main, table.imports[k..]) == target
        invariant planned ==> OnCourse(goal, me, k)
      {
        ghost var w := W();
        VisitFirst(contents, options, initial, goal.main, PlacesOf(images), table.imports, k);
        status := BindImport(me, k, old(memory[me]), goal);
        TakeTrans(old(W()), w, W(), me);
        if status.Failed() {
          return;
        }
        SaneSpace(contents, initial, W(), |images|);
        k := k + 1;
      }
      NothingAbandoned(contents, initial, W());
      if planned {
        CourseEnds(goal, me, k);
      }
      VisitNone(contents, options, initial, goal.main, PlacesOf(images), table.imports);
      TableStatus(contents, images[me].file, images[me].base);
      status := table.end;
    }

    /** Resolves one import and writes its address into its slot. */
    method BindImport(me: nat, k: nat, ghost start: seq<byte>, ghost goal: Goal) returns (status: Status)
      requires Good() && PatchedTo(me, start, k) && images[me].state == Loading && ReadyFrom(W(), me + 1)
      requires k < |contents.imports(images[me].file, images[me].base).imports|
      requires |uses| == |rank| == |images| && Bound(contents, space, images, images[me], uses[me], k)
      modifies this
      decreases CAPACITY - |images|, 6
      ensures |old(W()).images| == |old(W()).uses| == |old(W()).rank| && old(|images|) <= |images| && |uses| == |rank| == |images|
      ensures Extends(Take(old(W()), me), W())
      ensures status.Ok() ==>
        && Good() && me < |images| && images[me] == old(images[me]) && ReadyFrom(W(), me + 1)
        && Bound(contents, space, images, images[me], uses[me], k + 1)
        && PatchedTo(me, start, k + 1) && me < |memory| && memory[..me] == old(memory[..me])
      ensures status.Failed() ==> LeftOver(initial, W(), false)
      ensures status.Ok() && old(Home(goal.main)) ==>
        && Home(goal.main)
        && PlacesOf(images) == old(Visited(goal.main, contents.imports(images[me].file, images[me].base).imports[k].from))
      ensures old(OnCourse(goal, me, k)) && |start| == old(images[me].size) ==> status.Ok() && OnCourse(goal, me, k + 1)
      ensures Honest(contents) ==> status != MemoryCorruption
    {
      hide Honest, Take, SpaceOk, OptionsValid, ReadyFrom, NamesDistinct;
      hide Sane, Extends, LeftOver, Bound, Remembers, Patched, AddressOf, Provides, KeepsCode, Underway, Sited, ExportAt;
      hide Visit, VisitAll, PlacesOf, HasName;
      ghost var w := W();
      ghost var before := memory;
      var wanted := contents.imports(images[me].file, images[me].base).imports[k];
      if OnCourse(goal, me, k) {
        PlannedImport(contents, options, initial, goal, W(), goal.plan.rank[images[me].name], me, k);
        UnderwaySited(contents, options, initial, goal, W(), goal.plan.rank[images[me].name]);
      }
      VisitFirst(contents, options, initial, goal.main, PlacesOf(images), contents.imports(images[me].file, images[me].base).imports, k);
      var address;
      status, address := ResolveImport(me, wanted, goal);
      if status.Failed() {
        return;
      }
      BoundMore(contents, w, W(), me, k);
      NothingAbandoned(contents, initial, W());
      assert memory[me] == memory[..|before|][me] == before[me];
      assert memory[..me] == memory[..|before|][..me];
      status := WriteSlot(me, k, address, start, w);
    }

    /** Writes the address of an import into its slot, if that lies inside the image. */
    method WriteSlot(me: nat, k: nat, address: u64, ghost start: seq<byte>, ghost w: World) returns (status: Status)
      requires Good() && me < |w.images| <= |images| == |memory| && images[me].state == Loading
      requires k < |contents.imports(images[me].file, images[me].base).imports|
      requires Sane(contents, initial, w, |w.images|) && |w.uses| == |w.images|
      requires forall j :: 0 <= j < |w.images| ==> images[j] == w.images[j]
      requires Bound(contents, w.space, w.images, w.images[me], w.uses[me], k)
      requires var imports := contents.imports(images[me].file, images[me].base).imports;
               && AddressOf(contents, images, imports[k]) == Some(address)
               && memory[me] == Patched(contents, w.images, start, imports, k) && |memory[me]| == |start|
               && forall i :: 0 <= i < k ==> imports[i].slot + 8 <= |start|
      modifies `memory
      ensures status == if contents.imports(images[me].file, images[me].base).imports[k].slot + 8 <= |start|
                        then Success else BadImageFormat
      ensures |memory| == old(|memory|) && memory == old(memory)[me := memory[me]]
      ensures status.Ok() ==> Good() && PatchedTo(me, start, k + 1)
    {
      hide Sane, Bound, Remembers, Patched, AddressOf, SpaceOk, OptionsValid;
      var wanted := contents.imports(images[me].file, images[me].base).imports[k];
      if wanted.slot + 8 > |memory[me]| {
        return BadImageFormat;
      }
      PatchOne(contents, initial, w, W(), me, start, contents.imports(images[me].file, images[me].base).imports, k);
      SaneNames(contents, initial, W(), |images|);
      var bound := memory[me := Bind(memory[me], wanted.slot, address)];
      RemembersStay(contents, initial, W(), |images|, images, memory, bound);
      memory := bound;
      return Success;
    }

    /** Finds or loads the image an import names and checks that it exports code under the symbol. */
    method ResolveImport(me: nat, wanted: Import, ghost goal: Goal) returns (status: Status, address: u64)
      requires Good() && me < |images| && images[me].state == Loading && ReadyFrom(W(), me + 1)
      modifies this
      decreases CAPACITY - |images|, 5
      ensures |old(W()).images| == |old(W()).uses| == |old(W()).rank| && old(|images|) <= |images| && |uses| == |rank| == |images|
      ensures Extends(Take(old(W()), me), W())
      ensures status.Ok() ==>
        && Good() && me < |images| && images[me] == old(images[me]) && ReadyFrom(W(), me + 1)
        && old(uses[me]) <= uses[me]
        && (forall j :: 0 <= j < old(|images|) ==> images[j] == old(images[j]))
        && KeepsCode(old(space), space)
        && Provides(contents, space, images, uses[me], wanted)
        && AddressOf(contents, images, wanted) == Some(address)
        && old(|memory|) <= |memory| == |images| && memory[..old(|memory|)] == old(memory)
      ensures status.Failed() ==> LeftOver(initial, W(), false)
      ensures status.Ok() && old(Home(goal.main)) ==>
        Home(goal.main) && PlacesOf(images) == old(Visited(goal.main, wanted.from))
      ensures old(OnWay(goal, me)) && old(LeadsTo(goal, me, wanted.from)) && ExportAt(contents, options, goal.main, goal.tour, wanted) ==>
        status.Ok() && OnWay(goal, me)
      ensures Honest(contents) ==> status != MemoryCorruption
    {
      hide Honest, Sane, LeftOver, Extends, Provides, KeepsCode, Exports, Remembers, AddressOf, Underway, Sited;
      hide ExportAt, Visit, VisitAll, PlacesOf, HasName, SpaceOk, OptionsValid, Take;
      address := 0;
      ghost var start := W();
      var loaded;
      status, loaded := Obtain(me, wanted.from, goal);
      if status.Failed() {
        return;
      }
      if OnWay(goal, me) && ExportAt(contents, options, goal.main, goal.tour, wanted) {
        ExportsAtStop(contents, options, initial, goal, W(), goal.plan.rank[images[me].name], loaded, wanted);
      }
      NothingAbandoned(contents, initial, W());
      status, address := Link(me, wanted, loaded, start, goal);
    }

    /** Finds or loads an image that another one needs, which leaves that one and those before it alone. */
    method Obtain(me: nat, name: Name, ghost goal: Goal) returns (status: Status, loaded: nat)
      requires Good() && me < |images| && images[me].state == Loading && ReadyFrom(W(), me + 1)
      modifies this
      decreases CAPACITY - |images|, 4
      ensures |old(W()).images| == |old(W()).uses| == |old(W()).rank| && old(|images|) <= |images| && |uses| == |rank| == |images|
      ensures Extends(Take(old(W()), me), W())
      ensures status.Ok() ==>
        && Good() && ReadyFrom(W(), me + 1) && uses[me] == old(uses[me])
        && (forall j :: 0 <= j < old(|images|) ==> images[j] == old(images[j]))
        && loaded < |images| && images[loaded].state == Ready && images[loaded].name == name
        && KeepsCode(old(space), space)
        && old(|memory|) <= |memory| == |images| && memory[..old(|memory|)] == old(memory)
      ensures status.Failed() ==> LeftOver(initial, W(), false)
      ensures status.Ok() && old(Home(goal.main)) ==> Home(goal.main) && PlacesOf(images) == old(Visited(goal.main, name))
      ensures old(OnWay(goal, me)) && old(LeadsTo(goal, me, name)) ==> status.Ok() && OnWay(goal, me)
      ensures Honest(contents) ==> status != MemoryCorruption
    {
      hide Honest, Sane, LeftOver, Extends, KeepsCode, Remembers, Underway, Sited, SpaceOk, OptionsValid, Take;
      hide Visit, VisitAll, PlacesOf, HasName;
      SaneSpace(contents, initial, W(), |images|);
      ghost var start := W();
      ghost var planned := OnWay(goal, me) && LeadsTo(goal, me, name);
      if planned {
        UnderwaySited(contents, options, initial, goal, W(), goal.plan.rank[images[me].name]);
        UnderwayLower(contents, options, initial, goal, W(), goal.plan.rank[images[me].name], goal.plan.rank[name] + 1);
      }
      status, loaded := FindModule(name, goal);
      ExtendsTake(start, W(), me);
      ExtendsFacts(start, W());
      ExtendsKeepsCode(start, W());
      if status.Failed() {
        LeftOverSizes(initial, W(), false);
        return;
      }
      SaneSpace(contents, initial, W(), |images|);
      if planned {
        UnderwayStays(contents, options, initial, goal, start, W(), goal.plan.rank[start.images[me].name]);
      }
    }

    /** Records that an image needs another one, if that one exports what the import wants. */
    method Link(me: nat, wanted: Import, loaded: nat, ghost start: World, ghost goal: Goal) returns (status: Status, address: u64)
      requires Good() && me < |images| && images[me].state == Loading && me < |uses|
      requires loaded < |images| && images[loaded].state == Ready && images[loaded].name == wanted.from
      requires |start.images| == |start.uses| == |start.rank| && me < |start.images| && Extends(Take(start, me), W())
      modifies `uses
      ensures status.Ok() <==> Exports(contents, space, images[loaded], wanted)
      ensures uses == if status.Ok() then old(uses)[me := old(uses[me]) + {loaded}] else old(uses)
      ensures status.Ok() ==> Good() && Provides(contents, space, images, uses[me], wanted)
      ensures status.Ok() ==> AddressOf(contents, images, wanted) == Some(address)
      ensures Extends(Take(start, me), W())
      ensures old(Home(goal.main)) ==> Home(goal.main)
      ensures old(OnWay(goal, me)) ==> OnWay(goal, me)
      ensures Honest(contents) ==> status != MemoryCorruption
    {
      hide Honest;
      hide Sane, Extends, Provides, Exports, Remembers, Sited, Underway;
      ghost var w := W();
      status, address := CheckExport(images[loaded], wanted);
      if status.Failed() {
        return;
      }
      ExportAddress(contents, initial, W(), wanted, loaded, address);
      UseSane(contents, initial, w, |images|, me, loaded);
      uses := uses[me := uses[me] + {loaded}];
      ProvidedBy(contents, space, images, uses[me], wanted, loaded);
      UseExtends(start, w, W(), me);
      if Sited(contents, options, initial, goal.main, w) {
        SitedSame(contents, options, initial, goal.main, w, W());
      }
      if old(OnWay(goal, me)) {
        UnderwaySame(contents, options, initial, goal, w, W(), goal.plan.rank[images[me].name]);
      }
    }

    /** Finds the image of a name, or loads it from its source. */
    method FindModule(name: Name, ghost goal: Goal) returns (status: Status, loaded: nat)
      requires Good() && images != []
      modifies this
      decreases CAPACITY - |images|, 3
      ensures Extends(old(W()), W())
      ensures status.Ok() ==>
        && Good() && ReadyFrom(W(), old(|images|))
        && loaded < |images| && images[loaded].state == Ready && images[loaded].name == name
        && old(|memory|) <= |memory| == |images| && memory[..old(|memory|)] == old(memory)
      ensures status.Failed() ==> LeftOver(initial, W(), false)
      ensures status.Ok() && old(Home(goal.main)) ==> Home(goal.main) && PlacesOf(images) == old(Visited(goal.main, name))
      ensures old(ComesNext(goal, name)) ==> status.Ok()
      ensures Honest(contents) ==> status != MemoryCorruption
    {
      hide Honest;
      hide Sane, LeftOver, NameValid, Extends, Remembers, Underway, Sited, Visit, VisitAll, PlacesOf, HasName, FindSource, ImageOf;
      hide SpaceOk, OptionsValid, FindImage;
      if ComesNext(goal, name) {
        NextIsFine(contents, options, initial, goal, W(), name);
        UnderwaySited(contents, options, initial, goal, W(), goal.plan.rank[name] + 1);
        NamedThere(contents, options, goal.main, name);
      }
      if Home(goal.main) {
        MainIsFirst(contents, options, initial, goal.main, W());
      }
      RememberSizes(contents, images, memory);
      NothingAbandoned(contents, initial, W());
      ExtendsItself(W());
      loaded := 0;
      if !NameValid(name) {
        return InvalidArgument, 0;
      }
      loaded := FindImage(images, name);
      if loaded < |images| && images[loaded].state == Loading {
        return ImageDependencyCycle, 0;
      }
      status := Success;
      if loaded < |images| {
        VisitThere(contents, options, initial, goal.main, images, name);
      }
      if loaded == |images| {
        var source := FindSource(options.sources, name);
        if source.None? {
          return ImageImportNotFound, 0;
        }
        status, loaded := LoadImage(source.value.file, source.value.name, false, goal);
        if status.Ok() {
          RememberSizes(contents, images, memory);
        }
      }
    }

    /** An export must exist and lie on an executable page. */
    method CheckExport(image: UserImage, wanted: Import) returns (status: Status, address: u64)
      requires image.name == wanted.from
      ensures status.Ok() <==> Exports(contents, space, image, wanted)
      ensures status.Ok() ==> contents.exported(image.file, image.base, wanted) == Ok(address - image.base)
      ensures Honest(contents) ==> status != MemoryCorruption
    {
      address := 0;
      var parsed := contents.parse(image.file);
      if parsed.Err? {
        return parsed.status, 0;
      }
      var e := contents.exported(image.file, image.base, wanted);
      if e.Err? {
        return if e.status == NotFound then ImageImportNotFound else e.status, 0;
      }
      if e.value == 0 || e.value >= parsed.value.size {
        return ImageImportNotFound, 0;
      }
      if image.base + e.value > MAX64 {
        return OutOfBounds, 0;
      }
      if !Executable(space, image.base + e.value) {
        return BadImageFormat, 0;
      }
      return Success, image.base + e.value;
    }

    /** Loads a program with everything it imports, or leaves the address space's mappings as they were. */
    method LoadUserImage(file: File, name: Name) returns (status: Status)
      requires SpaceOk(initial) && W() == World([], initial, [], [], 0) && memory == []
      modifies this
      ensures status.Ok() ==> status == Success && LoadedProgram(contents, initial, W(), name)
      ensures status.Ok() ==> Remembers(contents, images, memory)
      ensures status.Ok() ==> Assembled(contents, options, Program(name, file), images)
      ensures status.Failed() ==> SameMappings(initial, space)
      ensures status.Ok() ==> Acceptable(contents, options, file, name)
      ensures status.Failed() ==> (images != [] <==> Sticks(contents, options, initial, file, name))
      ensures Sticks(contents, options, initial, file, name) ==> status == MemoryCorruption
      ensures Honest(contents) ==> (status == MemoryCorruption <==> Sticks(contents, options, initial, file, name))
      ensures contents.parse(file).Ok? && ImportsNothing(contents, options, initial, contents.parse(file).value, file, true) ==>
        (status.Ok() <==>
           && Acceptable(contents, options, file, name)
           && Admits(contents, options, initial, contents.parse(file).value, file, true))
      ensures status.Ok() <==>
        && OptionsValid(options) && SourcesValid(options, name)
        && var main := Program(name, file);
           exists p :: TourOk(contents, options, initial, main, Tour(contents, options, initial, main), p)
      ensures Roomy(contents, options, initial, Program(name, file)) ==>
        (status.Ok() <==>
           && OptionsValid(options) && SourcesValid(options, name)
           && exists p :: PlanOk(contents, options, Program(name, file), p))
    {
      hide Sane, Stacked, SpaceOk, NameValid, OptionsValid, SourcesValid, Admits, ImportsNothing, ImageAccepted;
      hide LeavesBase, Stuck, Rollable;
      hide Filled, Sited, TourOk, Underway, Visit, VisitAll, PlacesOf, HasName, FindSource, Honest, Roomy, PlanOk, Assembled;
      LeavesMeansAccepted(contents, options, initial, file);
      SaneAtFirst(contents, initial);
      ghost var main := Program(name, file);
      if Roomy(contents, options, initial, main) {
        RoomyPlans(contents, options, initial, main);
      }
      ghost var tour := Tour(contents, options, initial, main);
      ghost var plan :|
        (exists p :: TourOk(contents, options, initial, main, tour, p)) ==> TourOk(contents, options, initial, main, tour, plan);
      if TourOk(contents, options, initial, main, tour, plan) {
        TourNamesMain(contents, options, initial, main, tour, plan);
      }
      if file == [] || !NameValid(name) || !OptionsValid(options) || !SourcesValid(options, name) {
        return InvalidArgument;
      }
      FreshStart(contents, options, initial, Goal(main, tour, plan), W());
      var index;
      status, index := LoadImage(file, name, true, Goal(main, tour, plan));
      if status.Failed() {
        status := RollBack(status, Sticks(contents, options, initial, file, name));
        return;
      }
      LoadedIsTour(contents, options, initial, main, W(), memory);
      SaneNames(contents, initial, W(), |images|);
      SitedAssembled(contents, options, initial, main, W());
      status := CheckMain(index);
    }

    /** Unloads everything after a failure. */
    method RollBack(failure: Status, ghost sticks: bool) returns (status: Status)
      requires SpaceOk(initial) && failure.Failed() && LeftOver(initial, W(), sticks)
      modifies `images, `space
      ensures status == if sticks then MemoryCorruption else failure
      ensures SameMappings(initial, space) && (images != [] <==> sticks)
    {
      hide Stacked, SpaceOk, SameMappings, IsFree;
      if sticks {
        NotBoth(initial, images, space);
      }
      var unloaded;
      unloaded, images, space := Unload(initial, images, space);
      status := if unloaded.Failed() then MemoryCorruption else failure;
    }

    /** The program must have become the first image; everything is unloaded otherwise. */
    method CheckMain(index: nat) returns (status: Status)
      requires SpaceOk(initial) && Good()
      modifies this
      ensures index == 0 ==> status == Success && W() == old(W()) && memory == old(memory)
      ensures index != 0 ==> status == InvalidState && SameMappings(initial, space)
    {
      hide Sane, Stacked, SpaceOk, Stuck, Rollable, Remembers;
      status := Success;
      if index != 0 {
        NothingAbandoned(contents, initial, W());
        var unloaded;
        unloaded, images, space := Unload(initial, images, space);
        return InvalidState;
      }
    }
  }

  lemma NoneLater(w: World)
    ensures ReadyFrom(w, |w.images|)
  {
  }

  lemma TableStatus(c: Contents, file: File, base: nat)
    ensures Honest(c) ==> c.imports(file, base).end != MemoryCorruption
  {
  }

  lemma SaneNames(c: Contents, initial: Space, w: World, held: nat)
    requires Sane(c, initial, w, held)
    ensures NamesDistinct(w.images)
  {
    hide SpaceOk, Finished, UsesReady, Unprotected;
  }

  lemma ExportAddress(c: Contents, initial: Space, w: World, wanted: Import, j: nat, address: u64)
    requires Sane(c, initial, w, |w.images|) && j < |w.images| && w.images[j].name == wanted.from
    requires c.exported(w.images[j].file, w.images[j].base, wanted) == Ok(address - w.images[j].base)
    ensures AddressOf(c, w.images, wanted) == Some(address)
  {
    hide Sane;
    SaneNames(c, initial, w, |w.images|);
    FoundFirst(w.images, wanted.from, j);
  }

  lemma RememberSizes(c: Contents, images: seq<UserImage>, memory: seq<seq<byte>>)
    requires Remembers(c, images, memory)
    ensures |memory| == |images|
  {
    hide Filled;
  }

  lemma NothingBound(c: Contents, s: Space, images: seq<UserImage>, i: UserImage, uses: set<nat>)
    ensures Bound(c, s, images, i, uses, 0)
  {
  }

  lemma NothingPatched(c: Contents, images: seq<UserImage>, mem: seq<byte>, imports: seq<Import>)
    ensures Patched(c, images, mem, imports, 0) == mem
  {
  }

  lemma FilledIs(c: Contents, images: seq<UserImage>, i: UserImage, memory: seq<byte>)
    requires c.parse(i.file).Ok? && InFile(c.parse(i.file).value, i.file)
    requires Prepared(c.parse(i.file).value, i.file, i.base).Ok?
    requires var imports := c.imports(i.file, i.base).imports;
             && memory == Patched(c, images, Prepared(c.parse(i.file).value, i.file, i.base).value, imports, |imports|)
             && forall k :: 0 <= k < |imports| ==> imports[k].slot + 8 <= |memory|
    ensures Filled(c, images, i, memory)
  {
    hide Patched, Prepared, InFile;
  }

  lemma SaneAtFirst(c: Contents, initial: Space)
    requires SpaceOk(initial)
    ensures Sane(c, initial, World([], initial, [], [], 0), 0)
    ensures SameMappings(initial, initial)
  {
    hide SpaceOk;
  }
}
