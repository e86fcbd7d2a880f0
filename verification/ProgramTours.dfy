/**
 * When a program with imports loads (kernel/pe/user_image.c): the order in which its modules are
 * visited, which settles where each of them goes, and the conditions they have to meet there.
 */
module ProgramTours {
  import opened Status
  import opened Unicode
  import opened AddressSpaces
  import opened UserImages
  import opened ImageMemory
  import opened Relocation
  import opened ProgramPlans

  // The tour of a program.

  /** A module and the base it is mapped at. */
  datatype Place = Place(name: Name, base: nat)

  function FindPlace(places: seq<Place>, name: Name): (i: nat)
    ensures i <= |places|
    ensures i < |places| ==> places[i].name == name
    ensures forall j :: 0 <= j < i ==> places[j].name != name
  {
    if places == [] then 0 else if places[0].name == name then 0 else 1 + FindPlace(places[1..], name)
  }

  predicate HasName(places: seq<Place>, name: Name) { FindPlace(places, name) < |places| }

  /** The space once the modules of some places are mapped; protections aside. */
  function Room(c: Contents, o: Options, initial: Space, main: Program, places: seq<Place>): Space
    decreases |places|
  {
    if places == [] then initial
    else
      var n := |places| - 1;
      var before := Room(c, o, initial, main, places[..n]);
      var image := ImageOf(c, o, main, places[n].name);
      if image.None? then before else MapOwned(before, places[n].base, image.value.size, READ_WRITE).space
  }

  /** Where a module goes after those that are placed. */
  function NextPlace(c: Contents, o: Options, initial: Space, main: Program, places: seq<Place>, name: Name): Place
    requires ImageOf(c, o, main, name).Some?
  {
    Place(name, SelectBase(ImageOf(c, o, main, name).value, o, Room(c, o, initial, main, places), name == main.name).base)
  }

  function ImportsAt(c: Contents, o: Options, main: Program, place: Place): ImportTable
    requires ImageOf(c, o, main, place.name).Some?
  {
    c.imports(FileOf(o, main, place.name).value, place.base)
  }

  /** The places after a module and, in the order of its imports, the modules it needs that have none yet. */
  function Visit(c: Contents, o: Options, initial: Space, main: Program, places: seq<Place>, name: Name): (q: seq<Place>)
    ensures places <= q && (|places| <= CAPACITY ==> |q| <= CAPACITY) && (|places| >= CAPACITY ==> q == places)
    decreases CAPACITY - |places|, 0
  {
    if HasName(places, name) || |places| >= CAPACITY || ImageOf(c, o, main, name).None? then places
    else
      var place := NextPlace(c, o, initial, main, places, name);
      VisitAll(c, o, initial, main, places + [place], ImportsAt(c, o, main, place).imports)
  }

  function VisitAll(c: Contents, o: Options, initial: Space, main: Program, places: seq<Place>, imports: seq<Import>): (q: seq<Place>)
    ensures places <= q && (|places| <= CAPACITY ==> |q| <= CAPACITY) && (|places| >= CAPACITY ==> q == places)
    decreases CAPACITY - |places|, |imports| + 1
  {
    if imports == [] then places
    else VisitAll(c, o, initial, main, Visit(c, o, initial, main, places, imports[0].from), imports[1..])
  }

  /** The places of a whole program. */
  function Tour(c: Contents, o: Options, initial: Space, main: Program): seq<Place> {
    Visit(c, o, initial, main, [], main.name)
  }

  /** The place that an import goes to has code under its symbol. */
  ghost predicate ExportAt(c: Contents, o: Options, main: Program, places: seq<Place>, wanted: Import) {
    && HasName(places, wanted.from) && ImageOf(c, o, main, wanted.from).Some?
    && var image, base := ImageOf(c, o, main, wanted.from).value, places[FindPlace(places, wanted.from)].base;
       var e := c.exported(FileOf(o, main, wanted.from).value, base, wanted);
       e.Ok? && 0 < e.value < image.size && CodeAt(image, base, e.value)
  }

  /** A module can be filled and sealed at its place, and every import has a slot and code to go to. */
  ghost predicate ModuleAt(c: Contents, o: Options, main: Program, places: seq<Place>, place: Place) {
    && ImageOf(c, o, main, place.name).Some?
    && var image, table := ImageOf(c, o, main, place.name).value, ImportsAt(c, o, main, place);
       && InFile(image, FileOf(o, main, place.name).value)
       && Prepared(image, FileOf(o, main, place.name).value, place.base).Ok?
       && table.end.Ok()
       && (forall i :: 0 <= i < |image.sections| ==> !(image.sections[i].write && image.sections[i].execute))
       && (place.name == main.name ==> CodeAt(image, place.base, image.entry))
       && (forall k :: 0 <= k < |table.imports| ==>
             table.imports[k].slot + 8 <= image.size && ExportAt(c, o, main, places, table.imports[k]))
  }

  /** There is room for every module when its turn comes. */
  ghost predicate Housed(c: Contents, o: Options, initial: Space, main: Program, places: seq<Place>) {
    forall i :: 0 <= i < |places| ==> HousedAt(c, o, initial, main, places, i)
  }

  ghost predicate HousedAt(c: Contents, o: Options, initial: Space, main: Program, places: seq<Place>, i: nat)
    requires i < |places|
  {
    && ImageOf(c, o, main, places[i].name).Some?
    && HasPlace(o, Room(c, o, initial, main, places[..i]), ImageOf(c, o, main, places[i].name).value, places[i].name == main.name)
  }

  /** Each module is ranked above those it imports. */
  ghost predicate RankedAt(c: Contents, o: Options, main: Program, p: Plan, place: Place)
    requires ImageOf(c, o, main, place.name).Some?
  {
    && place.name in p.rank
    && forall k :: 0 <= k < |ImportsAt(c, o, main, place).imports| ==>
         var from := ImportsAt(c, o, main, place).imports[k].from; from in p.rank && p.rank[from] < p.rank[place.name]
  }

  ghost predicate StopOk(c: Contents, o: Options, main: Program, tour: seq<Place>, p: Plan, place: Place) {
    ModuleAt(c, o, main, tour, place) && RankedAt(c, o, main, p, place)
  }

  /** Every module of the tour has room, is fit for its place and is ranked above those it imports. */
  ghost predicate TourOk(c: Contents, o: Options, initial: Space, main: Program, tour: seq<Place>, p: Plan) {
    && HasName(tour, main.name) && |tour| <= CAPACITY && Housed(c, o, initial, main, tour)
    && forall i :: 0 <= i < |tour| ==> StopOk(c, o, main, tour, p, tour[i])
  }

  // The images of a load and the places they take.

  function PlacesOf(images: seq<UserImage>): (places: seq<Place>)
    ensures |places| == |images|
  {
    seq(|images|, i requires 0 <= i < |images| => Place(images[i].name, images[i].base))
  }

  lemma {:induction false} SameFind(images: seq<UserImage>, name: Name)
    ensures FindPlace(PlacesOf(images), name) == FindImage(images, name)
  {
    if images != [] {
      assert PlacesOf(images)[1..] == PlacesOf(images[1..]);
      SameFind(images[1..], name);
    }
  }

  ghost predicate ImageSited(c: Contents, o: Options, main: Program, i: UserImage) {
    && ImageOf(c, o, main, i.name).Some? && FileOf(o, main, i.name) == Some(i.file)
    && i.size == ImageOf(c, o, main, i.name).value.size && i.main == (i.name == main.name)
  }

  /** The images loaded so far are those of the program, there was room for each, and the space is as the tour has it. */
  ghost predicate Sited(c: Contents, o: Options, initial: Space, main: Program, w: World) {
    && w.space.regions == Room(c, o, initial, main, PlacesOf(w.images)).regions
    && w.space.luck == Room(c, o, initial, main, PlacesOf(w.images)).luck
    && (w.images != [] ==> w.images[0].name == main.name)
    && (forall i :: 0 <= i < |w.images| ==> ImageSited(c, o, main, w.images[i]))
    && Housed(c, o, initial, main, PlacesOf(w.images))
  }

  // Room depends on the regions taken and on the allocator only.

  lemma SameRoom(s: Space, t: Space, o: Options, image: PeImage, isMain: bool)
    requires s.regions == t.regions && s.luck == t.luck
    ensures SelectBase(image, o, s, isMain) == SelectBase(image, o, t, isMain)
    ensures HasPlace(o, s, image, isMain) <==> HasPlace(o, t, image, isMain)
  {
    hide SelectBase, MapOwned;
    SameChoice(s, t, o, image, isMain);
    SameMapping(s, t, SelectBase(image, o, s, isMain).base, image.size);
  }

  lemma SameChoice(s: Space, t: Space, o: Options, image: PeImage, isMain: bool)
    requires s.regions == t.regions
    ensures SelectBase(image, o, s, isMain) == SelectBase(image, o, t, isMain)
  {
    hide FindFreeRange;
    SameRange(s, t, image.base, image.base + image.size, image.size, PAGE);
    SameRange(s, t, o.searchBase, o.searchEnd, image.size, o.alignment);
    SameRange(s, t, image.base + o.alignment, o.searchEnd, image.size, o.alignment);
  }

  lemma SameRange(s: Space, t: Space, base: nat, end: nat, size: nat, alignment: nat)
    requires s.regions == t.regions
    ensures FindFreeRange(s, base, end, size, alignment) == FindFreeRange(t, base, end, size, alignment)
  {
    hide Search, IsFree;
  }

  lemma SameMapping(s: Space, t: Space, base: nat, size: nat)
    requires s.regions == t.regions && s.luck == t.luck
    ensures var a, b := MapOwned(s, base, size, READ_WRITE), MapOwned(t, base, size, READ_WRITE);
            a.status == b.status && a.space.regions == b.space.regions && a.space.luck == b.space.luck
  {
    hide IsFree, Paint;
  }

  // Tours.

  lemma VisitFirst(c: Contents, o: Options, initial: Space, main: Program, places: seq<Place>, imports: seq<Import>, k: nat)
    requires k < |imports|
    ensures var q := Visit(c, o, initial, main, places, imports[k].from);
            && VisitAll(c, o, initial, main, places, imports[k..]) == VisitAll(c, o, initial, main, q, imports[k + 1..])
            && q <= VisitAll(c, o, initial, main, places, imports[k..])
  {
    hide Visit;
    assert imports[k..][0] == imports[k] && imports[k..][1..] == imports[k + 1..];
  }

  lemma VisitNone(c: Contents, o: Options, initial: Space, main: Program, places: seq<Place>, imports: seq<Import>)
    ensures VisitAll(c, o, initial, main, places, imports[|imports|..]) == places && imports[0..] == imports
  {
    hide Visit;
    assert imports[|imports|..] == [];
  }

  lemma VisitThere(c: Contents, o: Options, initial: Space, main: Program, images: seq<UserImage>, name: Name)
    requires FindImage(images, name) < |images|
    ensures Visit(c, o, initial, main, PlacesOf(images), name) == PlacesOf(images)
  {
    hide VisitAll, PlacesOf;
    SameFind(images, name);
  }

  lemma VisitNew(c: Contents, o: Options, initial: Space, main: Program, images: seq<UserImage>, name: Name)
    requires |images| < CAPACITY && FindImage(images, name) == |images| && ImageOf(c, o, main, name).Some?
    ensures var place := NextPlace(c, o, initial, main, PlacesOf(images), name);
            Visit(c, o, initial, main, PlacesOf(images), name)
            == VisitAll(c, o, initial, main, PlacesOf(images) + [place], ImportsAt(c, o, main, place).imports)
  {
    hide VisitAll, PlacesOf, NextPlace, ImportsAt, ImageOf;
    SameFind(images, name);
  }

  // How a load keeps to its places.

  lemma PlacesMore(images: seq<UserImage>, later: seq<UserImage>)
    requires |later| == |images| + 1 && later[..|images|] == images
    ensures PlacesOf(later) == PlacesOf(images) + [Place(later[|images|].name, later[|images|].base)]
  {
    assert forall i :: 0 <= i < |images| ==> later[i] == later[..|images|][i];
  }

  lemma RoomMore(c: Contents, o: Options, initial: Space, main: Program, places: seq<Place>, place: Place)
    requires ImageOf(c, o, main, place.name).Some?
    ensures Room(c, o, initial, main, places + [place])
         == MapOwned(Room(c, o, initial, main, places), place.base, ImageOf(c, o, main, place.name).value.size, READ_WRITE).space
  {
    hide ImageOf, MapOwned;
    assert (places + [place])[..|places|] == places;
  }

  lemma HousedMore(c: Contents, o: Options, initial: Space, main: Program, places: seq<Place>, place: Place)
    requires Housed(c, o, initial, main, places) && ImageOf(c, o, main, place.name).Some?
    requires HasPlace(o, Room(c, o, initial, main, places), ImageOf(c, o, main, place.name).value, place.name == main.name)
    ensures Housed(c, o, initial, main, places + [place])
  {
    hide ImageOf, HasPlace, Room;
    var q := places + [place];
    assert q[..|places|] == places;
    forall i | 0 <= i < |q|
      ensures HousedAt(c, o, initial, main, q, i)
    {
      if i < |places| {
        assert HousedAt(c, o, initial, main, places, i) && q[..i] == places[..i];
      }
    }
  }

  /** The module just mapped takes the next place of the tour. */
  lemma SitedMore(c: Contents, o: Options, initial: Space, main: Program, w: World, v: World, name: Name, file: File)
    requires Sited(c, o, initial, main, w) && |v.images| == |w.images| + 1 && v.images[..|w.images|] == w.images
    requires w.images == [] <==> name == main.name
    requires ImageOf(c, o, main, name).Some? && FileOf(o, main, name) == Some(file)
    requires v.images[|w.images|].(base := 0)
          == UserImage(name, file, 0, ImageOf(c, o, main, name).value.size, Loading, name == main.name)
    requires var image := ImageOf(c, o, main, name).value;
             var base := SelectBase(image, o, w.space, name == main.name).base;
             && HasPlace(o, w.space, image, name == main.name) && v.images[|w.images|].base == base
             && v.space == MapOwned(w.space, base, image.size, READ_WRITE).space
    ensures Sited(c, o, initial, main, v)
    ensures PlacesOf(v.images) == PlacesOf(w.images) + [NextPlace(c, o, initial, main, PlacesOf(w.images), name)]
  {
    hide ImageOf, HasPlace, SelectBase, MapOwned, Housed, Room, PlacesOf;
    var places, image := PlacesOf(w.images), ImageOf(c, o, main, name).value;
    var room := Room(c, o, initial, main, places);
    SameRoom(w.space, room, o, image, name == main.name);
    var place := NextPlace(c, o, initial, main, places, name);
    PlacesMore(w.images, v.images);
    RoomMore(c, o, initial, main, places, place);
    SameMapping(w.space, room, place.base, image.size);
    HousedMore(c, o, initial, main, places, place);
    forall i | 0 <= i < |v.images|
      ensures ImageSited(c, o, main, v.images[i])
    {
      if i < |w.images| {
        assert v.images[i] == v.images[..|w.images|][i] == w.images[i];
      }
    }
    if w.images != [] {
      assert v.images[0] == v.images[..|w.images|][0];
    }
  }

  lemma SamePlaces(images: seq<UserImage>, later: seq<UserImage>)
    requires |images| == |later| && forall i :: 0 <= i < |images| ==> SameFile(later[i], images[i])
    ensures PlacesOf(later) == PlacesOf(images)
  {
  }

  lemma SitedSealed(c: Contents, o: Options, initial: Space, main: Program, w: World, v: World, me: nat)
    requires Sited(c, o, initial, main, w) && me < |w.images| && v.space.luck == w.space.luck && v.space.regions == w.space.regions
    requires v.images == w.images[me := w.images[me].(state := Ready)]
    ensures Sited(c, o, initial, main, v) && PlacesOf(v.images) == PlacesOf(w.images)
  {
    hide ImageOf, Housed, Room, PlacesOf;
    SamePlaces(w.images, v.images);
    forall i | 0 <= i < |v.images|
      ensures ImageSited(c, o, main, v.images[i])
    {
      assert ImageSited(c, o, main, w.images[i]);
    }
  }

  lemma SitedSame(c: Contents, o: Options, initial: Space, main: Program, w: World, v: World)
    requires Sited(c, o, initial, main, w) && v.images == w.images && v.space == w.space
    ensures Sited(c, o, initial, main, v)
  {
    hide ImageSited, Housed, Room, PlacesOf;
  }

  lemma SitedAccepted(c: Contents, o: Options, main: Program, i: UserImage)
    requires ImageSited(c, o, main, i)
    ensures ImageAccepted(c, i.file, i.main) && c.parse(i.file) == Ok(ImageOf(c, o, main, i.name).value)
    ensures i.size == c.parse(i.file).value.size && c.parse(i.file).value.entry < i.size
  {
    hide ContractValid, FindSource;
  }

  lemma SitedImage(c: Contents, o: Options, initial: Space, main: Program, w: World, i: nat)
    requires Sited(c, o, initial, main, w) && i < |w.images|
    ensures ImageSited(c, o, main, w.images[i])
  {
    hide ImageSited, Housed, Room, PlacesOf;
  }

  /** The program itself is loaded first. */
  lemma MainIsFirst(c: Contents, o: Options, initial: Space, main: Program, w: World)
    requires Sited(c, o, initial, main, w) && w.images != []
    ensures FindImage(w.images, main.name) < |w.images|
  {
    hide ImageSited, Housed, Room, PlacesOf;
  }

  // Following a tour.

  datatype Goal = Goal(main: Program, tour: seq<Place>, plan: Plan)

  /** So far the load follows the tour, and whatever is still loading is ranked no lower than r. */
  ghost predicate Underway(c: Contents, o: Options, initial: Space, goal: Goal, w: World, r: nat) {
    && Sited(c, o, initial, goal.main, w) && TourOk(c, o, initial, goal.main, goal.tour, goal.plan)
    && PlacesOf(w.images) <= goal.tour
    && forall i :: 0 <= i < |w.images| && w.images[i].state == Loading ==>
         w.images[i].name in goal.plan.rank && r <= goal.plan.rank[w.images[i].name]
  }

  lemma UnderwayStays(c: Contents, o: Options, initial: Space, goal: Goal, w: World, v: World, r: nat)
    requires Underway(c, o, initial, goal, w, r) && Sited(c, o, initial, goal.main, v) && PlacesOf(v.images) <= goal.tour
    requires |w.images| <= |v.images| && ReadyFrom(v, |w.images|)
    requires forall j :: 0 <= j < |w.images| ==> v.images[j] == w.images[j]
    ensures Underway(c, o, initial, goal, v, r)
  {
    hide Sited, TourOk, PlacesOf;
  }

  lemma UnderwayLower(c: Contents, o: Options, initial: Space, goal: Goal, w: World, r: nat, lower: nat)
    requires Underway(c, o, initial, goal, w, r) && lower <= r
    ensures Underway(c, o, initial, goal, w, lower)
  {
    hide Sited, TourOk, PlacesOf;
  }

  lemma UnderwaySame(c: Contents, o: Options, initial: Space, goal: Goal, w: World, v: World, r: nat)
    requires Underway(c, o, initial, goal, w, r) && v.images == w.images && v.space == w.space
    ensures Underway(c, o, initial, goal, v, r)
  {
    hide Sited, TourOk, PlacesOf;
    SitedSame(c, o, initial, goal.main, w, v);
  }

  lemma UnderwaySited(c: Contents, o: Options, initial: Space, goal: Goal, w: World, r: nat)
    requires Underway(c, o, initial, goal, w, r)
    ensures Sited(c, o, initial, goal.main, w)
  {
    hide Sited, TourOk, PlacesOf;
  }

  /** A stop of a tour: its place, and what holds there. */
  lemma TourStop(c: Contents, o: Options, initial: Space, main: Program, tour: seq<Place>, p: Plan, i: nat)
    requires TourOk(c, o, initial, main, tour, p) && i < |tour|
    ensures ImageOf(c, o, main, tour[i].name).Some? && tour[i].name in p.rank
    ensures ModuleAt(c, o, main, tour, tour[i]) && RankedAt(c, o, main, p, tour[i])
    ensures HousedAt(c, o, initial, main, tour, i)
  {
    hide ImageOf, ExportAt, HousedAt, CodeAt, Prepared, InFile;
    assert StopOk(c, o, main, tour, p, tour[i]);
  }

  lemma StopOf(c: Contents, o: Options, initial: Space, goal: Goal, w: World, r: nat, i: nat)
    requires Underway(c, o, initial, goal, w, r) && i < |w.images|
    ensures i < |goal.tour| && goal.tour[i] == Place(w.images[i].name, w.images[i].base)
    ensures ImageOf(c, o, goal.main, w.images[i].name).Some? && w.images[i].name in goal.plan.rank
    ensures ModuleAt(c, o, goal.main, goal.tour, goal.tour[i]) && RankedAt(c, o, goal.main, goal.plan, goal.tour[i])
  {
    hide Sited, TourOk, ModuleAt, RankedAt, ImageOf, HousedAt;
    assert goal.tour[i] == PlacesOf(w.images)[i];
    TourStop(c, o, initial, goal.main, goal.tour, goal.plan, i);
  }

  /** A stop of the tour that is not there yet can be loaded, and one that is there and ranked low is ready. */
  lemma NextIsFine(c: Contents, o: Options, initial: Space, goal: Goal, w: World, name: Name)
    requires HasName(goal.tour, name) && name in goal.plan.rank && Underway(c, o, initial, goal, w, goal.plan.rank[name] + 1)
    ensures ImageOf(c, o, goal.main, name).Some?
    ensures var i := FindImage(w.images, name);
            if i < |w.images| then w.images[i].state == Ready else |w.images| < CAPACITY
  {
    hide Sited, ImageOf, Housed, StopOk, PlacesOf;
    var i := FindImage(w.images, name);
    var j := FindPlace(goal.tour, name);
    StopNamed(c, o, initial, goal, name);
    SameFind(w.images, name);
  }

  lemma StopNamed(c: Contents, o: Options, initial: Space, goal: Goal, name: Name)
    requires HasName(goal.tour, name) && TourOk(c, o, initial, goal.main, goal.tour, goal.plan)
    ensures ImageOf(c, o, goal.main, name).Some? && |goal.tour| <= CAPACITY
  {
    hide ImageOf, StopOk, HasPlace, Room;
    assert HousedAt(c, o, initial, goal.main, goal.tour, FindPlace(goal.tour, name));
  }

  /** There is room for the stop that comes next. */
  lemma RoomNext(c: Contents, o: Options, initial: Space, goal: Goal, w: World, r: nat, name: Name)
    requires Underway(c, o, initial, goal, w, r) && |w.images| < CAPACITY && FindImage(w.images, name) == |w.images|
    requires ImageOf(c, o, goal.main, name).Some? && Visit(c, o, initial, goal.main, PlacesOf(w.images), name) <= goal.tour
    ensures HasPlace(o, w.space, ImageOf(c, o, goal.main, name).value, name == goal.main.name)
  {
    hide ImageOf, HasPlace, StopOk, PlacesOf, ImageSited, VisitAll, Visit, NextPlace, Room;
    var places, n := PlacesOf(w.images), |w.images|;
    var place := NextPlace(c, o, initial, goal.main, places, name);
    VisitNew(c, o, initial, goal.main, w.images, name);
    NextName(c, o, initial, goal.main, places, name);
    assert goal.tour[..n + 1] == places + [place];
    assert goal.tour[n] == place && goal.tour[..n] == places;
    assert HousedAt(c, o, initial, goal.main, goal.tour, n);
    SameRoom(w.space, Room(c, o, initial, goal.main, places), o, ImageOf(c, o, goal.main, name).value, name == goal.main.name);
  }

  lemma NextName(c: Contents, o: Options, initial: Space, main: Program, places: seq<Place>, name: Name)
    requires ImageOf(c, o, main, name).Some?
    ensures NextPlace(c, o, initial, main, places, name).name == name
  {
    hide SelectBase, Room;
  }

  lemma UnderwayMore(c: Contents, o: Options, initial: Space, goal: Goal, w: World, v: World, name: Name)
    requires name in goal.plan.rank && Underway(c, o, initial, goal, w, goal.plan.rank[name] + 1)
    requires Sited(c, o, initial, goal.main, v) && |v.images| == |w.images| + 1 && v.images[..|w.images|] == w.images
    requires v.images[|w.images|].name == name && PlacesOf(v.images) <= goal.tour
    ensures Underway(c, o, initial, goal, v, goal.plan.rank[name])
  {
    hide Sited, TourOk, PlacesOf;
    assert forall j :: 0 <= j < |w.images| ==> v.images[j] == v.images[..|w.images|][j];
  }

  /** What the stop of a loading image holds ready for it. */
  lemma CourseFacts(c: Contents, o: Options, initial: Space, goal: Goal, w: World, r: nat, me: nat)
    requires Underway(c, o, initial, goal, w, r) && me < |w.images|
    ensures ImageOf(c, o, goal.main, w.images[me].name).Some? && w.images[me].name in goal.plan.rank
    ensures c.parse(w.images[me].file) == Ok(ImageOf(c, o, goal.main, w.images[me].name).value)
    ensures InFile(c.parse(w.images[me].file).value, w.images[me].file)
    ensures Prepared(c.parse(w.images[me].file).value, w.images[me].file, w.images[me].base).Ok?
    ensures w.images[me].size == c.parse(w.images[me].file).value.size
    ensures c.imports(w.images[me].file, w.images[me].base).end.Ok()
  {
    hide Sited, Underway, InFile, Prepared, ImageOf, ContractValid, ExportAt, CodeAt, RankedAt;
    StopOf(c, o, initial, goal, w, r, me);
    UnderwaySited(c, o, initial, goal, w, r);
    SitedImage(c, o, initial, goal.main, w, me);
    SitedAccepted(c, o, goal.main, w.images[me]);
  }

  /** The next import of a loading image leads to a stop of the tour that is ranked lower. */
  lemma PlannedImport(c: Contents, o: Options, initial: Space, goal: Goal, w: World, r: nat, me: nat, k: nat)
    requires Underway(c, o, initial, goal, w, r) && me < |w.images|
    requires k < |c.imports(w.images[me].file, w.images[me].base).imports|
    ensures var wanted := c.imports(w.images[me].file, w.images[me].base).imports[k];
            && w.images[me].name in goal.plan.rank && wanted.from in goal.plan.rank && HasName(goal.tour, wanted.from)
            && goal.plan.rank[wanted.from] < goal.plan.rank[w.images[me].name]
            && ExportAt(c, o, goal.main, goal.tour, wanted) && wanted.slot + 8 <= w.images[me].size
  {
    hide Sited, Underway, CodeAt, ImageOf, Prepared, InFile, FindPlace;
    StopOf(c, o, initial, goal, w, r, me);
    UnderwaySited(c, o, initial, goal, w, r);
    SitedImage(c, o, initial, goal.main, w, me);
    assert ImportsAt(c, o, goal.main, goal.tour[me]) == c.imports(w.images[me].file, w.images[me].base);
  }

  /** A ready image at its stop exports what the tour says. */
  lemma ExportsAtStop(c: Contents, o: Options, initial: Space, goal: Goal, w: World, r: nat, j: nat, wanted: Import)
    requires Sane(c, initial, w, |w.images|) && Underway(c, o, initial, goal, w, r) && j < |w.images| && w.images[j].state == Ready
    requires w.images[j].name == wanted.from && ExportAt(c, o, goal.main, goal.tour, wanted)
    ensures Exports(c, w.space, w.images[j], wanted)
  {
    hide Sane, Sited, Underway, ImageOf, CodeAt, Executable, ImageAccepted, ModuleAt, RankedAt;
    StopOf(c, o, initial, goal, w, r, j);
    UnderwaySited(c, o, initial, goal, w, r);
    SitedImage(c, o, initial, goal.main, w, j);
    SitedAccepted(c, o, goal.main, w.images[j]);
    FoundAt(c, o, initial, goal, w, r, j);
    ReadyCode(c, initial, w, j, w.images[j].main, c.exported(w.images[j].file, w.images[j].base, wanted).value);
  }

  /** The first stop with an image's name is that image's. */
  lemma FoundAt(c: Contents, o: Options, initial: Space, goal: Goal, w: World, r: nat, j: nat)
    requires Sane(c, initial, w, |w.images|) && Underway(c, o, initial, goal, w, r) && j < |w.images|
    ensures FindPlace(goal.tour, w.images[j].name) == j < |goal.tour|
  {
    hide SpaceOk, Finished, UsesReady, Unprotected, Sited, TourOk;
    var i := FindPlace(goal.tour, w.images[j].name);
    assert goal.tour[j] == PlacesOf(w.images)[j];
    assert i <= j;
    assert goal.tour[i] == PlacesOf(w.images)[i];
  }

  /** A planned image that is mapped can be sealed. */
  lemma SealsAtStop(c: Contents, o: Options, initial: Space, goal: Goal, w: World, r: nat, me: nat)
    requires Sane(c, initial, w, |w.images|) && Underway(c, o, initial, goal, w, r) && me < |w.images|
    ensures c.parse(w.images[me].file).Ok?
    ensures Seals(w.space, w.images[me].base, c.parse(w.images[me].file).value, w.images[me].main)
  {
    hide Sane, Sited, Underway, Seals, CodeAt, InFile, ContractValid, ExportAt, SpaceOk, FindSource, Prepared, RankedAt;
    var u := w.images[me];
    StopOf(c, o, initial, goal, w, r, me);
    UnderwaySited(c, o, initial, goal, w, r);
    SitedImage(c, o, initial, goal.main, w, me);
    SitedAccepted(c, o, goal.main, u);
    HeldRegion(c, initial, w, me);
    SaneSpace(c, initial, w, |w.images|);
    SealsExactly(w.space, u.base, ImageOf(c, o, goal.main, u.name).value, u.main);
  }

  lemma FreshStart(c: Contents, o: Options, initial: Space, goal: Goal, w: World)
    requires w.images == [] && w.space == initial
    ensures Sited(c, o, initial, goal.main, w) && PlacesOf(w.images) == []
    ensures TourOk(c, o, initial, goal.main, goal.tour, goal.plan) ==>
      && goal.main.name in goal.plan.rank && HasName(goal.tour, goal.main.name)
      && Underway(c, o, initial, goal, w, goal.plan.rank[goal.main.name] + 1)
  {
    hide ModuleAt;
    if TourOk(c, o, initial, goal.main, goal.tour, goal.plan) {
      assert StopOk(c, o, goal.main, goal.tour, goal.plan, goal.tour[FindPlace(goal.tour, goal.main.name)]);
    }
  }

  // The tour of a loaded program.

  /** An import of a ready image goes to code of a module that was ready earlier. */
  lemma ImportToured(c: Contents, o: Options, initial: Space, main: Program, w: World, i: nat, k: nat)
    requires Sane(c, initial, w, |w.images|) && Sited(c, o, initial, main, w) && i < |w.images| && w.images[i].state == Ready
    requires k < |c.imports(w.images[i].file, w.images[i].base).imports|
    ensures var wanted := c.imports(w.images[i].file, w.images[i].base).imports[k];
            && |w.rank| == |w.images| && wanted.from in PlanOf(w).rank && PlanOf(w).rank[wanted.from] < w.rank[i]
            && ExportAt(c, o, main, PlacesOf(w.images), wanted)
  {
    hide Sane, Sited, PlanOf, ImageOf, CodeAt, Executable, ImageAccepted;
    var wanted := c.imports(w.images[i].file, w.images[i].base).imports[k];
    var j := ImportProvided(c, initial, w, i, k);
    RankAt(w, j);
    SameFind(w.images, wanted.from);
    SitedImage(c, o, initial, main, w, j);
    SitedAccepted(c, o, main, w.images[j]);
    ReadyCode(c, initial, w, j, w.images[j].main, c.exported(w.images[j].file, w.images[j].base, wanted).value);
  }

  lemma ModuleToured(c: Contents, o: Options, initial: Space, main: Program, w: World, memory: seq<seq<byte>>, i: nat)
    requires Sane(c, initial, w, |w.images|) && Sited(c, o, initial, main, w) && i < |w.images| && w.images[i].state == Ready
    requires Remembers(c, w.images, memory)
    ensures ModuleAt(c, o, main, PlacesOf(w.images), PlacesOf(w.images)[i])
  {
    hide ImageOf, ExportAt, CodeAt, SpaceOk, Protected, Unprotected, UsesReady, Patched, Prepared, InFile, ImageAccepted, Sited;
    var u := w.images[i];
    SitedImage(c, o, initial, main, w, i);
    assert Finished(c, w, i) && Filled(c, w.images, u, memory[i]);
    SitedAccepted(c, o, main, u);
    var image := c.parse(u.file).value;
    var imports := c.imports(u.file, u.base).imports;
    hide Sane;
    forall k | 0 <= k < |imports|
      ensures imports[k].slot + 8 <= image.size && ExportAt(c, o, main, PlacesOf(w.images), imports[k])
    {
      ImportToured(c, o, initial, main, w, i, k);
    }
    forall k | 0 <= k < |image.sections|
      ensures !(image.sections[k].write && image.sections[k].execute)
    {
      NoWritableCode(c, initial, w, i, u.main, k);
    }
    ReadyCode(c, initial, w, i, u.main, image.entry);
  }

  lemma StopToured(c: Contents, o: Options, initial: Space, main: Program, w: World, memory: seq<seq<byte>>, i: nat)
    requires Sane(c, initial, w, |w.images|) && Sited(c, o, initial, main, w) && i < |w.images| && w.images[i].state == Ready
    requires Remembers(c, w.images, memory) && NamesDistinct(w.images) && |w.rank| == |w.images|
    ensures StopOk(c, o, main, PlacesOf(w.images), PlanOf(w), PlacesOf(w.images)[i])
  {
    hide Sane, Remembers, Sited, ImageOf, PlanOf, ExportAt, CodeAt, Prepared, InFile;
    RankAt(w, i);
    SitedImage(c, o, initial, main, w, i);
    ModuleToured(c, o, initial, main, w, memory, i);
    forall k | 0 <= k < |c.imports(w.images[i].file, w.images[i].base).imports|
      ensures var from := c.imports(w.images[i].file, w.images[i].base).imports[k].from;
              from in PlanOf(w).rank && PlanOf(w).rank[from] < w.rank[i]
    {
      ImportToured(c, o, initial, main, w, i, k);
    }
  }

  /** The places of a loaded program are a tour, and the order in which its images became ready is a plan for it. */
  lemma LoadedIsTour(c: Contents, o: Options, initial: Space, main: Program, w: World, memory: seq<seq<byte>>)
    requires Sane(c, initial, w, |w.images|) && Sited(c, o, initial, main, w) && ReadyFrom(w, 0) && w.images != []
    requires Remembers(c, w.images, memory)
    ensures |w.rank| == |w.images| && TourOk(c, o, initial, main, PlacesOf(w.images), PlanOf(w))
  {
    hide Remembers, StopOk, ImageOf, SpaceOk, Finished, UsesReady, Unprotected, ImageSited, Housed, Room, PlanOf;
    SaneSpace(c, initial, w, |w.images|);
    SameFind(w.images, main.name);
    MainIsFirst(c, o, initial, main, w);
    forall i | 0 <= i < |w.images|
      ensures StopOk(c, o, main, PlacesOf(w.images), PlanOf(w), PlacesOf(w.images)[i])
    {
      StopToured(c, o, initial, main, w, memory, i);
    }
  }

  /** The program's own image and, under its name, the file of a source for every other one, each well formed. */
  ghost predicate Assembled(c: Contents, o: Options, main: Program, images: seq<UserImage>) {
    && images != [] && images[0].name == main.name && images[0].file == main.file
    && (forall i :: 0 < i < |images| ==> Source(images[i].name, images[i].file) in o.sources)
    && forall i :: 0 <= i < |images| ==> Shaped(c, images[i], i == 0)
  }

  ghost predicate Shaped(c: Contents, i: UserImage, isMain: bool) {
    && c.parse(i.file).Ok? && ProperImage(c.parse(i.file).value, isMain)
    && i.size == c.parse(i.file).value.size && i.main == isMain
  }

  lemma SitedAssembled(c: Contents, o: Options, initial: Space, main: Program, w: World)
    requires Sited(c, o, initial, main, w) && w.images != [] && NamesDistinct(w.images)
    ensures Assembled(c, o, main, w.images)
  {
    hide ImageSited, Housed, Room, PlacesOf, Shaped;
    forall i | 0 <= i < |w.images|
      ensures Shaped(c, w.images[i], i == 0)
      ensures i == 0 ==> w.images[i].file == main.file
      ensures i > 0 ==> Source(w.images[i].name, w.images[i].file) in o.sources
    {
      assert (i == 0) == (w.images[i].name == main.name);
      ImageShaped(c, o, main, w.images[i]);
    }
  }

  lemma ImageShaped(c: Contents, o: Options, main: Program, i: UserImage)
    requires ImageSited(c, o, main, i)
    ensures Shaped(c, i, i.name == main.name)
    ensures if i.name == main.name then i.file == main.file else Source(i.name, i.file) in o.sources
  {
    hide ContractValid, ProperImage, FindSource;
    SitedAccepted(c, o, main, i);
    ContractIs(c.parse(i.file).value, i.main);
    if i.name != main.name {
      SourceFound(o.sources, i.name);
    }
  }

  /** The byte belongs to a relocation target, and the image is not at its preferred base. */
  ghost predicate Moves(image: PeImage, base: nat, raw: seq<byte>, b: int) {
    && base != image.base
    && (image.directory + image.directorySize <= |raw| ==> Covered(TargetsOf(RelocationOf(image), raw), b))
  }

  /**
   * Every image of a loaded program holds what its file says, but for import slots, which hold the
   * addresses of their symbols, and for the relocation targets of one that is not at its preferred base.
   */
  lemma ProgramBytes(c: Contents, o: Options, main: Program, images: seq<UserImage>, memory: seq<seq<byte>>, i: nat, raw: seq<byte>)
    requires Assembled(c, o, main, images) && Remembers(c, images, memory) && i < |images| && images[i].state == Ready
    requires c.parse(images[i].file).Ok? && HoldsFile(c.parse(images[i].file).value, images[i].file, raw)
    requires var image := c.parse(images[i].file).value;
             images[i].base != image.base ==> WellPlaced(RelocationOf(image), raw)
    ensures var image, imports := c.parse(images[i].file).value, c.imports(images[i].file, images[i].base).imports;
            && |memory| == |images| && |memory[i]| == |raw| && SlotsBound(c, images, imports, memory[i])
            && forall b :: 0 <= b < |raw| && !InSlot(imports, |imports|, b) && !Moves(image, images[i].base, raw, b) ==>
                 memory[i][b] == raw[b]
  {
    hide HoldsFile, WellPlaced, SlotsBound, InSlot, Covered, Filled, SectionsValid, ProperImage, ParseBlocks;
    assert Shaped(c, images[i], i == 0) && Filled(c, images, images[i], memory[i]);
    ContractIs(c.parse(images[i].file).value, i == 0);
    if images[i].base == c.parse(images[i].file).value.base {
      LoadedAtHome(c, images, images[i], memory[i], raw);
    } else {
      LoadedBytes(c, images, images[i], memory[i], raw);
    }
  }

  lemma {:induction false} SourceFound(sources: seq<Source>, name: Name)
    requires FindSource(sources, name).Some?
    ensures FindSource(sources, name).value in sources && FindSource(sources, name).value.name == name
  {
    if sources[0].name != name {
      SourceFound(sources[1..], name);
    }
  }

  lemma TourNamesMain(c: Contents, o: Options, initial: Space, main: Program, tour: seq<Place>, p: Plan)
    requires TourOk(c, o, initial, main, tour, p)
    ensures main.file != [] && NameValid(main.name)
  {
    hide ImageAccepted, NameValid, FindSource, StopOk, HasPlace, Room;
    assert HousedAt(c, o, initial, main, tour, FindPlace(tour, main.name));
  }

  /** After mapping a module the tour goes on with its imports. */
  lemma TourMore(c: Contents, o: Options, initial: Space, main: Program, w: World, v: World, name: Name, file: File)
    requires Sited(c, o, initial, main, w) && |w.images| < CAPACITY && FindImage(w.images, name) == |w.images|
    requires |v.images| == |w.images| + 1 && v.images[..|w.images|] == w.images
    requires w.images == [] <==> name == main.name
    requires ImageOf(c, o, main, name).Some? && FileOf(o, main, name) == Some(file)
    requires v.images[|w.images|].(base := 0)
          == UserImage(name, file, 0, ImageOf(c, o, main, name).value.size, Loading, name == main.name)
    requires var image := ImageOf(c, o, main, name).value;
             var base := SelectBase(image, o, w.space, name == main.name).base;
             && HasPlace(o, w.space, image, name == main.name) && v.images[|w.images|].base == base
             && v.space == MapOwned(w.space, base, image.size, READ_WRITE).space
    ensures Sited(c, o, initial, main, v)
    ensures Visit(c, o, initial, main, PlacesOf(w.images), name)
         == VisitAll(c, o, initial, main, PlacesOf(v.images), c.imports(file, v.images[|w.images|].base).imports)
  {
    hide ImageOf, HasPlace, SelectBase, MapOwned, Sited, Room, Visit, VisitAll, FindSource;
    SitedMore(c, o, initial, main, w, v, name, file);
    VisitNew(c, o, initial, main, w.images, name);
    assert PlacesOf(v.images)[|w.images|] == NextPlace(c, o, initial, main, PlacesOf(w.images), name);
  }
}
