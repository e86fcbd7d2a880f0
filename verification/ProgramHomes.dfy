/**
 * Programs whose modules all find their preferred ranges free (kernel/pe/user_image.c): the tour puts
 * each of them there, so whether the program loads is settled by its files alone.
 */
module ProgramHomes {
  import opened Status
  import opened AddressSpaces
  import opened UserImages
  import opened ImageMemory
  import opened ProgramPlans
  import opened ProgramTours

  ghost predicate HomeAt(c: Contents, o: Options, main: Program, place: Place) {
    ImageOf(c, o, main, place.name).Some? && place.base == ImageOf(c, o, main, place.name).value.base
  }

  /** The places are the preferred ones of different modules, there was room for each, and nothing else was mapped. */
  ghost predicate AtHome(c: Contents, o: Options, initial: Space, main: Program, places: seq<Place>) {
    && (forall i :: 0 <= i < |places| ==> HomeAt(c, o, main, places[i]))
    && (forall i, j :: 0 <= i < j < |places| ==> places[i].name != places[j].name)
    && Housed(c, o, initial, main, places) && Room(c, o, initial, main, places).luck == []
    && HomesTaken(c, o, initial, main, places, Room(c, o, initial, main, places).regions)
  }

  ghost predicate HomesTaken(
    c: Contents, o: Options, initial: Space, main: Program, places: seq<Place>, regions: seq<Region>)
  {
    && |regions| == |initial.regions| + |places| && regions[..|initial.regions|] == initial.regions
    && forall i :: 0 <= i < |places| ==>
         && ImageOf(c, o, main, places[i].name).Some?
         && regions[|initial.regions| + i] == HomeOf(ImageOf(c, o, main, places[i].name).value)
  }

  lemma NotForced(c: Contents, o: Options, initial: Space, main: Program)
    requires Roomy(c, o, initial, main)
    ensures !o.force && initial.luck == [] && |initial.regions| + CAPACITY <= REGION_CAPACITY
  {
    hide ImageOf, IsFree, Touch;
  }

  /** The preferred range of a module that has no place yet is free. */
  lemma NextHomeFree(c: Contents, o: Options, initial: Space, main: Program, places: seq<Place>, regions: seq<Region>, name: Name)
    requires Roomy(c, o, initial, main) && HomesTaken(c, o, initial, main, places, regions)
    requires !HasName(places, name) && ImageOf(c, o, main, name).Some?
    ensures IsFree(regions, HomeOf(ImageOf(c, o, main, name).value))
  {
    hide ImageOf, Touch, HomeOf;
    var home, n := HomeOf(ImageOf(c, o, main, name).value), |initial.regions|;
    forall k | 0 <= k < |regions|
      ensures !Touch(home, regions[k])
    {
      if k < n {
        assert regions[k] == regions[..n][k];
      } else {
        assert regions[n + (k - n)] == HomeOf(ImageOf(c, o, main, places[k - n].name).value);
      }
    }
  }

  lemma HomeAccepted(c: Contents, o: Options, main: Program, name: Name)
    requires ImageOf(c, o, main, name).Some?
    ensures var image := ImageOf(c, o, main, name).value;
            && ContractValid(image, name == main.name)
            && FileOf(o, main, name).Some? && InFile(image, FileOf(o, main, name).value)
            && Prepared(image, FileOf(o, main, name).value, image.base).Ok?
  {
    hide FindSource, ContractValid, InFile, Prepared, NameValid;
    PreparedAtHome(ImageOf(c, o, main, name).value, FileOf(o, main, name).value);
  }

  /** A free preferred range is chosen, and the image is mapped there. */
  lemma MapsHome(image: PeImage, o: Options, s: Space, isMain: bool)
    requires ContractValid(image, isMain) && !o.force && s.luck == [] && |s.regions| < REGION_CAPACITY
    requires IsFree(s.regions, HomeOf(image))
    ensures SelectBase(image, o, s, isMain) == Choice(Success, image.base) && HasPlace(o, s, image, isMain)
    ensures var t := MapOwned(s, image.base, image.size, READ_WRITE).space;
            t.luck == [] && t.regions == s.regions + [HomeOf(image)]
  {
    hide IsFree, SectionsValid, FindFreeRange, SelectBase, Paint;
    ChosenBase(image, o, s, isMain);
  }

  /** The next module goes to its preferred base too. */
  lemma NextAtHome(c: Contents, o: Options, initial: Space, main: Program, places: seq<Place>, name: Name)
    requires Roomy(c, o, initial, main) && AtHome(c, o, initial, main, places) && |places| < CAPACITY
    requires !HasName(places, name) && ImageOf(c, o, main, name).Some?
    ensures var place := NextPlace(c, o, initial, main, places, name);
            place == Place(name, ImageOf(c, o, main, name).value.base) && AtHome(c, o, initial, main, places + [place])
  {
    hide Roomy, ImageOf, IsFree, SelectBase, HasPlace, MapOwned, Housed, Room, ContractValid, InFile, Prepared;
    var image, room := ImageOf(c, o, main, name).value, Room(c, o, initial, main, places);
    NotForced(c, o, initial, main);
    NextHomeFree(c, o, initial, main, places, room.regions, name);
    HomeAccepted(c, o, main, name);
    MapsHome(image, o, room, name == main.name);
    var place := Place(name, image.base);
    RoomMore(c, o, initial, main, places, place);
    HousedMore(c, o, initial, main, places, place);
  }

  /** A tour keeps to the preferred bases. */
  lemma {:induction false} VisitAtHome(c: Contents, o: Options, initial: Space, main: Program, places: seq<Place>, name: Name)
    requires Roomy(c, o, initial, main) && AtHome(c, o, initial, main, places)
    ensures AtHome(c, o, initial, main, Visit(c, o, initial, main, places, name))
    decreases CAPACITY - |places|, 0
  {
    hide Roomy, AtHome, ImageOf, HasName, NextPlace, ImportsAt;
    if !(HasName(places, name) || |places| >= CAPACITY || ImageOf(c, o, main, name).None?) {
      var place := NextPlace(c, o, initial, main, places, name);
      NextAtHome(c, o, initial, main, places, name);
      VisitAllAtHome(c, o, initial, main, places + [place], ImportsAt(c, o, main, place).imports);
    }
  }

  lemma {:induction false} VisitAllAtHome(
    c: Contents, o: Options, initial: Space, main: Program, places: seq<Place>, imports: seq<Import>)
    requires Roomy(c, o, initial, main) && AtHome(c, o, initial, main, places)
    ensures AtHome(c, o, initial, main, VisitAll(c, o, initial, main, places, imports))
    decreases CAPACITY - |places|, |imports| + 1
  {
    hide Roomy, AtHome, Visit;
    if imports != [] {
      VisitAtHome(c, o, initial, main, places, imports[0].from);
      VisitAllAtHome(c, o, initial, main, Visit(c, o, initial, main, places, imports[0].from), imports[1..]);
    }
  }

  lemma NobodyYet(c: Contents, o: Options, initial: Space, main: Program)
    requires Roomy(c, o, initial, main)
    ensures AtHome(c, o, initial, main, [])
  {
    hide Roomy;
    NotForced(c, o, initial, main);
  }

  // Counting.

  lemma StillNamed(places: seq<Place>, more: seq<Place>, name: Name)
    requires places <= more && HasName(places, name)
    ensures HasName(more, name)
  {
    assert more[FindPlace(places, name)] == places[FindPlace(places, name)];
  }

  ghost predicate NamesWithin(places: seq<Place>, names: set<Name>) {
    forall i :: 0 <= i < |places| ==> places[i].name in names
  }

  lemma {:induction false} FewerThan(places: seq<Place>, names: set<Name>)
    requires forall i, j :: 0 <= i < j < |places| ==> places[i].name != places[j].name
    requires NamesWithin(places, names)
    ensures |places| <= |names|
    decreases |places|
  {
    if places != [] {
      var front, last := places[..|places| - 1], places[|places| - 1].name;
      FewerThan(front, names - {last});
    }
  }

  lemma {:induction false} NoMoreThan(places: seq<Place>, names: set<Name>)
    requires forall name :: name in names ==> exists i :: 0 <= i < |places| && places[i].name == name
    ensures |names| <= |places|
    decreases |places|
  {
    if places == [] {
      assert names == {};
    } else {
      var front, last := places[..|places| - 1], places[|places| - 1].name;
      forall name | name in names - {last}
        ensures exists i :: 0 <= i < |front| && front[i].name == name
      {
        var i :| 0 <= i < |places| && places[i].name == name;
        assert front[i].name == name;
      }
      NoMoreThan(front, names - {last});
    }
  }

  // A plan leads through its tour.

  /** Every import of the modules placed after some point has a place. */
  ghost predicate ClosedFrom(c: Contents, o: Options, main: Program, places: seq<Place>, n: nat) {
    forall i, k ::
      n <= i < |places| && ImageOf(c, o, main, places[i].name).Some? && 0 <= k < |ImportsAt(c, o, main, places[i]).imports| ==>
        HasName(places, ImportsAt(c, o, main, places[i]).imports[k].from)
  }

  ghost predicate AllNamed(places: seq<Place>, imports: seq<Import>) {
    forall k :: 0 <= k < |imports| ==> HasName(places, imports[k].from)
  }

  /** The places so far are preferred ones of modules of the plan. */
  ghost predicate Planned(c: Contents, o: Options, initial: Space, main: Program, p: Plan, places: seq<Place>) {
    Roomy(c, o, initial, main) && PlanOk(c, o, main, p) && AtHome(c, o, initial, main, places) && NamesWithin(places, p.rank.Keys)
  }

  lemma RoomForPlanned(c: Contents, o: Options, initial: Space, main: Program, p: Plan, places: seq<Place>, name: Name)
    requires Planned(c, o, initial, main, p, places) && name in p.rank && !HasName(places, name)
    ensures |places| < CAPACITY && ImageOf(c, o, main, name).Some?
    ensures var place := NextPlace(c, o, initial, main, places, name);
            && Planned(c, o, initial, main, p, places + [place]) && place.name == name
            && forall k :: 0 <= k < |ImportsAt(c, o, main, place).imports| ==> ImportsAt(c, o, main, place).imports[k].from in p.rank
  {
    hide Roomy, ModuleOk, Housed, HomesTaken, HomeAt, ImageOf, NextPlace, ImportsAt, Ranked;
    ModuleThere(c, o, main, name);
    FewerThan(places, p.rank.Keys - {name});
    NextAtHome(c, o, initial, main, places, name);
    ImportsRanked(c, o, main, p, name);
  }

  lemma ImportsRanked(c: Contents, o: Options, main: Program, p: Plan, name: Name)
    requires ImageOf(c, o, main, name).Some? && name in p.rank && Ranked(c, o, main, p, name)
    ensures var imports := ImportsAt(c, o, main, Place(name, ImageOf(c, o, main, name).value.base)).imports;
            forall k :: 0 <= k < |imports| ==> imports[k].from in p.rank
  {
    hide ImageOf, FindSource;
    var table := TableOf(c, o, main, name);
    assert ImportsAt(c, o, main, Place(name, ImageOf(c, o, main, name).value.base)) == table;
    assert forall k :: 0 <= k < |table.imports| ==> table.imports[k].from in p.rank;
  }

  lemma {:induction false} VisitPlanned(
    c: Contents, o: Options, initial: Space, main: Program, p: Plan, places: seq<Place>, name: Name)
    requires Planned(c, o, initial, main, p, places) && name in p.rank
    ensures var q := Visit(c, o, initial, main, places, name);
            Planned(c, o, initial, main, p, q) && HasName(q, name) && ClosedFrom(c, o, main, q, |places|)
    decreases CAPACITY - |places|, 0
  {
    hide Planned, ImageOf, HasName, NextPlace, ImportsAt;
    if !HasName(places, name) {
      RoomForPlanned(c, o, initial, main, p, places, name);
      var place := NextPlace(c, o, initial, main, places, name);
      var imports := ImportsAt(c, o, main, place).imports;
      VisitAllPlanned(c, o, initial, main, p, places + [place], imports);
      var q := VisitAll(c, o, initial, main, places + [place], imports);
      LastNamed(places, place);
      StillNamed(places + [place], q, name);
      ClosedBefore(c, o, main, q, places, place);
    }
  }

  lemma LastNamed(places: seq<Place>, place: Place)
    ensures HasName(places + [place], place.name)
  {
    assert (places + [place])[|places|] == place;
  }

  lemma ClosedBefore(c: Contents, o: Options, main: Program, q: seq<Place>, places: seq<Place>, place: Place)
    requires places + [place] <= q && ClosedFrom(c, o, main, q, |places| + 1) && ImageOf(c, o, main, place.name).Some?
    requires AllNamed(q, ImportsAt(c, o, main, place).imports)
    ensures ClosedFrom(c, o, main, q, |places|)
  {
    hide ImageOf, HasName, ImportsAt;
    assert q[|places|] == (places + [place])[|places|];
  }

  lemma {:induction false} VisitAllPlanned(
    c: Contents, o: Options, initial: Space, main: Program, p: Plan, places: seq<Place>, imports: seq<Import>)
    requires Planned(c, o, initial, main, p, places)
    requires forall k :: 0 <= k < |imports| ==> imports[k].from in p.rank
    ensures var q := VisitAll(c, o, initial, main, places, imports);
            Planned(c, o, initial, main, p, q) && AllNamed(q, imports) && ClosedFrom(c, o, main, q, |places|)
    decreases CAPACITY - |places|, |imports| + 1
  {
    hide Planned, HasName, Visit, ImportsAt, ImageOf;
    if imports != [] {
      var mid := Visit(c, o, initial, main, places, imports[0].from);
      VisitPlanned(c, o, initial, main, p, places, imports[0].from);
      VisitAllPlanned(c, o, initial, main, p, mid, imports[1..]);
      var q := VisitAll(c, o, initial, main, mid, imports[1..]);
      StillNamed(mid, q, imports[0].from);
      AllOf(q, imports);
      ClosedOn(c, o, main, mid, q, |places|);
    }
  }

  lemma AllOf(q: seq<Place>, imports: seq<Import>)
    requires imports != [] && HasName(q, imports[0].from) && AllNamed(q, imports[1..])
    ensures AllNamed(q, imports)
  {
    hide HasName;
    forall k | 0 <= k < |imports|
      ensures HasName(q, imports[k].from)
    {
      if k > 0 {
        assert imports[1..][k - 1] == imports[k];
      }
    }
  }

  lemma ClosedOn(c: Contents, o: Options, main: Program, mid: seq<Place>, q: seq<Place>, n: nat)
    requires mid <= q && ClosedFrom(c, o, main, mid, n) && ClosedFrom(c, o, main, q, |mid|)
    ensures ClosedFrom(c, o, main, q, n)
  {
    hide ImageOf, HasName, ImportsAt;
    forall i, k | n <= i < |q| && ImageOf(c, o, main, q[i].name).Some? && 0 <= k < |ImportsAt(c, o, main, q[i]).imports|
      ensures HasName(q, ImportsAt(c, o, main, q[i]).imports[k].from)
    {
      if i < |mid| {
        assert mid[i] == q[i];
        StillNamed(mid, q, ImportsAt(c, o, main, q[i]).imports[k].from);
      }
    }
  }

  /** What the plan says of a module holds at its stop. */
  lemma StopPlanned(c: Contents, o: Options, initial: Space, main: Program, p: Plan, tour: seq<Place>, i: nat)
    requires Planned(c, o, initial, main, p, tour) && ClosedFrom(c, o, main, tour, 0) && i < |tour|
    ensures StopOk(c, o, main, tour, p, tour[i])
  {
    hide Roomy, Housed, HomesTaken, ImageOf, HasName, CodeAt, Prepared, InFile, ContractValid;
    var place := tour[i];
    assert HomeAt(c, o, main, place) && ModuleOk(c, o, main, place.name) && Ranked(c, o, main, p, place.name);
    HomeAccepted(c, o, main, place.name);
    var imports := ImportsAt(c, o, main, place).imports;
    forall k | 0 <= k < |imports|
      ensures ExportAt(c, o, main, tour, imports[k])
    {
      assert HasName(tour, imports[k].from) && ExportOk(c, o, main, imports[k]);
      SameExport(c, o, initial, main, tour, imports[k]);
    }
  }

  lemma SameExport(c: Contents, o: Options, initial: Space, main: Program, tour: seq<Place>, wanted: Import)
    requires AtHome(c, o, initial, main, tour) && HasName(tour, wanted.from)
    ensures ExportAt(c, o, main, tour, wanted) <==> ExportOk(c, o, main, wanted)
  {
    hide Housed, HomesTaken, ImageOf, CodeAt;
    assert HomeAt(c, o, main, tour[FindPlace(tour, wanted.from)]);
  }

  /** A plan is one for the tour. */
  lemma PlanIsTour(c: Contents, o: Options, initial: Space, main: Program, p: Plan)
    requires Roomy(c, o, initial, main) && PlanOk(c, o, main, p)
    ensures TourOk(c, o, initial, main, Tour(c, o, initial, main), p)
  {
    hide Roomy, ModuleOk, Ranked, Visit, ClosedFrom, HomesTaken, Housed, HomeAt, HasName, StopOk;
    NobodyYet(c, o, initial, main);
    VisitPlanned(c, o, initial, main, p, [], main.name);
    var tour := Tour(c, o, initial, main);
    forall i | 0 <= i < |tour|
      ensures StopOk(c, o, main, tour, p, tour[i])
    {
      StopPlanned(c, o, initial, main, p, tour, i);
    }
  }

  // And the tour of a program that loads gives a plan.

  /** The ranks of the modules on the tour. */
  ghost function Toured(tour: seq<Place>, p: Plan): Plan {
    Plan(map name | name in p.rank && HasName(tour, name) :: p.rank[name])
  }

  lemma ModulePlanned(c: Contents, o: Options, initial: Space, main: Program, tour: seq<Place>, p: Plan, name: Name)
    requires AtHome(c, o, initial, main, tour) && TourOk(c, o, initial, main, tour, p) && HasName(tour, name)
    ensures name in Toured(tour, p).rank && ModuleOk(c, o, main, name) && Ranked(c, o, main, Toured(tour, p), name)
  {
    hide TourOk, Housed, HomesTaken, HasName, ImageOf, CodeAt, Prepared, InFile, ExportOk;
    var i := NamedStop(tour, name);
    assert HomeAt(c, o, main, tour[i]);
    TourStop(c, o, initial, main, tour, p, i);
    assert TableOf(c, o, main, name) == ImportsAt(c, o, main, tour[i]);
    var imports := TableOf(c, o, main, name).imports;
    forall k | 0 <= k < |imports|
      ensures ExportOk(c, o, main, imports[k]) && HasName(tour, imports[k].from)
    {
      assert ExportAt(c, o, main, tour, imports[k]);
      SameExport(c, o, initial, main, tour, imports[k]);
    }
  }

  lemma NamedStop(tour: seq<Place>, name: Name) returns (i: nat)
    requires HasName(tour, name)
    ensures i < |tour| && tour[i].name == name
  {
    i := FindPlace(tour, name);
  }

  lemma TourIsPlan(c: Contents, o: Options, initial: Space, main: Program, p: Plan)
    requires Roomy(c, o, initial, main) && TourOk(c, o, initial, main, Tour(c, o, initial, main), p)
    ensures PlanOk(c, o, main, Toured(Tour(c, o, initial, main), p))
  {
    hide Roomy, AtHome, TourOk, ModuleOk, Ranked, ImageOf, Visit, HasName;
    var tour := Tour(c, o, initial, main);
    NobodyYet(c, o, initial, main);
    VisitAtHome(c, o, initial, main, [], main.name);
    TourSize(c, o, initial, main, tour, p);
    var q := Toured(tour, p);
    ModulePlanned(c, o, initial, main, tour, p, main.name);
    forall name | name in q.rank
      ensures ModuleOk(c, o, main, name) && ImageOf(c, o, main, name).Some? && Ranked(c, o, main, q, name)
      ensures exists i :: 0 <= i < |tour| && tour[i].name == name
    {
      var i := NamedStop(tour, name);
      ModulePlanned(c, o, initial, main, tour, p, name);
      ModuleThere(c, o, main, name);
    }
    NoMoreThan(tour, q.rank.Keys);
  }

  lemma TourSize(c: Contents, o: Options, initial: Space, main: Program, tour: seq<Place>, p: Plan)
    requires TourOk(c, o, initial, main, tour, p)
    ensures |tour| <= CAPACITY && HasName(tour, main.name)
  {
    hide Housed, StopOk, HasName;
  }

  /** With room for every module at its preferred base, a program has a tour exactly when its files have a plan. */
  lemma RoomyPlans(c: Contents, o: Options, initial: Space, main: Program)
    requires Roomy(c, o, initial, main)
    ensures (exists p :: TourOk(c, o, initial, main, Tour(c, o, initial, main), p)) <==> (exists p :: PlanOk(c, o, main, p))
  {
    hide Roomy, TourOk, PlanOk, Tour, Toured;
    if p :| PlanOk(c, o, main, p) {
      PlanIsTour(c, o, initial, main, p);
    }
    if p :| TourOk(c, o, initial, main, Tour(c, o, initial, main), p) {
      TourIsPlan(c, o, initial, main, p);
    }
  }
}
