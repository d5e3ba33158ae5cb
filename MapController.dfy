/** The map endpoints that compute something of their own over what the map service returns:
    the location search, the slot layout of a location and of one of its zones, and the
    bounding box of the active locations. The lists the map service builds are parameters. */
module MapController {
  import opened Common

  /** A `LocationMapDto` as the controller reads it. */
  datatype LocationMap = LocationMap(
    id: Option<int>,
    name: Option<string>,
    address: Option<string>,
    description: Option<string>,
    latitude: Option<real>,
    longitude: Option<real>)

  /** A `SlotMapLayoutDto` as the controller reads it. */
  datatype SlotLayout = SlotLayout(id: Option<int>, zone: Option<string>, available: Option<bool>)

  /** An endpoint that catches an exception answers 500 with its message. */
  datatype MapError = ServerError

  // ------------------------------------------------------------------
  // searchLocations
  // ------------------------------------------------------------------

  /** A field matches when it is set and its lower-cased text contains the lower-cased query. */
  predicate FieldMatches(field: Option<string>, queryLower: string)
  {
    field.Some? && Contains(ToLower(field.value), queryLower)
  }

  predicate MatchesQuery(loc: LocationMap, queryLower: string)
  {
    FieldMatches(loc.name, queryLower) || FieldMatches(loc.address, queryLower) || FieldMatches(loc.description, queryLower)
  }

  datatype SearchResponse = SearchResponse(query: string, count: nat, results: seq<LocationMap>)

  /** `searchLocations(query)` over the active locations, in their order. */
  function SearchLocations(locations: seq<LocationMap>, query: string): (r: SearchResponse)
    ensures r.query == query && r.count == |r.results| <= |locations|
    ensures forall loc :: loc in r.results <==> loc in locations && MatchesQuery(loc, ToLower(query))
    ensures IsSubsequence(r.results, locations)
  {
    var queryLower := ToLower(query);
    var results := Filter(locations, (loc: LocationMap) => MatchesQuery(loc, queryLower));
    FilterMembers(locations, (loc: LocationMap) => MatchesQuery(loc, queryLower));
    FilterIsSubsequence(locations, (loc: LocationMap) => MatchesQuery(loc, queryLower));
    SearchResponse(query, |results|, results)
  }

  lemma LowerOfUpper(s: string)
    ensures ToLower(ToUpper(s)) == ToLower(s)
  {
    assert forall i :: 0 <= i < |s| ==> Lower(Upper(s[i])) == Lower(s[i]);
  }

  lemma UpperOfLower(s: string)
    ensures ToUpper(ToLower(s)) == ToUpper(s)
  {
    assert forall i :: 0 <= i < |s| ==> Upper(Lower(s[i])) == Upper(s[i]);
  }

  /** The search ignores the case of the query: an upper-cased query finds the same
      locations, in the same order. */
  lemma SearchIgnoresQueryCase(locations: seq<LocationMap>, query: string)
    ensures SearchLocations(locations, ToUpper(query)).results == SearchLocations(locations, query).results
  {
    LowerOfUpper(query);
  }

  /** An empty query finds exactly the locations with a name, an address or a description;
      a location with none of them is never found. */
  lemma EmptyQueryFindsDescribed(locations: seq<LocationMap>)
    ensures forall loc :: loc in SearchLocations(locations, "").results <==>
      loc in locations && (loc.name.Some? || loc.address.Some? || loc.description.Some?)
  {
    forall s: string
      ensures Contains(s, "")
    {
      assert OccursAt(s, "", 0);
    }
  }

  // ------------------------------------------------------------------
  // getSlotLayout, getSlotLayoutByZone
  // ------------------------------------------------------------------

  datatype LayoutCounts = LayoutCounts(totalSlots: nat, availableSlots: nat, slots: seq<SlotLayout>)

  predicate IsAvailable(s: SlotLayout)
  {
    s.available == Some(true)
  }

  /** Counting the available slots unboxes each slot's `available` flag, so a slot with a
      null flag makes the endpoint fail. */
  function LayoutOf(slots: seq<SlotLayout>): (r: Result<LayoutCounts, MapError>)
    ensures r.Err? <==> exists i :: 0 <= i < |slots| && slots[i].available.None?
    ensures r.Ok? ==> r.value.slots == slots && r.value.totalSlots == |slots|
    ensures r.Ok? ==> r.value.availableSlots == Count(slots, IsAvailable) <= r.value.totalSlots
  {
    if exists i :: 0 <= i < |slots| && slots[i].available.None? then Err(ServerError)
    else Ok(LayoutCounts(|slots|, Count(slots, IsAvailable), slots))
  }

  /** `getSlotLayout(id)` over the layout of the location. */
  function SlotLayoutResponse(locationSlots: seq<SlotLayout>): Result<LayoutCounts, MapError>
  {
    LayoutOf(locationSlots)
  }

  /** A slot is in a zone when its zone is set and equals the zone ignoring case. */
  predicate InZone(s: SlotLayout, zone: string)
  {
    s.zone.Some? && EqualsIgnoreCase(zone, s.zone.value)
  }

  function ZoneSlots(slots: seq<SlotLayout>, zone: string): (r: seq<SlotLayout>)
    ensures |r| <= |slots|
    ensures forall s :: s in r <==> s in slots && InZone(s, zone)
    ensures IsSubsequence(r, slots)
  {
    FilterMembers(slots, (s: SlotLayout) => InZone(s, zone));
    FilterIsSubsequence(slots, (s: SlotLayout) => InZone(s, zone));
    Filter(slots, (s: SlotLayout) => InZone(s, zone))
  }

  /** `getSlotLayoutByZone(id, zone)`: the layout counts of the slots of the zone. */
  function ZoneLayoutResponse(locationSlots: seq<SlotLayout>, zone: string): Result<LayoutCounts, MapError>
  {
    LayoutOf(ZoneSlots(locationSlots, zone))
  }

  /** The zone filter ignores the case of the zone in the path. */
  lemma ZoneIgnoresCase(slots: seq<SlotLayout>, zone: string)
    ensures ZoneSlots(slots, ToLower(zone)) == ZoneSlots(slots, zone)
  {
    UpperOfLower(zone);
    FilterAgreeing(slots, (s: SlotLayout) => InZone(s, ToLower(zone)), (s: SlotLayout) => InZone(s, zone));
  }

  /** When the whole layout can be counted, a zone's counts are within the location's. */
  lemma ZoneWithinLocation(slots: seq<SlotLayout>, zone: string)
    requires SlotLayoutResponse(slots).Ok?
    ensures ZoneLayoutResponse(slots, zone).Ok?
    ensures ZoneLayoutResponse(slots, zone).value.totalSlots <= SlotLayoutResponse(slots).value.totalSlots
    ensures ZoneLayoutResponse(slots, zone).value.availableSlots <= SlotLayoutResponse(slots).value.availableSlots
  {
    var z := ZoneSlots(slots, zone);
    forall i | 0 <= i < |z|
      ensures z[i].available.Some?
    {
      assert z[i] in slots;
    }
    ZoneAvailableWithin(slots, zone);
  }

  lemma {:induction false} ZoneAvailableWithin(slots: seq<SlotLayout>, zone: string)
    ensures Count(ZoneSlots(slots, zone), IsAvailable) <= Count(slots, IsAvailable)
    decreases |slots|
  {
    if slots != [] {
      assert ZoneSlots(slots, zone) ==
        (if InZone(slots[0], zone) then [slots[0]] else []) + ZoneSlots(slots[1..], zone);
      CountAppend(if InZone(slots[0], zone) then [slots[0]] else [], ZoneSlots(slots[1..], zone), IsAvailable);
      ZoneAvailableWithin(slots[1..], zone);
    }
  }

  // ------------------------------------------------------------------
  // getMapBounds
  // ------------------------------------------------------------------

  datatype Corner = Corner(latitude: real, longitude: real)

  datatype MapBounds =
    | NoLocations(message: string)
    | Bounds(southWest: Corner, northEast: Corner, center: Corner)

  function LatitudeOf(l: LocationMap): Option<real> { l.latitude }

  function LongitudeOf(l: LocationMap): Option<real> { l.longitude }

  /** The values of the coordinates that are set, in order. */
  function Present(locations: seq<LocationMap>, coordinate: LocationMap -> Option<real>): (r: seq<real>)
    ensures forall x :: x in r <==> exists i :: 0 <= i < |locations| && coordinate(locations[i]) == Some(x)
    decreases |locations|
  {
    if locations == [] then []
    else
      var rest := Present(locations[1..], coordinate);
      assert forall i :: 1 <= i < |locations| ==> locations[i] == locations[1..][i - 1];
      match coordinate(locations[0])
      case Some(x) => [x] + rest
      case None => rest
  }

  function MinOrZero(s: seq<real>): real
  {
    if s == [] then 0.0 else MinOf(s)
  }

  function MaxOrZero(s: seq<real>): real
  {
    if s == [] then 0.0 else MaxOf(s)
  }

  /** `getMapBounds()` over the active locations. */
  function MapBoundsOf(locations: seq<LocationMap>): (r: MapBounds)
    ensures locations == [] <==> r == NoLocations("No locations available")
    ensures r.Bounds? ==>
      r.center == Corner((r.southWest.latitude + r.northEast.latitude) / 2.0,
                         (r.southWest.longitude + r.northEast.longitude) / 2.0)
  {
    if locations == [] then NoLocations("No locations available")
    else
      var lats := Present(locations, LatitudeOf);
      var lons := Present(locations, LongitudeOf);
      var sw := Corner(MinOrZero(lats), MinOrZero(lons));
      var ne := Corner(MaxOrZero(lats), MaxOrZero(lons));
      Bounds(sw, ne, Corner((sw.latitude + ne.latitude) / 2.0, (sw.longitude + ne.longitude) / 2.0))
  }

  /** Along one coordinate, the span of the values that are set holds each of them and is
      attained at both ends; when no value is set, both ends are 0. */
  lemma PresentSpan(locations: seq<LocationMap>, coordinate: LocationMap -> Option<real>)
    ensures var vs := Present(locations, coordinate);
      MinOrZero(vs) <= MaxOrZero(vs) &&
      (forall i :: 0 <= i < |locations| && coordinate(locations[i]).Some? ==>
         MinOrZero(vs) <= coordinate(locations[i]).value <= MaxOrZero(vs)) &&
      ((forall i :: 0 <= i < |locations| ==> coordinate(locations[i]).None?) ==>
         MinOrZero(vs) == 0.0 && MaxOrZero(vs) == 0.0) &&
      ((exists i :: 0 <= i < |locations| && coordinate(locations[i]).Some?) ==>
         (exists i :: 0 <= i < |locations| && coordinate(locations[i]) == Some(MinOrZero(vs))) &&
         (exists i :: 0 <= i < |locations| && coordinate(locations[i]) == Some(MaxOrZero(vs))))
  {
    var vs := Present(locations, coordinate);
    forall i | 0 <= i < |locations| && coordinate(locations[i]).Some?
      ensures MinOrZero(vs) <= coordinate(locations[i]).value <= MaxOrZero(vs)
    {
      assert coordinate(locations[i]).value in vs;
    }
    if vs != [] {
      assert MinOf(vs) in vs && MaxOf(vs) in vs;
      assert vs[0] in vs;
    }
  }

  /** The box holds every location whose coordinates are set, is spanned by such
      locations, and its center lies inside it; a coordinate no location sets is 0 at both
      corners. */
  lemma MapBoundsContain(locations: seq<LocationMap>)
    requires locations != []
    ensures var r := MapBoundsOf(locations);
      (forall i :: 0 <= i < |locations| && locations[i].latitude.Some? ==>
         r.southWest.latitude <= locations[i].latitude.value <= r.northEast.latitude) &&
      (forall i :: 0 <= i < |locations| && locations[i].longitude.Some? ==>
         r.southWest.longitude <= locations[i].longitude.value <= r.northEast.longitude) &&
      r.southWest.latitude <= r.center.latitude <= r.northEast.latitude &&
      r.southWest.longitude <= r.center.longitude <= r.northEast.longitude &&
      ((forall i :: 0 <= i < |locations| ==> locations[i].latitude.None?) ==>
         r.southWest.latitude == 0.0 && r.northEast.latitude == 0.0) &&
      ((exists i :: 0 <= i < |locations| && locations[i].latitude.Some?) ==>
         (exists i :: 0 <= i < |locations| && locations[i].latitude == Some(r.southWest.latitude)) &&
         (exists i :: 0 <= i < |locations| && locations[i].latitude == Some(r.northEast.latitude))) &&
      ((forall i :: 0 <= i < |locations| ==> locations[i].longitude.None?) ==>
         r.southWest.longitude == 0.0 && r.northEast.longitude == 0.0) &&
      ((exists i :: 0 <= i < |locations| && locations[i].longitude.Some?) ==>
         (exists i :: 0 <= i < |locations| && locations[i].longitude == Some(r.southWest.longitude)) &&
         (exists i :: 0 <= i < |locations| && locations[i].longitude == Some(r.northEast.longitude)))
  {
    PresentSpan(locations, LatitudeOf);
    PresentSpan(locations, LongitudeOf);
  }
}
