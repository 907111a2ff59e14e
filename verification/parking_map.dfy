/** The dashboard map of one location: which spots it shows, how they are
    grouped by zone, which colour each cell gets (live feed for the
    university lot, static status otherwise), and the connection badge. */
module ParkingMap {
  import opened Wrappers
  import Seqs
  import opened DashboardTypes
  import opened ParkingStore

  /** The one location whose cells consult the live feed (University
      Parking). */
  const LiveLocationId := "loc4"

  datatype Color = Green500 | Red500 | Yellow500 | Gray500 | Gray300

  datatype Badge = Live | ConnectionError | Connecting

  /** `locationSpots`: the spots of this location, in their given order. */
  function LocationSpots(spots: seq<DashSpot>, locationId: string): (r: seq<DashSpot>)
    ensures forall i :: 0 <= i < |r| ==> r[i].locationId == locationId && r[i] in spots
    ensures forall i :: 0 <= i < |spots| && spots[i].locationId == locationId ==> spots[i] in r
    ensures Seqs.IsSubsequence(r, spots)
    ensures forall x :: multiset(r)[x] == if x.locationId == locationId then multiset(spots)[x] else 0
  {
    Seqs.Filter(spots, (s: DashSpot) => s.locationId == locationId)
  }

  /** `isUniversityParking`: some shown spot belongs to the live location. */
  predicate IsUniversityParking(locationSpots: seq<DashSpot>) {
    exists i :: 0 <= i < |locationSpots| && locationSpots[i].locationId == LiveLocationId
  }

  /** The live feed is consulted exactly when the map shows the live
      location and that location has at least one spot. */
  lemma LiveIffUniversityWithSpots(spots: seq<DashSpot>, locationId: string)
    ensures IsUniversityParking(LocationSpots(spots, locationId)) <==>
            locationId == LiveLocationId && |LocationSpots(spots, locationId)| > 0
  {
    var r := LocationSpots(spots, locationId);
    if locationId == LiveLocationId && |r| > 0 {
      assert r[0].locationId == LiveLocationId;
    }
  }

  //--------------------------------------------------------------------------
  // Zone grouping
  //--------------------------------------------------------------------------

  /** `zone.split("-")[0]`: the zone label up to its first '-'. */
  function ZoneKey(zone: string): (r: string)
    ensures |r| <= |zone| && r == zone[..|r|]
    ensures forall i :: 0 <= i < |r| ==> r[i] != '-'
    ensures |r| < |zone| ==> zone[|r|] == '-'
  {
    var k := Seqs.FindIndex(zone, (c: char) => c == '-');
    if k == -1 then zone else zone[..k]
  }

  datatype ZoneGroup = ZoneGroup(key: string, spots: seq<DashSpot>)

  /** The spots whose zone key is `key`, in order. */
  function MembersOf(spots: seq<DashSpot>, key: string): seq<DashSpot> {
    Seqs.Filter(spots, InZone(key))
  }

  function InZone(key: string): DashSpot -> bool {
    (s: DashSpot) => ZoneKey(s.zone) == key
  }

  lemma MembersOfSnoc(init: seq<DashSpot>, last: DashSpot, key: string)
    ensures MembersOf(init + [last], key) ==
            MembersOf(init, key) + (if ZoneKey(last.zone) == key then [last] else [])
  {
    Seqs.FilterSnoc(init, last, InZone(key));
  }

  predicate DistinctKeys(groups: seq<ZoneGroup>) {
    forall i, j :: 0 <= i < j < |groups| ==> groups[i].key != groups[j].key
  }

  predicate HasGroup(groups: seq<ZoneGroup>, key: string) {
    exists i :: 0 <= i < |groups| && groups[i].key == key
  }

  /** One `forEach` step: push the spot onto its key's group, opening the
      group at the end if the key is new. */
  function AddToGroups(groups: seq<ZoneGroup>, s: DashSpot): (r: seq<ZoneGroup>)
    requires DistinctKeys(groups)
    ensures DistinctKeys(r)
    ensures |r| == |groups| + (if HasGroup(groups, ZoneKey(s.zone)) then 0 else 1)
    ensures forall i :: 0 <= i < |groups| ==>
              r[i].key == groups[i].key &&
              r[i].spots == groups[i].spots + (if groups[i].key == ZoneKey(s.zone) then [s] else [])
    ensures !HasGroup(groups, ZoneKey(s.zone)) ==> r[|groups|] == ZoneGroup(ZoneKey(s.zone), [s])
  {
    var key := ZoneKey(s.zone);
    var k := Seqs.FindIndex(groups, (g: ZoneGroup) => g.key == key);
    if k == -1 then groups + [ZoneGroup(key, [s])]
    else groups[k := groups[k].(spots := groups[k].spots + [s])]
  }

  /** `spotsByZone`: every spot lands in the one group of its zone key, each
      group holds exactly its key's spots in their original order, and no
      group is empty. */
  function GroupByZone(spots: seq<DashSpot>): (groups: seq<ZoneGroup>)
    ensures DistinctKeys(groups)
    ensures forall i :: 0 <= i < |groups| ==>
              |groups[i].spots| > 0 && groups[i].spots == MembersOf(spots, groups[i].key)
    ensures forall j :: 0 <= j < |spots| ==> HasGroup(groups, ZoneKey(spots[j].zone))
    decreases |spots|
  {
    if |spots| == 0 then []
    else
      var init := spots[..|spots| - 1];
      var before := GroupByZone(init);
      GroupStep(spots, init, before);
      AddToGroups(before, spots[|spots| - 1])
  }

  lemma GroupStep(spots: seq<DashSpot>, init: seq<DashSpot>, before: seq<ZoneGroup>)
    requires |spots| > 0 && init == spots[..|spots| - 1]
    requires DistinctKeys(before)
    requires forall i :: 0 <= i < |before| ==>
               |before[i].spots| > 0 && before[i].spots == MembersOf(init, before[i].key)
    requires forall j :: 0 <= j < |init| ==> HasGroup(before, ZoneKey(init[j].zone))
    ensures var r := AddToGroups(before, spots[|spots| - 1]);
            && (forall i :: 0 <= i < |r| ==> |r[i].spots| > 0 && r[i].spots == MembersOf(spots, r[i].key))
            && (forall j :: 0 <= j < |spots| ==> HasGroup(r, ZoneKey(spots[j].zone)))
  {
    var last := spots[|spots| - 1];
    assert spots == init + [last];
    var r := AddToGroups(before, last);
    forall i | 0 <= i < |r|
      ensures |r[i].spots| > 0 && r[i].spots == MembersOf(init + [last], r[i].key)
    {
      GroupStepMembers(init, last, before, i);
    }
    forall j | 0 <= j < |init| + 1
      ensures HasGroup(r, ZoneKey((init + [last])[j].zone))
    {
      GroupStepCovers(init, last, before, j);
    }
  }

  lemma GroupStepMembers(init: seq<DashSpot>, last: DashSpot, before: seq<ZoneGroup>, i: int)
    requires DistinctKeys(before)
    requires forall i :: 0 <= i < |before| ==>
               |before[i].spots| > 0 && before[i].spots == MembersOf(init, before[i].key)
    requires forall j :: 0 <= j < |init| ==> HasGroup(before, ZoneKey(init[j].zone))
    requires 0 <= i < |AddToGroups(before, last)|
    ensures var r := AddToGroups(before, last);
            |r[i].spots| > 0 && r[i].spots == MembersOf(init + [last], r[i].key)
  {
    var r := AddToGroups(before, last);
    var key := ZoneKey(last.zone);
    MembersOfSnoc(init, last, r[i].key);
    if i < |before| {
      assert r[i].key == before[i].key;
      assert r[i].spots == before[i].spots + (if before[i].key == key then [last] else []);
    } else {
      assert r[i] == ZoneGroup(key, [last]);
      NoGroupNoMembers(init, before, key);
    }
  }

  /** A key without a group has no members among spots that all have groups. */
  lemma NoGroupNoMembers(init: seq<DashSpot>, before: seq<ZoneGroup>, key: string)
    requires forall j :: 0 <= j < |init| ==> HasGroup(before, ZoneKey(init[j].zone))
    requires !HasGroup(before, key)
    ensures MembersOf(init, key) == []
  {
    forall j | 0 <= j < |init| ensures !InZone(key)(init[j]) {
      assert HasGroup(before, ZoneKey(init[j].zone));
    }
    Seqs.FilterNone(init, InZone(key));
  }

  lemma GroupStepCovers(init: seq<DashSpot>, last: DashSpot, before: seq<ZoneGroup>, j: int)
    requires DistinctKeys(before)
    requires forall j :: 0 <= j < |init| ==> HasGroup(before, ZoneKey(init[j].zone))
    requires 0 <= j <= |init|
    ensures HasGroup(AddToGroups(before, last), ZoneKey((init + [last])[j].zone))
  {
    var r := AddToGroups(before, last);
    var key := ZoneKey(last.zone);
    if j < |init| {
      assert (init + [last])[j] == init[j];
      assert HasGroup(before, ZoneKey(init[j].zone));
      var i :| 0 <= i < |before| && before[i].key == ZoneKey(init[j].zone);
      assert r[i].key == before[i].key;
    } else if HasGroup(before, key) {
      var i :| 0 <= i < |before| && before[i].key == key;
      assert r[i].key == key;
    } else {
      assert r[|before|].key == key;
    }
  }

  //--------------------------------------------------------------------------
  // Cell colours and the badge
  //--------------------------------------------------------------------------

  function LiveKey(spotNumber: string): string {
    "spot_" + spotNumber
  }

  /** The static colour of a status: available green, occupied red,
      reserved yellow, maintenance dark gray; never the pale gray kept for
      unknown spots. */
  function StatusColor(status: SpotStatus): (c: Color)
    ensures c != Gray300
    ensures c == Green500 <==> status == Available
    ensures c == Red500 <==> status == Occupied
    ensures c == Yellow500 <==> status == Reserved
    ensures c == Gray500 <==> status == Maintenance
  {
    match status
    case Available => Green500
    case Occupied => Red500
    case Reserved => Yellow500
    case Maintenance => Gray500
  }

  /** The fallback colour: the status of the first spot among ALL given
      spots (not only this location's) with that number; pale gray when
      none has it. */
  function StaticColor(spots: seq<DashSpot>, spotNumber: string): (c: Color)
    ensures c == Gray300 <==> forall i :: 0 <= i < |spots| ==> spots[i].spotNumber != spotNumber
    ensures c != Gray300 ==>
              exists k :: 0 <= k < |spots| && spots[k].spotNumber == spotNumber &&
                          (forall j :: 0 <= j < k ==> spots[j].spotNumber != spotNumber) &&
                          c == StatusColor(spots[k].status)
  {
    match Seqs.Find(spots, (s: DashSpot) => s.spotNumber == spotNumber)
    case Some(s) => StatusColor(s.status)
    case None => Gray300
  }

  /** `getStatusColor`: on the live map, a feed value "occupied" paints red
      and "empty" green; anything else, a missing key, or a map that is not
      live falls through to the static colour. */
  function GetStatusColor(spots: seq<DashSpot>, isLive: bool, spotStatus: map<string, string>,
                          spotNumber: string): (c: Color)
    ensures isLive && LiveKey(spotNumber) in spotStatus && spotStatus[LiveKey(spotNumber)] == "occupied" ==>
              c == Red500
    ensures isLive && LiveKey(spotNumber) in spotStatus && spotStatus[LiveKey(spotNumber)] == "empty" ==>
              c == Green500
    ensures !(isLive && LiveKey(spotNumber) in spotStatus &&
              spotStatus[LiveKey(spotNumber)] in ["occupied", "empty"]) ==>
              c == StaticColor(spots, spotNumber)
  {
    var live := if isLive && LiveKey(spotNumber) in spotStatus then Some(spotStatus[LiveKey(spotNumber)]) else None;
    if live == Some("occupied") then Red500
    else if live == Some("empty") then Green500
    else StaticColor(spots, spotNumber)
  }

  /** The colours of a location's cells, listed in the order of
      `locationSpots`. The map draws the same cells zone group by zone group
      (`GroupByZone`); a cell's colour depends only on its spot number, so
      that reordering changes no cell's colour. */
  function CellColors(spots: seq<DashSpot>, locationId: string, store: Store): (cs: seq<Color>)
    ensures |cs| == |LocationSpots(spots, locationId)|
    ensures forall i :: 0 <= i < |cs| ==>
              cs[i] == GetStatusColor(spots, locationId == LiveLocationId, store.spotStatus,
                                      LocationSpots(spots, locationId)[i].spotNumber)
    ensures locationId != LiveLocationId ==>
              forall i :: 0 <= i < |cs| ==>
                cs[i] == StaticColor(spots, LocationSpots(spots, locationId)[i].spotNumber)
  {
    var shown := LocationSpots(spots, locationId);
    var live := IsUniversityParking(shown);
    LiveIffUniversityWithSpots(spots, locationId);
    seq(|shown|, i requires 0 <= i < |shown| =>
      GetStatusColor(spots, live, store.spotStatus, shown[i].spotNumber))
  }

  /** Outside the live location the feed has no influence on any cell. */
  lemma OtherLocationsIgnoreFeed(spots: seq<DashSpot>, locationId: string, a: Store, b: Store)
    requires locationId != LiveLocationId
    ensures CellColors(spots, locationId, a) == CellColors(spots, locationId, b)
  {
    LiveIffUniversityWithSpots(spots, locationId);
  }

  /** The fallback looks the number up among ALL spots, so outside the live
      location the first spot anywhere with a cell's number decides the
      cell's colour, even when that spot belongs to another location. */
  lemma EarlierSpotDecidesCell(spots: seq<DashSpot>, locationId: string, store: Store, i: int, k: int)
    requires locationId != LiveLocationId
    requires 0 <= i < |LocationSpots(spots, locationId)|
    requires 0 <= k < |spots| && spots[k].spotNumber == LocationSpots(spots, locationId)[i].spotNumber
    requires forall j :: 0 <= j < k ==> spots[j].spotNumber != spots[k].spotNumber
    ensures CellColors(spots, locationId, store)[i] == StatusColor(spots[k].status)
  {
    var n := spots[k].spotNumber;
    var c := StaticColor(spots, n);
    assert c != Gray300;
    var k' :| 0 <= k' < |spots| && spots[k'].spotNumber == n &&
              (forall j :: 0 <= j < k' ==> spots[j].spotNumber != n) && c == StatusColor(spots[k'].status);
    assert k' == k;
  }

  /** Two spots numbered "01", an occupied one at loc1 listed first and a
      free one at loc2: loc2's map paints its only cell red. */
  lemma ForeignSpotPaintsCell(store: Store)
    ensures var spots := [DashSpot("a", "loc1", "01", "A-01", Occupied, None, false),
                          DashSpot("b", "loc2", "01", "B-01", Available, None, false)];
            CellColors(spots, "loc2", store) == [Red500]
  {
    var spots := [DashSpot("a", "loc1", "01", "A-01", Occupied, None, false),
                  DashSpot("b", "loc2", "01", "B-01", Available, None, false)];
    var shown := LocationSpots(spots, "loc2");
    assert multiset(shown)[spots[1]] == 1;
    assert multiset(shown)[spots[0]] == 0;
    assert |shown| == 1 && shown[0] == spots[1] by {
      assert forall x :: x in multiset(shown) ==> x == spots[1];
      assert multiset(shown) == multiset{spots[1]};
    }
    EarlierSpotDecidesCell(spots, "loc2", store, 0, 0);
  }

  /** The badge: "Live" when connected, "Connection Error" on error,
      "Connecting..." otherwise. */
  function ConnectionBadge(status: WebsocketStatus): (b: Badge)
    ensures b == Live <==> status == Connected
    ensures b == ConnectionError <==> status == Error
  {
    match status
    case Connected => Live
    case Error => ConnectionError
    case Disconnected => Connecting
  }

  /** After any sequence of socket events the badge reads "Live" exactly
      when the last connection event was an open. */
  lemma BadgeAfterEvents(st: Store, events: seq<SocketEvent>)
    ensures ConnectionBadge(Run(st, events).store.websocketStatus) == Live <==>
            LastConnectionStatus(events, st.websocketStatus) == Connected
  {
    RunMatchesReference(st, events);
  }
}
