/** The consumer app's in-memory spot registry and session history: each
    React state update of the provider is a pure function from the state
    before the call to the state after it. */
module ParkingContext {
  import opened Wrappers
  import Seqs

  datatype SpotFlag = Available | Taken

  datatype Spot = Spot(id: int, isAccessible: bool, isTaken: bool, status: SpotFlag)

  /** A location as the app keeps it; the display-only distance, rating and
      image fields are not modelled. `price` is the display string such as
      "$2.50/hr". */
  datatype Location = Location(
    id: int, name: string, address: string, price: string,
    availableSpots: int, zone: string)

  datatype SessionStatus = Active | Completed | Upcoming

  /** A booking. The optional timestamps are epoch milliseconds; the
      formatted `startTime`, `endTime` and `date` strings are opaque labels. */
  datatype Session = Session(
    id: string, zone: string, location: string, address: string,
    startTime: string, endTime: string, date: string, amount: string,
    status: SessionStatus, spotId: int,
    startTimestamp: Option<int>, endTimestamp: Option<int>,
    durationMinutes: Option<int>)

  /** Whole provider state: the location list, the spot lists keyed by
      location id, and the history, most recent first. */
  datatype Context = Context(
    locations: seq<Location>, spotsMap: map<int, seq<Spot>>, history: seq<Session>)

  datatype Hms = Hms(hours: nat, minutes: nat, seconds: nat)

  /** What a remaining-time query returns, with the state it leaves behind. */
  datatype Countdown = Countdown(ctx: Context, remaining: Option<Hms>)

  const MillisPerHour := 3600000
  const MillisPerMinute := 60000
  const MillisPerSecond := 1000

  predicate IsFree(s: Spot) { !s.isTaken }

  /** Number of spots whose taken flag is clear (`filter(!isTaken).length`). */
  function CountFree(spots: seq<Spot>): (n: nat)
    ensures n <= |spots|
  {
    if |spots| == 0 then 0
    else (if IsFree(spots[0]) then 1 else 0) + CountFree(spots[1..])
  }

  function FirstSpotIndex(spots: seq<Spot>, spotId: int): int {
    Seqs.FindIndex(spots, (s: Spot) => s.id == spotId)
  }

  function Mark(s: Spot, isTaken: bool): Spot {
    s.(isTaken := isTaken, status := if isTaken then Taken else Available)
  }

  //--------------------------------------------------------------------------
  // Spot registry
  //--------------------------------------------------------------------------

  /** The spot list stored for a location; an unknown location has none. */
  function GetParkingSpots(ctx: Context, locationId: int): (r: seq<Spot>)
    ensures locationId in ctx.spotsMap ==> r == ctx.spotsMap[locationId]
    ensures locationId !in ctx.spotsMap ==> r == []
  {
    if locationId in ctx.spotsMap then ctx.spotsMap[locationId] else []
  }

  /** Replaces the first spot with the given id by a copy carrying the new
      flag and the matching status tag; every other spot is kept as is. */
  function SetSpot(spots: seq<Spot>, spotId: int, isTaken: bool): (r: seq<Spot>)
    ensures |r| == |spots|
    ensures forall i :: 0 <= i < |spots| && i != FirstSpotIndex(spots, spotId) ==> r[i] == spots[i]
    ensures FirstSpotIndex(spots, spotId) >= 0 ==>
              var k := FirstSpotIndex(spots, spotId);
              r[k].id == spots[k].id && r[k].isAccessible == spots[k].isAccessible &&
              r[k].isTaken == isTaken && (r[k].status == Taken <==> isTaken)
  {
    if |spots| == 0 then []
    else if spots[0].id == spotId then [Mark(spots[0], isTaken)] + spots[1..]
    else [spots[0]] + SetSpot(spots[1..], spotId, isTaken)
  }

  /** The count the source writes back: free spots in the list as it was
      BEFORE the call, moved by one in the direction of the requested flag,
      and clamped at zero. */
  function AvailableAfter(pre: seq<Spot>, isTaken: bool): (n: nat)
    ensures isTaken && CountFree(pre) > 0 ==> n == CountFree(pre) - 1
    ensures isTaken && CountFree(pre) == 0 ==> n == 0
    ensures !isTaken ==> n == CountFree(pre) + 1
  {
    var raw := CountFree(pre) - (if isTaken then 1 else -1);
    if raw < 0 then 0 else raw
  }

  function UpdateLocationCount(loc: Location, locationId: int, pre: seq<Spot>, isTaken: bool): Location {
    if loc.id == locationId then loc.(availableSpots := AvailableAfter(pre, isTaken)) else loc
  }

  /** `updateParkingSpot`: writes the flag into the location's spot list (an
      unknown location gains an empty list) and re-derives the location's
      available count from the pre-call list. */
  function UpdateParkingSpot(ctx: Context, locationId: int, spotId: int, isTaken: bool): (r: Context)
    ensures r.history == ctx.history
    ensures r.spotsMap.Keys == ctx.spotsMap.Keys + {locationId}
    ensures forall l :: l in ctx.spotsMap && l != locationId ==> r.spotsMap[l] == ctx.spotsMap[l]
    ensures GetParkingSpots(r, locationId) == SetSpot(GetParkingSpots(ctx, locationId), spotId, isTaken)
    ensures |r.locations| == |ctx.locations|
    ensures forall i :: 0 <= i < |ctx.locations| && ctx.locations[i].id != locationId ==>
              r.locations[i] == ctx.locations[i]
    ensures forall i :: 0 <= i < |ctx.locations| && ctx.locations[i].id == locationId ==>
              && r.locations[i] == ctx.locations[i].(availableSpots := r.locations[i].availableSpots)
              && r.locations[i].availableSpots >= 0
              && r.locations[i].availableSpots == AvailableAfter(GetParkingSpots(ctx, locationId), isTaken)
  {
    var pre := GetParkingSpots(ctx, locationId);
    Context(
      seq(|ctx.locations|, i requires 0 <= i < |ctx.locations| =>
        UpdateLocationCount(ctx.locations[i], locationId, pre, isTaken)),
      ctx.spotsMap[locationId := SetSpot(pre, spotId, isTaken)],
      ctx.history)
  }

  /** Changing one spot's flag moves the free count by exactly that spot's
      change. */
  lemma {:induction false} CountFreeAfterSetSpot(spots: seq<Spot>, spotId: int, isTaken: bool)
    requires FirstSpotIndex(spots, spotId) >= 0
    ensures var k := FirstSpotIndex(spots, spotId);
            CountFree(SetSpot(spots, spotId, isTaken)) + (if spots[k].isTaken then 0 else 1)
            == CountFree(spots) + (if isTaken then 0 else 1)
  {
    if spots[0].id != spotId {
      assert FirstSpotIndex(spots[1..], spotId) == FirstSpotIndex(spots, spotId) - 1;
      CountFreeAfterSetSpot(spots[1..], spotId, isTaken);
      assert SetSpot(spots, spotId, isTaken)[1..] == SetSpot(spots[1..], spotId, isTaken);
    } else {
      assert SetSpot(spots, spotId, isTaken)[1..] == spots[1..];
    }
  }

  /** After a call that really flips an existing spot, each location with
      that id reports exactly the free spots of its new list, whatever it
      reported before. */
  lemma FlipMakesCountConsistent(ctx: Context, locationId: int, spotId: int, isTaken: bool)
    requires var pre := GetParkingSpots(ctx, locationId);
             FirstSpotIndex(pre, spotId) >= 0 &&
             pre[FirstSpotIndex(pre, spotId)].isTaken != isTaken
    ensures var r := UpdateParkingSpot(ctx, locationId, spotId, isTaken);
            forall i :: 0 <= i < |r.locations| && r.locations[i].id == locationId ==>
              r.locations[i].availableSpots == CountFree(GetParkingSpots(r, locationId))
  {
    CountFreeAfterSetSpot(GetParkingSpots(ctx, locationId), spotId, isTaken);
  }

  /** Re-marking an already taken spot as taken leaves the list's free count
      as it was but still lowers the reported count, so the two disagree. */
  lemma RetakeBreaksCount(ctx: Context, locationId: int, spotId: int)
    requires var pre := GetParkingSpots(ctx, locationId);
             FirstSpotIndex(pre, spotId) >= 0 && pre[FirstSpotIndex(pre, spotId)].isTaken &&
             CountFree(pre) > 0
    ensures var r := UpdateParkingSpot(ctx, locationId, spotId, true);
            && CountFree(GetParkingSpots(r, locationId)) == CountFree(GetParkingSpots(ctx, locationId))
            && forall i :: 0 <= i < |r.locations| && r.locations[i].id == locationId ==>
                 r.locations[i].availableSpots == CountFree(GetParkingSpots(r, locationId)) - 1
  {
    CountFreeAfterSetSpot(GetParkingSpots(ctx, locationId), spotId, true);
  }

  /** The same call made twice lowers the count twice: the update is not
      idempotent. */
  lemma UpdateNotIdempotent(ctx: Context, locationId: int, spotId: int)
    requires var pre := GetParkingSpots(ctx, locationId);
             FirstSpotIndex(pre, spotId) >= 0 && !pre[FirstSpotIndex(pre, spotId)].isTaken &&
             CountFree(pre) >= 2
    ensures var once := UpdateParkingSpot(ctx, locationId, spotId, true);
            var twice := UpdateParkingSpot(once, locationId, spotId, true);
            forall i :: 0 <= i < |ctx.locations| && ctx.locations[i].id == locationId ==>
              twice.locations[i].availableSpots == once.locations[i].availableSpots - 1 ==
              CountFree(GetParkingSpots(ctx, locationId)) - 2
  {
    var pre := GetParkingSpots(ctx, locationId);
    var once := UpdateParkingSpot(ctx, locationId, spotId, true);
    CountFreeAfterSetSpot(pre, spotId, true);
    var mid := GetParkingSpots(once, locationId);
    assert FirstSpotIndex(mid, spotId) == FirstSpotIndex(pre, spotId) by {
      SetSpotKeepsIds(pre, spotId, true);
    }
    CountFreeAfterSetSpot(mid, spotId, true);
  }

  lemma SetSpotKeepsIds(spots: seq<Spot>, spotId: int, isTaken: bool)
    ensures var r := SetSpot(spots, spotId, isTaken);
            FirstSpotIndex(r, spotId) == FirstSpotIndex(spots, spotId)
  {
    var r := SetSpot(spots, spotId, isTaken);
    assert forall i :: 0 <= i < |spots| ==> r[i].id == spots[i].id;
  }

  /** An id absent from the list leaves the list alone but still moves the
      location's count, and an unknown location gains an empty list. */
  lemma UnknownSpotStillMovesCount(ctx: Context, locationId: int, spotId: int, isTaken: bool)
    requires FirstSpotIndex(GetParkingSpots(ctx, locationId), spotId) == -1
    ensures var r := UpdateParkingSpot(ctx, locationId, spotId, isTaken);
            && locationId in r.spotsMap
            && r.spotsMap[locationId] == GetParkingSpots(ctx, locationId)
            && (locationId !in ctx.spotsMap ==> r.spotsMap[locationId] == [])
            && forall i :: 0 <= i < |r.locations| && r.locations[i].id == locationId ==>
                 r.locations[i].availableSpots ==
                   if isTaken then (if CountFree(r.spotsMap[locationId]) == 0 then 0
                                    else CountFree(r.spotsMap[locationId]) - 1)
                   else CountFree(r.spotsMap[locationId]) + 1
  {
    var pre := GetParkingSpots(ctx, locationId);
    assert SetSpot(pre, spotId, isTaken) == pre;
  }

  //--------------------------------------------------------------------------
  // Session history
  //--------------------------------------------------------------------------

  /** The first location whose zone label equals `zone`. */
  function LocationForZone(locations: seq<Location>, zone: string): (r: Option<Location>)
    ensures r.None? <==> forall i :: 0 <= i < |locations| ==> locations[i].zone != zone
    ensures r.Some? ==> r.value in locations && r.value.zone == zone
    ensures r.Some? ==> exists k :: 0 <= k < |locations| && locations[k] == r.value && r.value.zone == zone &&
                          forall j :: 0 <= j < k ==> locations[j].zone != zone
  {
    Seqs.Find(locations, (l: Location) => l.zone == zone)
  }

  /** `activeSession`: the first history entry whose status is Active. */
  function ActiveSession(history: seq<Session>): (r: Option<Session>)
    ensures r.None? <==> forall i :: 0 <= i < |history| ==> history[i].status != Active
    ensures r.Some? ==> exists k :: 0 <= k < |history| && history[k] == r.value &&
                          r.value.status == Active &&
                          forall j :: 0 <= j < k ==> history[j].status != Active
  {
    Seqs.Find(history, (s: Session) => s.status == Active)
  }

  /** `addParkingSession`: prepends the session (keeping its id when it has
      one, else taking the generated id) and, when the session names a
      nonzero spot and some location has the session's zone, marks that spot
      taken in the first such location. It does not check that the spot was
      free. */
  function AddParkingSession(ctx: Context, session: Session, generatedId: string): (r: Context)
    ensures |r.history| == |ctx.history| + 1 && r.history[1..] == ctx.history
    ensures r.history[0].id == (if session.id == "" then generatedId else session.id)
    ensures r.history[0].(id := session.id) == session
    ensures session.spotId == 0 || LocationForZone(ctx.locations, session.zone).None? ==>
              r.locations == ctx.locations && r.spotsMap == ctx.spotsMap
    ensures session.spotId != 0 && LocationForZone(ctx.locations, session.zone).Some? ==>
              r == UpdateParkingSpot(ctx.(history := r.history),
                                     LocationForZone(ctx.locations, session.zone).value.id,
                                     session.spotId, true)
  {
    var newSession := session.(id := if session.id == "" then generatedId else session.id);
    var withHistory := ctx.(history := [newSession] + ctx.history);
    if session.spotId != 0 then
      match LocationForZone(ctx.locations, session.zone)
      case Some(loc) => UpdateParkingSpot(withHistory, loc.id, session.spotId, true)
      case None => withHistory
    else withHistory
  }

  /** A newly added Active session becomes the active session, whatever the
      history held before. */
  lemma AddedActiveSessionIsActive(ctx: Context, session: Session, generatedId: string)
    requires session.status == Active
    ensures var r := AddParkingSession(ctx, session, generatedId);
            ActiveSession(r.history) == Some(r.history[0])
  {
  }

  /** Splits a positive millisecond span into whole hours, minutes and
      seconds, dropping the sub-second rest. */
  function Decompose(remaining: int): (t: Hms)
    requires remaining > 0
    ensures t.minutes < 60 && t.seconds < 60
    ensures ToMillis(t) <= remaining < ToMillis(t) + MillisPerSecond
  {
    var hours := remaining / MillisPerHour;
    var minutes := (remaining % MillisPerHour) / MillisPerMinute;
    var seconds := (remaining % MillisPerMinute) / MillisPerSecond;
    DecomposeBounds(remaining, hours, minutes, seconds);
    Hms(hours, minutes, seconds)
  }

  function ToMillis(t: Hms): int {
    t.hours * MillisPerHour + t.minutes * MillisPerMinute + t.seconds * MillisPerSecond
  }

  lemma DecomposeBounds(remaining: int, hours: int, minutes: int, seconds: int)
    requires remaining > 0
    requires hours == remaining / 3600000
    requires minutes == (remaining % 3600000) / 60000
    requires seconds == (remaining % 60000) / 1000
    ensures hours >= 0 && 0 <= minutes < 60 && 0 <= seconds < 60
    ensures hours * 3600000 + minutes * 60000 + seconds * 1000 <= remaining
    ensures remaining < hours * 3600000 + minutes * 60000 + seconds * 1000 + 1000
  {
    var r := remaining % 3600000;
    assert remaining == hours * 3600000 + r;
    var r2 := r % 60000;
    assert r == minutes * 60000 + r2;
    assert remaining % 60000 == r2 by {
      assert remaining == (hours * 60) * 60000 + minutes * 60000 + r2;
      ModStep(remaining, hours * 60 + minutes, r2);
    }
  }

  lemma ModStep(x: int, q: int, r: int)
    requires 0 <= r < 60000
    requires x == q * 60000 + r
    ensures x % 60000 == r
  {
  }

  /** The decomposition is the only one with minutes and seconds below 60
      that brackets the span to within a second. */
  lemma DecomposeUnique(remaining: int, t: Hms)
    requires remaining > 0
    requires t.minutes < 60 && t.seconds < 60
    requires ToMillis(t) <= remaining < ToMillis(t) + MillisPerSecond
    ensures Decompose(remaining) == t
  {
    var d := Decompose(remaining);
    var a := t.minutes * 60 + t.seconds;
    var b := d.minutes * 60 + d.seconds;
    assert a < 3600 && b < 3600;
    assert t.hours * 3600 + a == remaining / 1000 == d.hours * 3600 + b by {
      assert ToMillis(t) == (t.hours * 3600 + a) * 1000;
      assert ToMillis(d) == (d.hours * 3600 + b) * 1000;
    }
    assert t.hours == d.hours && a == b;
  }

  /** Marks every history entry with the given id Completed. */
  function CompleteSessions(history: seq<Session>, sessionId: string): (h: seq<Session>)
    ensures |h| == |history|
    ensures forall i :: 0 <= i < |history| ==>
              if history[i].id == sessionId then h[i] == history[i].(status := Completed)
              else h[i] == history[i]
  {
    seq(|history|, i requires 0 <= i < |history| =>
      if history[i].id == sessionId then history[i].(status := Completed) else history[i])
  }

  function SessionIndex(history: seq<Session>, sessionId: string): int {
    Seqs.FindIndex(history, (s: Session) => s.id == sessionId)
  }

  /** The session a countdown would be computed for: found, with a nonzero
      end timestamp, and Active. */
  predicate Countable(ctx: Context, sessionId: string) {
    var k := SessionIndex(ctx.history, sessionId);
    k >= 0 && ctx.history[k].endTimestamp.Some? && ctx.history[k].endTimestamp.value != 0 &&
    ctx.history[k].status == Active
  }

  /** `getRemainingTime` at instant `now` (epoch ms). No countdown for a
      missing session, a missing or zero end timestamp, or a non-Active
      status; a session whose end has passed is flipped to Completed (every
      entry carrying its id) and yields no countdown; otherwise the span to
      the end, split into hours, minutes and seconds. */
  function GetRemainingTime(ctx: Context, sessionId: string, now: int): (r: Countdown)
    ensures r.ctx.locations == ctx.locations && r.ctx.spotsMap == ctx.spotsMap
    ensures r.remaining.Some? <==>
              Countable(ctx, sessionId) &&
              ctx.history[SessionIndex(ctx.history, sessionId)].endTimestamp.value - now > 0
    ensures r.remaining.Some? ==>
              var remaining := ctx.history[SessionIndex(ctx.history, sessionId)].endTimestamp.value - now;
              r.remaining.value.minutes < 60 && r.remaining.value.seconds < 60 &&
              ToMillis(r.remaining.value) <= remaining < ToMillis(r.remaining.value) + MillisPerSecond
    ensures !Countable(ctx, sessionId) || r.remaining.Some? ==> r.ctx == ctx
    ensures Countable(ctx, sessionId) && r.remaining.None? ==>
              r.ctx.history == CompleteSessions(ctx.history, sessionId)
  {
    if !Countable(ctx, sessionId) then Countdown(ctx, None)
    else
      var remaining := ctx.history[SessionIndex(ctx.history, sessionId)].endTimestamp.value - now;
      if remaining <= 0 then
        Countdown(ctx.(history := CompleteSessions(ctx.history, sessionId)), None)
      else Countdown(ctx, Some(Decompose(remaining)))
  }

  /** Once a query has expired a session, every later query for it, at any
      instant, yields nothing and changes nothing. */
  lemma ExpiryIsFinal(ctx: Context, sessionId: string, now: int, later: int)
    requires Countable(ctx, sessionId)
    requires GetRemainingTime(ctx, sessionId, now).remaining.None?
    ensures var first := GetRemainingTime(ctx, sessionId, now).ctx;
            GetRemainingTime(first, sessionId, later) == Countdown(first, None)
  {
    var h := CompleteSessions(ctx.history, sessionId);
    assert forall i :: 0 <= i < |h| ==> h[i].id == ctx.history[i].id;
    assert SessionIndex(h, sessionId) == SessionIndex(ctx.history, sessionId);
  }

  /** For the newest session, Active and ending at `end`: one second
      before the end the countdown reads 0h 0m 1s, and at the end it yields
      nothing and the session reads Completed. */
  lemma LastSecondCountdown(ctx: Context, sessionId: string, end: int)
    requires |ctx.history| > 0 && ctx.history[0].id == sessionId
    requires ctx.history[0].status == Active && ctx.history[0].endTimestamp == Some(end) && end != 0
    ensures GetRemainingTime(ctx, sessionId, end - 1000).remaining == Some(Hms(0, 0, 1))
    ensures var atEnd := GetRemainingTime(ctx, sessionId, end);
            atEnd.remaining == None && atEnd.ctx.history[0].status == Completed
  {
    assert SessionIndex(ctx.history, sessionId) == 0;
    DecomposeUnique(1000, Hms(0, 0, 1));
  }

  /** No query ever turns a Completed entry back into anything else. */
  lemma CompletedStaysCompleted(ctx: Context, sessionId: string, now: int, i: int)
    requires 0 <= i < |ctx.history| && ctx.history[i].status == Completed
    ensures GetRemainingTime(ctx, sessionId, now).ctx.history[i].status == Completed
  {
  }

  //--------------------------------------------------------------------------
  // Initial provider state
  //--------------------------------------------------------------------------

  function InitialLocations(): seq<Location> {
    [ Location(1, "Downtown Parking", "123 Main St, Kingston", "$2.50/hr", 12, "A-06"),
      Location(2, "Waterfront Garage", "456 Harbor Dr, Kingston", "$3.00/hr", 5, "B-12"),
      Location(3, "City Center", "789 Center Ave, Kingston", "$2.00/hr", 20, "C-22"),
      Location(4, "University Parking", "101 College Rd, Kingston", "$1.50/hr", 8, "D-08") ]
  }

  function InitialSpots(): map<int, seq<Spot>> {
    map[1 := DowntownSpots(), 2 := WaterfrontSpots(), 3 := CityCenterSpots(), 4 := UniversitySpots()]
  }

  function DowntownSpots(): seq<Spot> {
    [ Spot(1, true, false, Available),
      Spot(2, true, true, Taken),
      Spot(3, false, false, Available),
      Spot(4, false, true, Taken),
      Spot(5, false, false, Available),
      Spot(6, false, true, Taken),
      Spot(7, false, false, Available),
      Spot(8, false, false, Available) ]
  }

  function WaterfrontSpots(): seq<Spot> {
    [ Spot(1, true, false, Available),
      Spot(2, false, true, Taken),
      Spot(3, false, false, Available),
      Spot(4, true, false, Available),
      Spot(5, false, true, Taken),
      Spot(6, false, false, Available) ]
  }

  function CityCenterSpots(): seq<Spot> {
    [ Spot(1, true, false, Available),
      Spot(2, false, false, Available),
      Spot(3, false, true, Taken),
      Spot(4, false, false, Available),
      Spot(5, true, false, Available),
      Spot(6, false, true, Taken),
      Spot(7, false, false, Available),
      Spot(8, false, false, Available),
      Spot(9, false, true, Taken),
      Spot(10, false, false, Available) ]
  }

  function UniversitySpots(): seq<Spot> {
    [ Spot(1, true, false, Available),
      Spot(2, true, true, Taken),
      Spot(3, false, false, Available),
      Spot(4, false, true, Taken) ]
  }

  function InitialHistory(): seq<Session> {
    [ Session("156", "B-12", "Downtown Parking", "123 Main St, Kingston", "10:02 PM", "12:20 AM", "Jan 29, 2025", "CAD $14.00", Completed, 3, None, None, None),
      Session("143", "A-05", "Waterfront Garage", "456 Harbor Dr, Kingston", "2:15 PM", "5:30 PM", "Jan 25, 2025", "CAD $9.75", Completed, 2, None, None, None),
      Session("128", "C-22", "City Center", "789 Center Ave, Kingston", "9:00 AM", "11:45 AM", "Jan 20, 2025", "CAD $5.50", Completed, 5, None, None, None),
      Session("112", "D-08", "University Parking", "101 College Rd, Kingston", "1:30 PM", "4:00 PM", "Jan 15, 2025", "CAD $3.75", Completed, 1, None, None, None) ]
  }

  function InitialContext(): Context {
    Context(InitialLocations(), InitialSpots(), InitialHistory())
  }

  /** The seeded counts disagree with the seeded spot lists for every
      location (12, 5, 20 and 8 reported against 5, 4, 7 and 2 free), and
      nothing reconciles them until a flip re-derives a count. */
  lemma InitialCountsDisagree()
    ensures var locs, spots := InitialLocations(), InitialSpots();
            forall i :: 0 <= i < |locs| ==>
              locs[i].id in spots && locs[i].availableSpots != CountFree(spots[locs[i].id])
  {
    var locs, spots := InitialLocations(), InitialSpots();
    InitialSpotLists();
    InitialFreeCounts();
    forall i | 0 <= i < |locs|
      ensures locs[i].id in spots && locs[i].availableSpots != CountFree(spots[locs[i].id])
    {
      CountOfInitial(locs, spots, i);
    }
  }

  lemma CountOfInitial(locs: seq<Location>, spots: map<int, seq<Spot>>, i: nat)
    requires |locs| == 4 && i < 4
    requires locs[0].id == 1 && locs[1].id == 2 && locs[2].id == 3 && locs[3].id == 4
    requires locs[0].availableSpots == 12 && locs[1].availableSpots == 5
    requires locs[2].availableSpots == 20 && locs[3].availableSpots == 8
    requires 1 in spots && 2 in spots && 3 in spots && 4 in spots
    requires CountFree(spots[1]) == 5 && CountFree(spots[2]) == 4
    requires CountFree(spots[3]) == 7 && CountFree(spots[4]) == 2
    ensures locs[i].id in spots && locs[i].availableSpots != CountFree(spots[locs[i].id])
  {
  }

  lemma InitialSpotLists()
    ensures var locs, spots := InitialLocations(), InitialSpots();
            |locs| == 4 &&
            locs[0].id == 1 && locs[0].availableSpots == 12 && spots[1] == DowntownSpots() &&
            locs[1].id == 2 && locs[1].availableSpots == 5 && spots[2] == WaterfrontSpots() &&
            locs[2].id == 3 && locs[2].availableSpots == 20 && spots[3] == CityCenterSpots() &&
            locs[3].id == 4 && locs[3].availableSpots == 8 && spots[4] == UniversitySpots()
  {
  }

  /** Free spots per initial list, counted from the lists themselves. */
  lemma InitialFreeCounts()
    ensures CountFree(DowntownSpots()) == 5
    ensures CountFree(WaterfrontSpots()) == 4
    ensures CountFree(CityCenterSpots()) == 7
    ensures CountFree(UniversitySpots()) == 2
  {
  }

  /** The seeded history holds no Active session. */
  lemma InitiallyNoActiveSession()
    ensures ActiveSession(InitialContext().history) == None
  {
  }
}
