/** The dashboard's spot table: status and location filters, the status
    badge, and the time-remaining and action columns. */
module SpotsPage {
  import opened Wrappers
  import Seqs
  import opened DashboardTypes
  import SpotCards

  /** The status select: "all" or one status. */
  datatype StatusFilter = AllStatuses | OnlyStatus(status: SpotStatus)

  /** The location select: "all" or one location id. */
  datatype LocationFilter = AllLocations | OnlyLocation(locationId: string)

  datatype PageBadge = Green | Red | Yellow | Gray

  /** What the time-remaining cell shows. `Distance` is the relative
      wording produced by a date library, not modelled beyond its input. */
  datatype TimeCell = NotAvailable | Expired | Distance(end: int)

  /** The time column: a dash unless the spot is occupied. */
  datatype Cell = Dash | Time(value: TimeCell)

  /** Both filters of the `filteredSpots` callback. */
  predicate Passes(spot: DashSpot, status: StatusFilter, location: LocationFilter) {
    && (status.AllStatuses? || spot.status == status.status)
    && (location.AllLocations? || spot.locationId == location.locationId)
  }

  function KeepFn(status: StatusFilter, location: LocationFilter): DashSpot -> bool {
    (s: DashSpot) => Passes(s, status, location)
  }

  /** `filteredSpots`: the spots passing both filters, in order. */
  function FilteredSpots(spots: seq<DashSpot>, status: StatusFilter, location: LocationFilter)
    : (r: seq<DashSpot>)
    ensures Seqs.IsSubsequence(r, spots)
    ensures forall i :: 0 <= i < |r| ==>
              r[i] in spots &&
              (status.AllStatuses? || r[i].status == status.status) &&
              (location.AllLocations? || r[i].locationId == location.locationId)
    ensures forall i :: 0 <= i < |spots| ==>
              ((status.AllStatuses? || spots[i].status == status.status) &&
               (location.AllLocations? || spots[i].locationId == location.locationId) ==>
               spots[i] in r)
    ensures forall x :: multiset(r)[x] == if Passes(x, status, location) then multiset(spots)[x] else 0
  {
    Seqs.Filter(spots, KeepFn(status, location))
  }

  /** With both selects on "all" the table lists every spot. */
  lemma AllAllKeepsEverything(spots: seq<DashSpot>)
    ensures FilteredSpots(spots, AllStatuses, AllLocations) == spots
  {
    Seqs.FilterAll(spots, KeepFn(AllStatuses, AllLocations));
  }

  /** `getStatusBadgeClass`: available green, occupied red, reserved
      yellow, maintenance gray. */
  function BadgeFor(status: SpotStatus): (b: PageBadge)
    ensures b == Gray <==> status == Maintenance
    ensures b == Green <==> status == Available
    ensures b == Red <==> status == Occupied
    ensures b == Yellow <==> status == Reserved
  {
    match status
    case Available => Green
    case Occupied => Red
    case Reserved => Yellow
    case Maintenance => Gray
  }

  /** `getTimeRemaining`: "N/A" without an end time, "Expired" once the end
      is not after now, the relative distance otherwise. */
  function TimeRemaining(endTime: Option<int>, now: int): (c: TimeCell)
    ensures c == NotAvailable <==> endTime.None?
    ensures c == Expired <==> endTime.Some? && endTime.value <= now
    ensures c.Distance? ==> endTime == Some(c.end) && c.end > now
  {
    match endTime
    case None => NotAvailable
    case Some(end) => if end <= now then Expired else Distance(end)
  }

  /** The time column of a row: computed only for occupied spots. */
  function TimeColumn(spot: DashSpot, now: int): (c: Cell)
    ensures c == Dash <==> spot.status != Occupied
    ensures c.Time? ==> c.value == TimeRemaining(spot.occupiedUntil, now)
  {
    if spot.status == Occupied then Time(TimeRemaining(spot.occupiedUntil, now)) else Dash
  }

  /** The "End Session" action is offered only on occupied spots. */
  predicate ShowsEndSession(spot: DashSpot) {
    spot.status == Occupied
  }

  /** The "End Session" button and the time remaining appear on the same
      rows: exactly the occupied ones. */
  lemma EndSessionWithTime(spot: DashSpot, now: int)
    ensures ShowsEndSession(spot) <==> TimeColumn(spot, now).Time?
  {
  }

  /** At the end instant itself the table already says "Expired" while the
      card list still shows the spot as occupied: the two views disagree on
      the boundary, and agree everywhere else. */
  lemma ExpiryBoundaryDisagrees(spot: DashSpot, now: int)
    requires spot.status == Occupied && spot.occupiedUntil.Some?
    ensures var card := SpotCards.CardSpot(0, "occupied", spot.occupiedUntil);
            var end := spot.occupiedUntil.value;
            (TimeColumn(spot, now) == Time(Expired) <==> SpotCards.ShownExpired(card, now) || now == end)
  {
  }
}
