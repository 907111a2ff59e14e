/** The dashboard's spot-card list: a spot whose status is the raw string
    "occupied" and whose end instant has passed is shown as expired. */
module SpotCards {
  import opened Wrappers

  /** A card's spot. `status` is an unchecked string; `endTime` is the end
      instant in epoch milliseconds, absent when the field is missing or
      empty. */
  datatype CardSpot = CardSpot(id: int, status: string, endTime: Option<int>)

  datatype CardBadge = GreenBadge | BlueBadge | RedBadge | GrayBadge

  /** `isExpired`: strictly past the end; the end instant itself is not. */
  predicate IsExpired(endTime: int, now: int) {
    now > endTime
  }

  /** Occupied with an end time that has passed. */
  predicate ShownExpired(spot: CardSpot, now: int) {
    spot.status == "occupied" && spot.endTime.Some? && IsExpired(spot.endTime.value, now)
  }

  /** `getStatusBadgeClass`: red for an expired occupied spot, else by the
      raw status: green for "available", blue for "occupied", red for
      "expired", gray for anything else. */
  function BadgeFor(spot: CardSpot, now: int): (b: CardBadge)
    ensures ShownExpired(spot, now) ==> b == RedBadge
    ensures b == RedBadge <==> ShownExpired(spot, now) || spot.status == "expired"
    ensures b == BlueBadge <==> spot.status == "occupied" && !ShownExpired(spot, now)
    ensures b == GreenBadge <==> spot.status == "available"
  {
    if ShownExpired(spot, now) then RedBadge
    else if spot.status == "available" then GreenBadge
    else if spot.status == "occupied" then BlueBadge
    else if spot.status == "expired" then RedBadge
    else GrayBadge
  }

  /** The card's label: "Expired" for an expired occupied spot, otherwise
      the raw status, so a spot that is not occupied is never relabelled
      whatever its end time. */
  function Label(spot: CardSpot, now: int): (s: string)
    ensures spot.status != "occupied" ==> s == spot.status
    ensures !ShownExpired(spot, now) ==> s == spot.status
    ensures spot.status != "Expired" ==> (s == "Expired" <==> ShownExpired(spot, now))
  {
    if ShownExpired(spot, now) then "Expired" else spot.status
  }

  /** "Ends at" appears only for an occupied spot that has an end time. */
  predicate ShowsEndsAt(spot: CardSpot) {
    spot.status == "occupied" && spot.endTime.Some?
  }

  /** A relabelled card is always red, and a card showing "Ends at" is red
      exactly when its time is up. */
  lemma LabelAndBadgeAgree(spot: CardSpot, now: int)
    ensures Label(spot, now) == "Expired" && spot.status != "Expired" ==> BadgeFor(spot, now) == RedBadge
    ensures ShowsEndsAt(spot) ==>
              (BadgeFor(spot, now) == RedBadge <==> IsExpired(spot.endTime.value, now))
  {
  }

  /** An occupied card turns expired only after the end instant: at the end
      instant itself it is still blue. */
  lemma ExpiryIsStrict(id: int, end: int)
    ensures BadgeFor(CardSpot(id, "occupied", Some(end)), end) == BlueBadge
    ensures BadgeFor(CardSpot(id, "occupied", Some(end)), end + 1) == RedBadge
  {
  }
}
