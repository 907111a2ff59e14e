/** The booking page's rules: the duration menu, end-time arithmetic, the
    price derived from a location's price label, spot selection, and the
    session record handed to the provider. */
module BookParking {
  import opened Wrappers
  import opened Decimal
  import opened ParkingContext
  import Seqs

  /** The minutes offered in the duration menu, and the initial choice. */
  const DurationOptions: seq<nat> := [30, 60, 120, 180, 240]
  const DefaultDuration: nat := 60

  lemma DefaultDurationIsOffered()
    ensures DefaultDuration in DurationOptions
    ensures forall i :: 0 <= i < |DurationOptions| ==> DurationOptions[i] > 0
  {
  }

  /** End instant of a booking of `durationMinutes` starting at `start`. */
  function UpdateEndTime(start: int, durationMinutes: int): (end: int)
    ensures end - start == durationMinutes * MillisPerMinute
  {
    start + durationMinutes * 60 * 1000
  }

  //--------------------------------------------------------------------------
  // Hourly rate: strip a price label to digits and dots, then read it the
  // way `parseFloat` reads such a string.
  //--------------------------------------------------------------------------

  predicate IsRateChar(c: char) {
    IsDigit(c) || c == '.'
  }

  /** `price.replace(/[^0-9.]/g, "")`. */
  function KeepRateChars(s: string): (r: string)
    ensures |r| <= |s|
    ensures forall i :: 0 <= i < |r| ==> IsRateChar(r[i])
    ensures forall c :: multiset(r)[c] == if IsRateChar(c) then multiset(s)[c] else 0
  {
    if |s| == 0 then ""
    else
      assert s == [s[0]] + s[1..];
      (if IsRateChar(s[0]) then [s[0]] else "") + KeepRateChars(s[1..])
  }

  /** Stripping is the order-keeping filter for digits and dots. */
  lemma {:induction false} KeepRateCharsIsFilter(s: string)
    ensures KeepRateChars(s) == Seqs.Filter(s, IsRateChar)
    ensures Seqs.IsSubsequence(KeepRateChars(s), s)
    decreases |s|
  {
    if |s| > 0 {
      var init, last := s[..|s| - 1], s[|s| - 1];
      assert s == init + [last];
      KeepRateCharsIsFilter(init);
      KeepRateCharsAppend(init, [last]);
      KeepRateCharsOne(last);
      Seqs.FilterSnoc(init, last, IsRateChar);
    }
  }

  lemma KeepRateCharsOne(c: char)
    ensures KeepRateChars([c]) == if IsRateChar(c) then [c] else []
  {
    assert [c][1..] == [];
  }

  /** Stripping keeps exactly the digits and dots, in order: it distributes
      over concatenation. */
  lemma {:induction false} KeepRateCharsAppend(a: string, b: string)
    ensures KeepRateChars(a + b) == KeepRateChars(a) + KeepRateChars(b)
  {
    if |a| > 0 {
      var c, t := a[0], a[1..];
      assert a == [c] + t;
      assert a + b == [c] + (t + b);
      var h := if IsRateChar(c) then [c] else "";
      var kt, kb := KeepRateChars(t), KeepRateChars(b);
      assert KeepRateChars(a) == h + kt by {
        KeepRateCharsCons(c, t);
      }
      assert KeepRateChars(a + b) == h + (kt + kb) by {
        KeepRateCharsCons(c, t + b);
        KeepRateCharsAppend(t, b);
      }
      Seqs.AppendAssoc(h, kt, kb);
    } else {
      assert a + b == b;
    }
  }

  lemma KeepRateCharsCons(c: char, t: string)
    ensures KeepRateChars([c] + t) == (if IsRateChar(c) then [c] else "") + KeepRateChars(t)
  {
    assert ([c] + t)[1..] == t;
  }

  /** A string without digits or dots strips to nothing. */
  lemma NoRateChars(s: string)
    requires forall i :: 0 <= i < |s| ==> !IsRateChar(s[i])
    ensures KeepRateChars(s) == ""
  {
    var r := KeepRateChars(s);
    assert forall c :: multiset(r)[c] == 0;
    assert multiset(r) == multiset{};
  }

  /** The "$" before a rate and the "/hr" after it strip away. */
  lemma LabelDecorationStrips()
    ensures KeepRateChars("$") == "" && KeepRateChars("/hr") == ""
  {
    var dollar, hr := "$", "/hr";
    assert dollar[0] == '$';
    assert hr[0] == '/' && hr[1] == 'h' && hr[2] == 'r';
    NoRateChars(dollar);
    NoRateChars(hr);
  }

  /** Stripping a label "$<f>/hr" leaves the digits-and-dots string `f`. */
  lemma StripHourlyLabel(f: string)
    requires forall i :: 0 <= i < |f| ==> IsRateChar(f[i])
    ensures KeepRateChars("$" + f + "/hr") == f
  {
    var kd, kf, kh := KeepRateChars("$"), KeepRateChars(f), KeepRateChars("/hr");
    assert KeepRateChars("$" + f + "/hr") == kd + kf + kh by {
      KeepRateCharsAppend("$" + f, "/hr");
      KeepRateCharsAppend("$", f);
    }
    LabelDecorationStrips();
    KeepRateCharsIdentity(f);
    assert "" + f + "" == f;
  }

  /** A string of digits and dots is left as it is. */
  lemma {:induction false} KeepRateCharsIdentity(s: string)
    requires forall i :: 0 <= i < |s| ==> IsRateChar(s[i])
    ensures KeepRateChars(s) == s
  {
    if |s| > 0 {
      KeepRateCharsIdentity(s[1..]);
    }
  }

  /** Length of the run of digits that starts `s`. */
  function LeadingDigits(s: string): (n: nat)
    ensures n <= |s|
    ensures AllDigits(s[..n])
    ensures n < |s| ==> !IsDigit(s[n])
  {
    if |s| == 0 || !IsDigit(s[0]) then 0 else 1 + LeadingDigits(s[1..])
  }

  lemma {:induction false} LeadingDigitsAppend(a: string, b: string)
    requires AllDigits(a)
    ensures LeadingDigits(a + b) == |a| + LeadingDigits(b)
  {
    if |a| > 0 {
      assert (a + b)[1..] == a[1..] + b;
      LeadingDigitsAppend(a[1..], b);
    } else {
      assert a + b == b;
    }
  }

  /** A decimal number `mantissa / 10^scale`. */
  datatype Rate = Rate(mantissa: nat, scale: nat)

  /** `parseFloat` on a string of digits and dots: an integer part, then
      optionally a dot and a fraction part; no number (NaN) when neither
      part has a digit. Whatever follows is ignored. */
  function ParseRate(s: string): (r: Option<Rate>)
    ensures r.None? <==>
              LeadingDigits(s) == 0 &&
              (|s| == 0 || s[0] != '.' || LeadingDigits(s[1..]) == 0)
    ensures r.Some? ==> r.value.scale <= |s|
  {
    var i := LeadingDigits(s);
    var frac := if i < |s| && s[i] == '.' then s[i + 1..][..LeadingDigits(s[i + 1..])] else "";
    if i + |frac| == 0 then None
    else Some(Rate(DigitsValue(s[..i] + frac), |frac|))
  }

  /** `parseFloat` reads the digits before and after the first dot: the
      value is those digits read as one number, scaled down by the number of
      fraction digits. Whatever follows the fraction digits is ignored. */
  lemma ParseRateWithDot(a: string, b: string, rest: string)
    requires AllDigits(a) && AllDigits(b) && |a| + |b| > 0
    requires |rest| == 0 || !IsDigit(rest[0])
    ensures ParseRate(a + "." + b + rest) == Some(Rate(DigitsValue(a + b), |b|))
  {
    var t := b + rest;
    assert a + "." + b + rest == a + "." + t;
    assert LeadingDigits(t) == |b| by {
      LeadingDigitsAppend(b, rest);
    }
    assert t[..|b|] == b;
    ParseRateAfterDot(a, t);
  }

  /** Integer digits, a dot, then whatever the fraction's digit run is. */
  lemma ParseRateAfterDot(a: string, t: string)
    requires AllDigits(a) && |a| + LeadingDigits(t) > 0
    ensures ParseRate(a + "." + t) == Some(Rate(DigitsValue(a + t[..LeadingDigits(t)]), LeadingDigits(t)))
  {
    var s := a + "." + t;
    assert s == a + ("." + t);
    assert LeadingDigits(s) == |a| by {
      LeadingDigitsAppend(a, "." + t);
    }
    assert s[..|a|] == a;
    assert s[|a| + 1..] == t;
    ParseRateParts(s, |a|, LeadingDigits(t));
  }

  /** One unfolding of `ParseRate` once the dot and both digit runs are known. */
  lemma ParseRateParts(s: string, n: nat, m: nat)
    requires LeadingDigits(s) == n && n < |s| && s[n] == '.'
    requires LeadingDigits(s[n + 1..]) == m && n + m > 0
    ensures ParseRate(s) == Some(Rate(DigitsValue(s[..n] + s[n + 1..][..m]), m))
  {
  }

  /** Without a dot after the integer digits, those digits are the value. */
  lemma ParseRateWhole(a: string, rest: string)
    requires AllDigits(a) && |a| > 0
    requires |rest| == 0 || (!IsDigit(rest[0]) && rest[0] != '.')
    ensures ParseRate(a + rest) == Some(Rate(DigitsValue(a), 0))
  {
    LeadingDigitsAppend(a, rest);
    assert (a + rest)[..|a|] == a;
    assert a + "" == a;
  }

  /** Nearest whole number to `num / den`, halves rounded up, as `toFixed`
      rounds a non-negative value. */
  function RoundHalfUp(num: nat, den: nat): (r: nat)
    requires den > 0
    ensures 2 * r * den <= 2 * num + den < 2 * (r + 1) * den
  {
    (2 * num + den) / (2 * den)
  }

  /** Price in cents of `durationMinutes` at an hourly `rate` in dollars,
      rounded to the nearest cent with halves rounded up. */
  function PriceCents(rate: Rate, durationMinutes: nat): (c: nat)
    ensures var num, den := rate.mantissa * durationMinutes * 100, 60 * Pow10(rate.scale);
            2 * c * den <= 2 * num + den < 2 * (c + 1) * den
  {
    RoundHalfUp(rate.mantissa * durationMinutes * 100, 60 * Pow10(rate.scale))
  }

  /** Whole hours at a rate given in cents cost exactly that many times the
      rate: no rounding happens. */
  lemma WholeHoursPrice(cents: nat, hours: nat)
    ensures PriceCents(Rate(cents, 2), 60 * hours) == cents * hours
  {
    var den := 60 * Pow10(2);
    assert den == 6000;
    var num := cents * (60 * hours) * 100;
    assert num == cents * hours * den;
    var r := PriceCents(Rate(cents, 2), 60 * hours);
    assert 2 * r * den <= 2 * num + den < 2 * (r + 1) * den;
    ExactQuotient(r, cents * hours, den);
  }

  lemma ExactQuotient(r: int, q: int, den: int)
    requires den > 0
    requires 2 * r * den <= 2 * q * den + den < 2 * (r + 1) * den
    ensures r == q
  {
    assert (2 * r) * den < (2 * q + 2) * den;
    CancelFactor(2 * r, 2 * q + 2, den);
    assert (2 * q + 1) * den < (2 * r + 2) * den;
    CancelFactor(2 * q + 1, 2 * r + 2, den);
  }

  lemma CancelFactor(a: int, b: int, den: int)
    requires den > 0 && a * den < b * den
    ensures a < b
  {
  }

  /** The text `toFixed(2)` prints for a non-negative amount below 10^21:
      the whole part without superfluous leading zeros, a dot, and exactly
      two fraction digits, with nothing before or after. */
  predicate IsAmountText(t: string) {
    && |t| >= 4
    && t[|t| - 3] == '.'
    && AllDigits(t[..|t| - 3])
    && AllDigits(t[|t| - 2..])
    && (t[0] == '0' ==> |t| == 4)
  }

  /** A cent amount as `toFixed(2)` prints it: dollars, a dot, two digits. */
  function FormatCents(cents: nat): (s: string)
    ensures |s| >= 4 && s[|s| - 3] == '.'
    ensures IsAmountText(s)
  {
    NatToString(cents / 100) + "." + [DigitChar((cents % 100) / 10), DigitChar(cents % 10)]
  }

  lemma FormatCentsRateChars(cents: nat)
    ensures forall i :: 0 <= i < |FormatCents(cents)| ==> IsRateChar(FormatCents(cents)[i])
  {
    var f := FormatCents(cents);
    assert IsAmountText(f);
    forall i | 0 <= i < |f| ensures IsRateChar(f[i]) {
      if i < |f| - 3 {
        assert f[i] == f[..|f| - 3][i];
      } else if i > |f| - 3 {
        assert f[i] == f[|f| - 2..][i - (|f| - 2)];
      }
    }
  }

  /** Reading a printed cent amount back yields the amount, scaled by 100. */
  lemma FormatCentsRoundTrip(cents: nat)
    ensures ParseRate(FormatCents(cents)) == Some(Rate(cents, 2))
  {
    var d := NatToString(cents / 100);
    var two := [DigitChar((cents % 100) / 10), DigitChar(cents % 10)];
    assert FormatCents(cents) == d + "." + two;
    ParseAmount(d, two);
    assert DigitsValue(two) == cents % 100 by {
      assert two[..1] == [two[0]] && [two[0]][..0] == [];
      TwoDigits(cents);
    }
    assert DigitsValue(d + two) == cents by {
      DigitsValueAppend(d, two);
      NatToStringRoundTrip(cents / 100);
      assert Pow10(2) == 100;
    }
  }

  /** Digits, a dot and two digits parse to all the digits at scale 2. */
  lemma ParseAmount(d: string, two: string)
    requires AllDigits(d) && AllDigits(two) && |two| == 2
    ensures ParseRate(d + "." + two) == Some(Rate(DigitsValue(d + two), 2))
  {
    assert LeadingDigits(two) == 2 by {
      LeadingDigitsAppend(two, "");
      assert two + "" == two;
    }
    assert two[..2] == two;
    ParseRateAfterDot(d, two);
  }

  /** An amount text is determined by the value it parses to: the printed
      amount is the only well-formed text for its cents. */
  lemma AmountTextUnique(t: string, cents: nat)
    requires IsAmountText(t)
    requires ParseRate(t) == Some(Rate(cents, 2))
    ensures t == FormatCents(cents)
  {
    var d, two := t[..|t| - 3], t[|t| - 2..];
    assert t == d + "." + two;
    AmountValue(d, two, cents);
    CanonicalIsNatToString(d);
    AmountFraction(two, cents);
  }

  /** The cents an amount text parses to, split into its two parts. */
  lemma AmountValue(d: string, two: string, cents: nat)
    requires AllDigits(d) && AllDigits(two) && |two| == 2
    requires ParseRate(d + "." + two) == Some(Rate(cents, 2))
    ensures DigitsValue(d) == cents / 100 && DigitsValue(two) == cents % 100
  {
    assert DigitsValue(d + two) == cents by {
      ParseAmount(d, two);
    }
    DigitsValueAppend(d, two);
    assert Pow10(2) == 100;
    DivModHundred(DigitsValue(d), DigitsValue(two), cents);
  }

  /** Two digits worth `cents % 100` are the two digits `FormatCents` prints. */
  lemma AmountFraction(two: string, cents: nat)
    requires |two| == 2 && AllDigits(two) && DigitsValue(two) == cents % 100
    ensures two == [DigitChar((cents % 100) / 10), DigitChar(cents % 10)]
  {
    assert two[..1] == [two[0]] && [two[0]][..0] == [];
    var hi, lo := DigitValue(two[0]), DigitValue(two[1]);
    assert DigitsValue(two) == hi * 10 + lo;
    DivModTen(hi, lo, cents % 100);
    TwoDigits(cents);
    DivModTen((cents % 100) / 10, cents % 10, cents % 100);
  }

  lemma TwoDigits(c: nat)
    ensures ((c % 100) / 10) * 10 + c % 10 == c % 100
  {
    var r := c % 100;
    assert c == (c / 100) * 100 + r;
    assert c % 10 == r % 10 by {
      assert c == ((c / 100) * 10) * 10 + r;
    }
  }

  /** `calculatePrice`: "$" and the price to two decimals, or "$NaN" when
      the label holds no number. */
  function CalculatePrice(price: string, durationMinutes: nat): (r: string)
    ensures |r| >= 4 && r[0] == '$'
    ensures r != "$NaN" ==> IsAmountText(r[1..])
    ensures ParseRate(KeepRateChars(price)).None? <==> r == "$NaN"
    ensures ParseRate(KeepRateChars(price)).Some? ==>
              ParseRate(r[1..]) ==
              Some(Rate(PriceCents(ParseRate(KeepRateChars(price)).value, durationMinutes), 2))
  {
    match ParseRate(KeepRateChars(price))
    case None => "$NaN"
    case Some(rate) =>
      var cents := PriceCents(rate, durationMinutes);
      FormatCentsRoundTrip(cents);
      var r := "$" + FormatCents(cents);
      assert r[1..] == FormatCents(cents);
      r
  }

  /** A label "$<d.cc>/hr" charged for whole hours prints the rate times the
      hours. */
  lemma HourlyLabelPrice(cents: nat, hours: nat, total: nat)
    requires total == cents * hours
    ensures CalculatePrice("$" + FormatCents(cents) + "/hr", 60 * hours) == "$" + FormatCents(total)
  {
    var f := FormatCents(cents);
    FormatCentsRateChars(cents);
    StripHourlyLabel(f);
    FormatCentsRoundTrip(cents);
    WholeHoursPrice(cents, hours);
  }

  //--------------------------------------------------------------------------
  // Selection and booking
  //--------------------------------------------------------------------------

  /** `handleSpotSelection`: the selection moves to `spotId` only when the
      first spot with that id exists and is free. */
  function HandleSpotSelection(spots: seq<Spot>, selected: Option<int>, spotId: int): (r: Option<int>)
    ensures var k := FirstSpotIndex(spots, spotId);
            if k >= 0 && !spots[k].isTaken then r == Some(spotId) else r == selected
  {
    var k := FirstSpotIndex(spots, spotId);
    if k >= 0 && !spots[k].isTaken then Some(spotId) else selected
  }

  /** The page's location: the one with the route's id, else the first. */
  function ResolveLocation(locations: seq<Location>, locationId: int): (r: Option<Location>)
    ensures r.None? <==> |locations| == 0
    ensures r.Some? ==> r.value in locations
    ensures (exists i :: 0 <= i < |locations| && locations[i].id == locationId) ==>
              r.Some? && exists k :: 0 <= k < |locations| && locations[k] == r.value &&
                                     r.value.id == locationId &&
                                     forall j :: 0 <= j < k ==> locations[j].id != locationId
    ensures (forall i :: 0 <= i < |locations| ==> locations[i].id != locationId) && |locations| > 0 ==>
              r == Some(locations[0])
  {
    match Seqs.Find(locations, (l: Location) => l.id == locationId)
    case Some(l) => Some(l)
    case None => if |locations| == 0 then None else Some(locations[0])
  }

  /** Locale-formatted start time, end time and date (opaque here). */
  datatype Labels = Labels(startTime: string, endTime: string, date: string)

  /** `handleBooking`: nothing without a selected (nonzero) spot; otherwise
      an Active session for the selected spot at this location, running
      `durationMinutes` from `start`, charged "CAD " and the computed price. */
  function HandleBooking(location: Location, selected: Option<int>, durationMinutes: nat,
                         start: int, sessionId: string, labels: Labels): (r: Option<Session>)
    ensures r.None? <==> selected.None? || selected.value == 0
    ensures r.Some? ==>
              var s := r.value;
              && s.id == sessionId
              && s.status == Active
              && s.spotId == selected.value
              && s.zone == location.zone && s.location == location.name && s.address == location.address
              && s.durationMinutes == Some(durationMinutes as int)
              && s.startTimestamp == Some(start)
              && s.endTimestamp.Some?
              && s.endTimestamp.value - start == durationMinutes * MillisPerMinute
              && s.amount == "CAD " + CalculatePrice(location.price, durationMinutes)
              && s.startTime == labels.startTime && s.endTime == labels.endTime && s.date == labels.date
  {
    if selected.None? || selected.value == 0 then None
    else
      Some(Session(
        sessionId, location.zone, location.name, location.address,
        labels.startTime, labels.endTime, labels.date,
        "CAD " + CalculatePrice(location.price, durationMinutes),
        Active, selected.value,
        Some(start), Some(UpdateEndTime(start, durationMinutes)), Some(durationMinutes)))
  }

  /** The whole booking click: resolve the page's location, build the
      session, and hand it to the provider. */
  function Book(ctx: Context, locationId: int, selected: Option<int>, durationMinutes: nat,
                start: int, sessionId: string, labels: Labels): (r: Context)
    ensures selected.None? || selected == Some(0) || |ctx.locations| == 0 ==> r == ctx
  {
    match ResolveLocation(ctx.locations, locationId)
    case None => ctx
    case Some(location) =>
      match HandleBooking(location, selected, durationMinutes, start, sessionId, labels)
      case None => ctx
      case Some(session) => AddParkingSession(ctx, session, sessionId)
  }

  /** Clicking a taken spot selects nothing, so booking then changes
      nothing: the page is the only place a taken spot is refused. */
  lemma TakenSpotRefused(ctx: Context, locationId: int, spotId: int, durationMinutes: nat,
                         start: int, sessionId: string, labels: Labels)
    requires var spots := GetParkingSpots(ctx, locationId);
             FirstSpotIndex(spots, spotId) >= 0 && spots[FirstSpotIndex(spots, spotId)].isTaken
    ensures var sel := HandleSpotSelection(GetParkingSpots(ctx, locationId), None, spotId);
            Book(ctx, locationId, sel, durationMinutes, start, sessionId, labels) == ctx
  {
  }

  /** Booking a free spot at a location that is the first with its zone
      records an Active session that becomes the active one, marks the
      spot taken, and leaves the location's count equal to its free spots. */
  lemma BookFreeSpot(ctx: Context, locationId: int, spotId: int, durationMinutes: nat,
                     start: int, sessionId: string, labels: Labels)
    requires spotId != 0
    requires exists i :: 0 <= i < |ctx.locations| && ctx.locations[i].id == locationId
    requires var loc := ResolveLocation(ctx.locations, locationId).value;
             LocationForZone(ctx.locations, loc.zone) == Some(loc)
    requires var spots := GetParkingSpots(ctx, locationId);
             FirstSpotIndex(spots, spotId) >= 0 && !spots[FirstSpotIndex(spots, spotId)].isTaken
    ensures var sel := HandleSpotSelection(GetParkingSpots(ctx, locationId), None, spotId);
            var r := Book(ctx, locationId, sel, durationMinutes, start, sessionId, labels);
            var pre, spots := GetParkingSpots(ctx, locationId), GetParkingSpots(r, locationId);
            var loc := ResolveLocation(ctx.locations, locationId).value;
            && |r.history| == |ctx.history| + 1
            && r.history[0].id == sessionId
            && r.history[0].spotId == spotId && r.history[0].status == Active
            && r.history[0].amount == "CAD " + CalculatePrice(loc.price, durationMinutes)
            && r.history[0].endTimestamp.Some?
            && r.history[0].endTimestamp.value - start == durationMinutes * MillisPerMinute
            && ActiveSession(r.history) == Some(r.history[0])
            && spots == SetSpot(pre, spotId, true)
            && FirstSpotIndex(spots, spotId) == FirstSpotIndex(pre, spotId)
            && spots[FirstSpotIndex(spots, spotId)].isTaken
            && CountFree(spots) + 1 == CountFree(pre)
            && forall i :: 0 <= i < |r.locations| && r.locations[i].id == locationId ==>
                 r.locations[i].availableSpots == CountFree(spots)
  {
    var pre := GetParkingSpots(ctx, locationId);
    var loc := ResolveLocation(ctx.locations, locationId).value;
    var sel := HandleSpotSelection(pre, None, spotId);
    assert sel == Some(spotId);
    var session := HandleBooking(loc, sel, durationMinutes, start, sessionId, labels).value;
    var r := Book(ctx, locationId, sel, durationMinutes, start, sessionId, labels);
    assert r == AddParkingSession(ctx, session, sessionId);
    assert r.history[0] == session;
    assert r.history == [session] + ctx.history;
    var mid := ctx.(history := r.history);
    assert r == UpdateParkingSpot(mid, locationId, spotId, true);
    assert GetParkingSpots(mid, locationId) == pre;
    FlipMakesCountConsistent(mid, locationId, spotId, true);
    SetSpotKeepsIds(pre, spotId, true);
    CountFreeAfterSetSpot(pre, spotId, true);
    assert ActiveSession(r.history) == Some(session);
  }

  /** Downtown Parking's label charges $2.50 for an hour. */
  lemma DowntownHourPrice(hourly: string)
    requires hourly == "$2.50/hr"
    ensures CalculatePrice(hourly, 60) == "$2.50"
  {
    var f := FormatCents(250);
    assert f == "2.50";
    assert hourly == "$" + f + "/hr";
    HourlyLabelPrice(250, 1, 250);
  }

  /** In the seeded state, Downtown Parking ($2.50/hr, spots 1-8, spot 3
      free): selecting and booking spot 3 for an hour at `t0` as session
      "42" charges "CAD $2.50", takes spot 3, and sets the count to the
      list's free spots less one: 4, not the seeded 12 less one. */
  lemma DowntownBooking(ctx: Context, t0: int, labels: Labels)
    requires ctx == InitialContext()
    ensures var sel := HandleSpotSelection(GetParkingSpots(ctx, 1), None, 3);
            var r := Book(ctx, 1, sel, 60, t0, "42", labels);
            var spots := GetParkingSpots(r, 1);
            && |r.history| == |ctx.history| + 1
            && r.history[0].id == "42"
            && r.history[0].status == Active
            && r.history[0].amount == "CAD $2.50"
            && r.history[0].endTimestamp == Some(t0 + 3600000)
            && FirstSpotIndex(spots, 3) == 2 && spots[2].isTaken
            && |r.locations| == |ctx.locations| && r.locations[0].availableSpots == 4
  {
    DowntownSetup(ctx);
    BookFreeSpot(ctx, 1, 3, 60, t0, "42", labels);
    var loc := ctx.locations[0];
    var r := Book(ctx, 1, HandleSpotSelection(GetParkingSpots(ctx, 1), None, 3), 60, t0, "42", labels);
    assert r.history[0].amount == "CAD $2.50" by {
      DowntownHourPrice(loc.price);
      DowntownAmount(CalculatePrice(loc.price, 60), r.history[0].amount);
    }
  }

  /** The provider marks the spot at the FIRST location with the booked
      location's zone. When an earlier location shares that zone, booking
      leaves the booked location's list alone and takes the spot number in
      the other location's list instead. */
  lemma SharedZoneMarksOtherLocation(ctx: Context, locationId: int, spotId: int, durationMinutes: nat,
                                     start: int, sessionId: string, labels: Labels)
    requires spotId != 0
    requires ResolveLocation(ctx.locations, locationId).Some?
    requires var loc := ResolveLocation(ctx.locations, locationId).value;
             LocationForZone(ctx.locations, loc.zone).Some? &&
             LocationForZone(ctx.locations, loc.zone).value.id != loc.id
    ensures var loc := ResolveLocation(ctx.locations, locationId).value;
            var other := LocationForZone(ctx.locations, loc.zone).value;
            var r := Book(ctx, locationId, Some(spotId), durationMinutes, start, sessionId, labels);
            && GetParkingSpots(r, loc.id) == GetParkingSpots(ctx, loc.id)
            && GetParkingSpots(r, other.id) == SetSpot(GetParkingSpots(ctx, other.id), spotId, true)
  {
    var loc := ResolveLocation(ctx.locations, locationId).value;
    var session := HandleBooking(loc, Some(spotId), durationMinutes, start, sessionId, labels).value;
    assert Book(ctx, locationId, Some(spotId), durationMinutes, start, sessionId, labels) ==
           AddParkingSession(ctx, session, sessionId);
    assert session.zone == loc.zone && session.spotId == spotId;
    SessionMarksZoneLocation(ctx, session, sessionId, loc.id);
  }

  /** Adding a session with a spot touches only the spot list of the first
      location with the session's zone. */
  lemma SessionMarksZoneLocation(ctx: Context, session: Session, generatedId: string, otherId: int)
    requires session.spotId != 0 && LocationForZone(ctx.locations, session.zone).Some?
    requires otherId != LocationForZone(ctx.locations, session.zone).value.id
    ensures var target := LocationForZone(ctx.locations, session.zone).value.id;
            var r := AddParkingSession(ctx, session, generatedId);
            && GetParkingSpots(r, otherId) == GetParkingSpots(ctx, otherId)
            && GetParkingSpots(r, target) == SetSpot(GetParkingSpots(ctx, target), session.spotId, true)
  {
    var target := LocationForZone(ctx.locations, session.zone).value.id;
    var r := AddParkingSession(ctx, session, generatedId);
    var mid := ctx.(history := r.history);
    assert r == UpdateParkingSpot(mid, target, session.spotId, true);
    assert GetParkingSpots(mid, otherId) == GetParkingSpots(ctx, otherId);
    assert GetParkingSpots(mid, target) == GetParkingSpots(ctx, target);
  }

  /** The facts about the initial state the Downtown scenario rests on. */
  lemma DowntownSetup(ctx: Context)
    requires ctx == InitialContext()
    ensures |ctx.locations| == 4 && ctx.locations[0].id == 1
    ensures ctx.locations[0].price == "$2.50/hr"
    ensures ResolveLocation(ctx.locations, 1) == Some(ctx.locations[0])
    ensures LocationForZone(ctx.locations, ctx.locations[0].zone) == Some(ctx.locations[0])
    ensures var pre := GetParkingSpots(ctx, 1);
            FirstSpotIndex(pre, 3) == 2 && !pre[2].isTaken && CountFree(pre) == 5
  {
    DowntownList(ctx);
    DowntownSpotThree(GetParkingSpots(ctx, 1));
  }

  lemma DowntownList(ctx: Context)
    requires ctx == InitialContext()
    ensures GetParkingSpots(ctx, 1) == DowntownSpots()
  {
    assert ctx.spotsMap == InitialSpots();
  }

  /** Spot 3 of the Downtown list sits at index 2 and is free, one of five. */
  lemma DowntownSpotThree(pre: seq<Spot>)
    requires pre == DowntownSpots()
    ensures FirstSpotIndex(pre, 3) == 2 && !pre[2].isTaken && CountFree(pre) == 5
  {
    assert pre[0].id == 1 && pre[1].id == 2 && pre[2].id == 3 && !pre[2].isTaken;
    assert CountFree(pre) == 5 by {
      InitialFreeCounts();
    }
  }

  lemma DowntownAmount(price: string, amount: string)
    requires price == "$2.50"
    requires amount == "CAD " + price
    ensures amount == "CAD $2.50"
  {
  }

  /** Continuing that booking: a second before the end one second remains;
      at the end the query yields nothing and the session reads Completed. */
  lemma DowntownCountdown(ctx: Context, t0: int, labels: Labels)
    requires ctx == InitialContext()
    requires t0 >= 0
    ensures var sel := HandleSpotSelection(GetParkingSpots(ctx, 1), None, 3);
            var r := Book(ctx, 1, sel, 60, t0, "42", labels);
            var atEnd := GetRemainingTime(r, "42", t0 + 3600000);
            && GetRemainingTime(r, "42", t0 + 3599000).remaining == Some(Hms(0, 0, 1))
            && atEnd.remaining == None
            && atEnd.ctx.history[0].status == Completed
  {
    DowntownBooking(ctx, t0, labels);
    var sel := HandleSpotSelection(GetParkingSpots(ctx, 1), None, 3);
    var r := Book(ctx, 1, sel, 60, t0, "42", labels);
    LastSecondCountdown(r, "42", t0 + 3600000);
  }
}
