/** The mock detection server: the occupancy snapshot it pushes to every
    client each round, the even/odd toggle between rounds, and its reply to
    keep-alive pings. */
module MockFeed {
  import opened Wrappers
  import opened Decimal
  import DashboardTypes
  import ParkingStore
  import ParkingMap

  /** Spots the mock reports on. */
  const NumSpots: nat := 10

  function SpotKey(i: nat): string {
    "spot_" + NatToString(i)
  }

  lemma SpotKeyInjective(a: nat, b: nat)
    requires SpotKey(a) == SpotKey(b)
    ensures a == b
  {
    assert SpotKey(a)[5..] == NatToString(a);
    assert SpotKey(b)[5..] == NatToString(b);
    NatToStringInjective(a, b);
  }

  /** The keys "spot_0" up to "spot_{n-1}", in order. */
  function SpotKeys(n: nat): (keys: seq<string>)
    ensures |keys| == n
    ensures forall i :: 0 <= i < n ==> keys[i] == SpotKey(i)
  {
    seq(n, (i: int) requires 0 <= i => SpotKey(i))
  }

  predicate Distinct(keys: seq<string>) {
    forall i, j :: 0 <= i < j < |keys| ==> keys[i] != keys[j]
  }

  lemma SpotKeysDistinct(n: nat)
    ensures Distinct(SpotKeys(n))
  {
    var keys := SpotKeys(n);
    forall i, j | 0 <= i < j < n
      ensures keys[i] != keys[j]
    {
      if keys[i] == keys[j] {
        SpotKeyInjective(i, j);
      }
    }
  }

  function SpotValue(i: nat, toggle: nat): (v: string)
    ensures v == "occupied" || v == "empty"
  {
    if i % 2 == toggle then "occupied" else "empty"
  }

  /** A spot reads "occupied" exactly when its index has the toggle's parity. */
  lemma SpotValueOccupied(i: nat, toggle: nat)
    ensures SpotValue(i, toggle) == "occupied" <==> i % 2 == toggle
  {
    OccupiedIsNotEmpty();
  }

  /** The comprehension of `generate_mock_parking_data` over a list of
      distinct keys: key number i maps to "occupied" when i has the parity
      `toggle` and to "empty" otherwise, and nothing else is in the map. */
  function Snapshot(keys: seq<string>, toggle: nat): (m: map<string, string>)
    requires Distinct(keys)
    ensures |m| == |keys|
    ensures forall k :: k in m <==> k in keys
    ensures forall i :: 0 <= i < |keys| ==> keys[i] in m && m[keys[i]] == SpotValue(i, toggle)
  {
    if keys == [] then map[]
    else
      var n := |keys| - 1;
      SnocDistinct(keys);
      var before := Snapshot(keys[..n], toggle);
      SnapshotSnoc(keys, toggle, before);
      before[keys[n] := SpotValue(n, toggle)]
  }

  /** One step of the comprehension: adding the last key to the snapshot of
      the others gives the snapshot of all of them. */
  lemma SnapshotSnoc(keys: seq<string>, toggle: nat, before: map<string, string>)
    requires Distinct(keys) && |keys| > 0
    requires var init := keys[..|keys| - 1];
             && |before| == |init|
             && (forall k :: k in before <==> k in init)
             && forall i :: 0 <= i < |init| ==> init[i] in before && before[init[i]] == SpotValue(i, toggle)
    ensures var n := |keys| - 1;
            var m := before[keys[n] := SpotValue(n, toggle)];
            && |m| == |keys|
            && (forall k :: k in m <==> k in keys)
            && forall i :: 0 <= i < |keys| ==> keys[i] in m && m[keys[i]] == SpotValue(i, toggle)
  {
    SnapshotSnocDomain(keys, before, SpotValue(|keys| - 1, toggle));
    forall i | 0 <= i < |keys| - 1 {
      SnapshotSnocKeeps(keys, toggle, before, i);
    }
  }

  lemma SnapshotSnocDomain(keys: seq<string>, before: map<string, string>, v: string)
    requires Distinct(keys) && |keys| > 0
    requires var init := keys[..|keys| - 1];
             |before| == |init| && forall k :: k in before <==> k in init
    ensures var m := before[keys[|keys| - 1] := v];
            |m| == |keys| && forall k :: k in m <==> k in keys
  {
    SnocDistinct(keys);
    assert keys[|keys| - 1] !in before;
  }

  lemma SnapshotSnocKeeps(keys: seq<string>, toggle: nat, before: map<string, string>, i: nat)
    requires Distinct(keys) && i < |keys| - 1
    requires var init := keys[..|keys| - 1];
             forall j :: 0 <= j < |init| ==> init[j] in before && before[init[j]] == SpotValue(j, toggle)
    ensures var n := |keys| - 1;
            var m := before[keys[n] := SpotValue(n, toggle)];
            keys[i] in m && m[keys[i]] == SpotValue(i, toggle)
  {
    var n := |keys| - 1;
    assert keys[i] == keys[..n][i];
    assert keys[i] != keys[n];
  }

  /** Dropping the last of distinct keys leaves distinct keys without it. */
  lemma SnocDistinct(keys: seq<string>)
    requires Distinct(keys) && |keys| > 0
    ensures var init := keys[..|keys| - 1];
            && Distinct(init)
            && keys[|keys| - 1] !in init
            && forall k :: k in keys <==> k in init || k == keys[|keys| - 1]
  {
    var init := keys[..|keys| - 1];
    assert forall i :: 0 <= i < |init| ==> init[i] == keys[i];
    assert keys == init + [keys[|keys| - 1]];
  }

  /** The comprehension over the keys "spot_0" to "spot_{n-1}", built one
      spot at a time. */
  function SnapshotUpTo(n: nat, toggle: nat): (m: map<string, string>)
    ensures |m| == n
    ensures forall k :: k in m <==> k in SpotKeys(n)
    ensures forall i :: 0 <= i < n ==> SpotKey(i) in m && m[SpotKey(i)] == SpotValue(i, toggle)
  {
    if n == 0 then map[]
    else
      var before := SnapshotUpTo(n - 1, toggle);
      SpotKeysDistinct(n);
      assert SpotKeys(n)[..n - 1] == SpotKeys(n - 1);
      SnapshotSnoc(SpotKeys(n), toggle, before);
      before[SpotKey(n - 1) := SpotValue(n - 1, toggle)]
  }

  /** The keys of the first `n` spots are exactly the `SpotKey(i)`, i < n. */
  lemma SpotKeysMembers(n: nat)
    ensures forall k :: k in SpotKeys(n) <==> exists i :: 0 <= i < n && k == SpotKey(i)
  {
    var keys := SpotKeys(n);
    forall k | k in keys
      ensures exists i :: 0 <= i < n && k == SpotKey(i)
    {
      var i :| 0 <= i < n && keys[i] == k;
    }
    forall k | exists i :: 0 <= i < n && k == SpotKey(i)
      ensures k in keys
    {
      var i :| 0 <= i < n && k == SpotKey(i);
      assert keys[i] == k;
    }
  }

  /** A snapshot's values: "occupied" exactly on the toggle's parity, and
      "empty" on every other key. */
  lemma SnapshotUpToValues(n: nat, toggle: nat)
    ensures var m := SnapshotUpTo(n, toggle);
            && (forall i :: 0 <= i < n ==> (m[SpotKey(i)] == "occupied" <==> i % 2 == toggle))
            && forall k :: k in m ==> m[k] == "occupied" || m[k] == "empty"
  {
    var m := SnapshotUpTo(n, toggle);
    OccupiedIsNotEmpty();
    SpotKeysMembers(n);
    forall k | k in m
      ensures m[k] == "occupied" || m[k] == "empty"
    {
      var i :| 0 <= i < n && k == SpotKey(i);
      assert m[SpotKey(i)] == SpotValue(i, toggle);
    }
  }

  /** Both constructions of the snapshot agree. */
  lemma SnapshotUpToIsSnapshot(n: nat, toggle: nat)
    ensures Distinct(SpotKeys(n))
    ensures SnapshotUpTo(n, toggle) == Snapshot(SpotKeys(n), toggle)
  {
    SpotKeysDistinct(n);
    var keys := SpotKeys(n);
    var a, b := SnapshotUpTo(n, toggle), Snapshot(keys, toggle);
    SameKeys(a, b, keys);
    assert forall k :: k in a ==> a[k] == b[k] by {
      forall k | k in a
        ensures a[k] == b[k]
      {
        SnapshotsAgreeAt(n, toggle, k);
      }
    }
    SameEntries(a, b);
  }

  lemma SameKeys(a: map<string, string>, b: map<string, string>, keys: seq<string>)
    requires forall k :: k in a <==> k in keys
    requires forall k :: k in b <==> k in keys
    ensures a.Keys == b.Keys
  {
  }

  /** Maps with the same keys and the same value at each key are equal. */
  lemma SameEntries(a: map<string, string>, b: map<string, string>)
    requires a.Keys == b.Keys && forall k :: k in a ==> a[k] == b[k]
    ensures a == b
  {
  }

  lemma SnapshotsAgreeAt(n: nat, toggle: nat, k: string)
    requires Distinct(SpotKeys(n)) && k in SpotKeys(n)
    ensures k in SnapshotUpTo(n, toggle) && k in Snapshot(SpotKeys(n), toggle)
    ensures SnapshotUpTo(n, toggle)[k] == Snapshot(SpotKeys(n), toggle)[k]
  {
    var keys := SpotKeys(n);
    var i :| 0 <= i < n && keys[i] == k;
    assert keys[i] == SpotKey(i);
  }

  /** `generate_mock_parking_data(toggle)`: exactly the keys "spot_0" to
      "spot_9", with "occupied" on the spots of the toggle's parity and
      "empty" on the others. */
  function GenerateMockParkingData(toggle: nat): (m: map<string, string>)
    ensures |m| == NumSpots
    ensures forall k :: k in m <==> exists i :: 0 <= i < NumSpots && k == SpotKey(i)
    ensures forall i :: 0 <= i < NumSpots ==> SpotKey(i) in m && m[SpotKey(i)] == SpotValue(i, toggle)
    ensures forall k :: k in m ==> m[k] == "occupied" || m[k] == "empty"
  {
    SpotKeysMembers(NumSpots);
    SnapshotUpToValues(NumSpots, toggle);
    SnapshotUpTo(NumSpots, toggle)
  }

  /** The toggle used in round `round` of `send_mock_updates`: starts at 0
      and flips to `1 - toggle` after each round. */
  function ToggleAt(round: nat): (t: nat)
    ensures t <= 1
  {
    if round == 0 then 0 else 1 - ToggleAt(round - 1)
  }

  /** The toggle of round `round` is the parity of `round`: 0, 1, 0, … */
  lemma {:induction false} ToggleParity(round: nat)
    ensures ToggleAt(round) == round % 2
  {
    if round > 0 {
      ToggleParity(round - 1);
    }
  }

  /** The two values a spot can take are different strings. */
  lemma OccupiedIsNotEmpty()
    ensures "occupied" != "empty"
  {
    assert |"occupied"| != |"empty"|;
  }

  /** Consecutive rounds are complementary: every spot's value flips, and
      each is "occupied" or "empty". */
  lemma ConsecutiveRoundsFlip(round: nat, i: nat)
    requires i < NumSpots
    ensures var a := GenerateMockParkingData(ToggleAt(round))[SpotKey(i)];
            var b := GenerateMockParkingData(ToggleAt(round + 1))[SpotKey(i)];
            a != b && (a == "occupied" || a == "empty") && (b == "occupied" || b == "empty")
  {
    ToggleFlips(round);
    GeneratedFlip(ToggleAt(round), ToggleAt(round + 1), i);
  }

  lemma ToggleFlips(round: nat)
    ensures ToggleAt(round) <= 1 && ToggleAt(round + 1) == 1 - ToggleAt(round)
  {
  }

  /** Complementary toggles give complementary snapshots. */
  lemma GeneratedFlip(t: nat, t': nat, i: nat)
    requires i < NumSpots && t <= 1 && t' == 1 - t
    ensures var a := GenerateMockParkingData(t)[SpotKey(i)];
            var b := GenerateMockParkingData(t')[SpotKey(i)];
            a != b && (a == "occupied" || a == "empty") && (b == "occupied" || b == "empty")
  {
    ValuesFlip(i, t, t');
  }

  /** A spot's value under complementary toggles differs. */
  lemma ValuesFlip(i: nat, t: nat, t': nat)
    requires t <= 1 && t' == 1 - t
    ensures SpotValue(i, t) != SpotValue(i, t')
  {
    OccupiedIsNotEmpty();
  }

  function KeysWithValue(m: map<string, string>, value: string): set<string> {
    set k | k in m && m[k] == value
  }

  /** Number of indices below `n` with parity `toggle`. */
  function CountParity(n: nat, toggle: nat): (c: nat)
    ensures c <= n
  {
    if n == 0 then 0 else CountParity(n - 1, toggle) + (if (n - 1) % 2 == toggle then 1 else 0)
  }

  /** Adding a fresh key adds it to the keys of its own value only. */
  lemma KeysWithValueAdd(m: map<string, string>, k: string, v: string, value: string)
    requires k !in m
    ensures |KeysWithValue(m[k := v], value)| ==
            |KeysWithValue(m, value)| + (if v == value then 1 else 0)
  {
    var before := KeysWithValue(m, value);
    if v == value {
      assert KeysWithValue(m[k := v], value) == before + {k};
    } else {
      assert KeysWithValue(m[k := v], value) == before;
    }
  }

  /** The occupied keys are as many as the indices of the toggle's parity;
      all the other keys are empty. */
  lemma {:induction false} OccupiedCount(keys: seq<string>, toggle: nat)
    requires Distinct(keys)
    ensures |KeysWithValue(Snapshot(keys, toggle), "occupied")| == CountParity(|keys|, toggle)
    ensures |KeysWithValue(Snapshot(keys, toggle), "empty")| == |keys| - CountParity(|keys|, toggle)
  {
    if keys != [] {
      var n := |keys| - 1;
      SnocDistinct(keys);
      var init := keys[..n];
      OccupiedCount(init, toggle);
      var v := SpotValue(n, toggle);
      SnapshotUnfold(keys, toggle);
      KeysWithValueAdd(Snapshot(init, toggle), keys[n], v, "occupied");
      KeysWithValueAdd(Snapshot(init, toggle), keys[n], v, "empty");
      assert (v == "occupied") == (n % 2 == toggle) && (v == "empty") == (n % 2 != toggle) by {
        OccupiedIsNotEmpty();
      }
    }
  }

  lemma SnapshotUnfold(keys: seq<string>, toggle: nat)
    requires Distinct(keys) && |keys| > 0
    ensures var n := |keys| - 1;
            Distinct(keys[..n]) && keys[n] !in Snapshot(keys[..n], toggle) &&
            Snapshot(keys, toggle) == Snapshot(keys[..n], toggle)[keys[n] := SpotValue(n, toggle)]
  {
    SnocDistinct(keys);
  }

  /** Over an even number of indices each parity occurs for half of them. */
  lemma {:induction false} CountParityHalf(n: nat, toggle: nat)
    requires n % 2 == 0 && toggle <= 1
    ensures CountParity(n, toggle) == n / 2
  {
    if n > 0 {
      CountParityHalf(n - 2, toggle);
      assert CountParity(n, toggle) == CountParity(n - 2, toggle) + 1;
    }
  }

  /** With ten spots every round reports five occupied and five empty. */
  lemma FiveAndFive(round: nat)
    ensures var m := GenerateMockParkingData(ToggleAt(round));
            |KeysWithValue(m, "occupied")| == 5 && |KeysWithValue(m, "empty")| == 5
  {
    var t := ToggleAt(round);
    SnapshotUpToIsSnapshot(NumSpots, t);
    OccupiedCount(SpotKeys(NumSpots), t);
    CountParityHalf(NumSpots, t);
  }

  /** `websocket_handler`: "pong" for "ping"; any other client message gets
      no reply. */
  function PingReply(message: string): (reply: Option<string>)
    ensures reply.Some? <==> message == "ping"
    ensures reply.Some? ==> reply.value == "pong"
  {
    if message == "ping" then Some("pong") else None
  }

  /** A round's snapshot, received by the dashboard, paints the live map:
      spot number i (as text) is red when occupied this round and green
      otherwise. */
  lemma SnapshotPaintsLiveMap(st: ParkingStore.Store, round: nat, i: nat,
                              spots: seq<DashboardTypes.DashSpot>)
    requires i < NumSpots
    ensures var frame := ParkingStore.Parsed(GenerateMockParkingData(ToggleAt(round)));
            var after := ParkingStore.OnEvent(st, ParkingStore.Message(frame)).store;
            ParkingMap.GetStatusColor(spots, true, after.spotStatus, NatToString(i)) ==
              if i % 2 == round % 2 then ParkingMap.Red500 else ParkingMap.Green500
  {
    ToggleParity(round);
    var m := GenerateMockParkingData(ToggleAt(round));
    var after := ParkingStore.OnEvent(st, ParkingStore.Message(ParkingStore.Parsed(m))).store;
    assert after.spotStatus == m;
    var key := ParkingMap.LiveKey(NatToString(i));
    assert key == SpotKey(i);
    assert key in m;
    if i % 2 == round % 2 {
      assert m[key] == "occupied";
    } else {
      assert m[key] == "empty";
    }
  }

  /** The feed's keys carry single-digit, unpadded numbers ("spot_0" …
      "spot_9"), while the dashboard numbers its spots with at least two
      digits ("01", "02", …): no such number is ever found in a snapshot. */
  lemma PaddedNumbersMissFeed(toggle: nat, spotNumber: string)
    requires |spotNumber| >= 2
    ensures ParkingMap.LiveKey(spotNumber) !in GenerateMockParkingData(toggle)
  {
    var key := ParkingMap.LiveKey(spotNumber);
    assert |key| >= 7;
    assert forall i :: 0 <= i < NumSpots ==> key != SpotKey(i) by {
      forall i | 0 <= i < NumSpots ensures key != SpotKey(i) {
        SingleDigitKey(i);
      }
    }
  }

  lemma SingleDigitKey(i: nat)
    requires i < 10
    ensures |SpotKey(i)| == 6
  {
  }

  /** Consequently, after any round's snapshot the live map still paints a
      cell with a padded number in its static colour. */
  lemma SnapshotLeavesPaddedCells(st: ParkingStore.Store, round: nat, spotNumber: string,
                                  spots: seq<DashboardTypes.DashSpot>)
    requires |spotNumber| >= 2
    ensures var frame := ParkingStore.Parsed(GenerateMockParkingData(ToggleAt(round)));
            var after := ParkingStore.OnEvent(st, ParkingStore.Message(frame)).store;
            ParkingMap.GetStatusColor(spots, true, after.spotStatus, spotNumber) ==
              ParkingMap.StaticColor(spots, spotNumber)
  {
    var m := GenerateMockParkingData(ToggleAt(round));
    var after := ParkingStore.OnEvent(st, ParkingStore.Message(ParkingStore.Parsed(m))).store;
    assert after.spotStatus == m;
    PaddedNumbersMissFeed(ToggleAt(round), spotNumber);
  }
}
