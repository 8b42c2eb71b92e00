/**
 * The local data store of the campus bus tracker (src/state/mockStore.ts).
 *
 * The browser's key-value storage holds four collections: stops, bus routes,
 * check-ins and the current user. Every mutator reads a whole collection,
 * transforms it and writes it back. Here the storage is an object with one
 * field per key; `None` stands for a key that is absent (or whose text does
 * not parse), which every read replaces by its fallback value.
 */
module MockStore {
  import opened Wrappers
  import opened Records
  import opened Sequences

  /** The order of the comparator `(a, b) => a.sequence - b.sequence`. */
  predicate SequenceLe(a: Stop, b: Stop)
  {
    a.sequence <= b.sequence
  }

  lemma {:induction false} SequenceLeTotalPreorder()
    ensures TotalPreorder(SequenceLe)
  {
  }

  /**
   * The stored stops as `getStops` returns them: sorted by sequence number
   * with a stable sort, as `Array.prototype.sort` is.
   */
  function InRouteOrder(stored: seq<Stop>): (r: seq<Stop>)
    ensures multiset(r) == multiset(stored)
    ensures forall i, j :: 0 <= i < j < |r| ==> r[i].sequence <= r[j].sequence
  {
    SequenceLeTotalPreorder();
    SortSorted(stored, SequenceLe);
    SortBy(stored, SequenceLe)
  }

  /** The store's stop invariant: the i-th stored stop has sequence number i + 1. */
  ghost predicate Consecutive(stops: seq<Stop>)
  {
    forall i :: 0 <= i < |stops| ==> stops[i].sequence == i + 1
  }

  /** Stops numbered 1..n in stored order are read back exactly as stored. */
  lemma {:induction false} ConsecutiveInRouteOrder(stops: seq<Stop>)
    requires Consecutive(stops)
    ensures InRouteOrder(stops) == stops
  {
    assert SortedBy(stops, SequenceLe);
    SortOfSorted(stops, SequenceLe);
  }

  /** The stops list `addStop(name)` writes back: the sorted list plus one new stop. */
  function StopsAfterAdd(stored: seq<Stop>, id: string, name: string): (r: seq<Stop>)
    ensures |r| == |stored| + 1 && r[|stored|] == Stop(id, name, |stored| + 1)
    ensures multiset(r[..|stored|]) == multiset(stored)
  {
    var current := InRouteOrder(stored);
    assert |current| == |stored| by {
      assert |multiset(current)| == |multiset(stored)|;
    }
    var r := current + [Stop(id, name, |current| + 1)];
    assert r[..|stored|] == current;
    r
  }

  /**
   * `addStop` adds exactly one stop, numbered one past the count, and keeps
   * every earlier stop; on a store numbered 1..n it appends in place.
   */
  lemma {:induction false} AddStopAppends(stored: seq<Stop>, id: string, name: string)
    ensures var r := StopsAfterAdd(stored, id, name);
      && |r| == |stored| + 1
      && r[|stored|] == Stop(id, name, |stored| + 1)
      && multiset(r) == multiset(stored) + multiset{Stop(id, name, |stored| + 1)}
    ensures Consecutive(stored) ==>
      StopsAfterAdd(stored, id, name) == stored + [Stop(id, name, |stored| + 1)] &&
      Consecutive(StopsAfterAdd(stored, id, name))
  {
    if Consecutive(stored) {
      ConsecutiveInRouteOrder(stored);
    }
  }

  /** The facts `addStop` needs about its read-back, stated on values. */
  lemma {:induction false} AddStopExtends(stored: seq<Stop>, id: string, name: string)
    ensures |InRouteOrder(stored)| == |stored|
    ensures StopsAfterAdd(stored, id, name) == InRouteOrder(stored) + [Stop(id, name, |stored| + 1)]
    ensures Consecutive(stored) ==>
      && InRouteOrder(stored) == stored
      && Consecutive(StopsAfterAdd(stored, id, name))
      && InRouteOrder(StopsAfterAdd(stored, id, name)) == StopsAfterAdd(stored, id, name)
  {
    var current := InRouteOrder(stored);
    assert |multiset(current)| == |multiset(stored)|;
    if Consecutive(stored) {
      AddStopKeepsNumbering(stored, id, name);
      ConsecutiveInRouteOrder(StopsAfterAdd(stored, id, name));
    }
  }

  /** On a store numbered 1..n, `addStop` appends in place and keeps the numbering. */
  lemma {:induction false} AddStopKeepsNumbering(stored: seq<Stop>, id: string, name: string)
    requires Consecutive(stored)
    ensures StopsAfterAdd(stored, id, name) == stored + [Stop(id, name, |stored| + 1)]
    ensures Consecutive(StopsAfterAdd(stored, id, name))
  {
    ConsecutiveInRouteOrder(stored);
  }

  /** The stops list after `addStop` was called once per name, in order. */
  function StopsAfterAdds(stored: seq<Stop>, ids: seq<string>, names: seq<string>): seq<Stop>
    requires |ids| == |names|
    decreases |names|
  {
    if names == [] then stored
    else
      var n := |names| - 1;
      StopsAfterAdd(StopsAfterAdds(stored, ids[..n], names[..n]), ids[n], names[n])
  }

  /**
   * After n calls of `addStop` on an empty store, the stored list holds the
   * new stops in call order with sequence numbers 1..n, and `getStops`
   * reads it back in that order.
   */
  lemma {:induction false} AddStopsFromEmpty(ids: seq<string>, names: seq<string>)
    requires |ids| == |names|
    ensures var r := StopsAfterAdds([], ids, names);
      && |r| == |names|
      && (forall i :: 0 <= i < |r| ==> r[i] == Stop(ids[i], names[i], i + 1))
      && InRouteOrder(r) == r
  {
    AddStopsNumbered(ids, names);
    ConsecutiveInRouteOrder(Numbered(ids, names));
  }

  /** The stops n `addStop` calls create on an empty store: the i-th call's id and name, numbered i + 1. */
  function Numbered(ids: seq<string>, names: seq<string>): (r: seq<Stop>)
    requires |ids| == |names|
    ensures |r| == |names| && Consecutive(r)
    ensures forall i {:trigger r[i]} :: 0 <= i < |names| ==> r[i] == Stop(ids[i], names[i], i + 1)
  {
    seq(|names|, i requires 0 <= i < |names| => Stop(ids[i], names[i], i + 1))
  }

  lemma {:induction false} AddStopsNumbered(ids: seq<string>, names: seq<string>)
    requires |ids| == |names|
    ensures StopsAfterAdds([], ids, names) == Numbered(ids, names)
    decreases |names|
  {
    if names != [] {
      var n := |names| - 1;
      var before := Numbered(ids[..n], names[..n]);
      AddStopsNumbered(ids[..n], names[..n]);
      AddStopKeepsNumbering(before, ids[n], names[n]);
      assert StopsAfterAdds([], ids, names) == StopsAfterAdd(StopsAfterAdds([], ids[..n], names[..n]), ids[n], names[n]);
      assert StopsAfterAdds([], ids, names) == before + [Stop(ids[n], names[n], n + 1)];
      forall i | 0 <= i <= n
        ensures Numbered(ids, names)[i] == (before + [Stop(ids[n], names[n], n + 1)])[i]
      {
        if i < n {
          assert ids[..n][i] == ids[i] && names[..n][i] == names[i];
          assert before[i] == Stop(ids[i], names[i], i + 1);
        }
      }
      assert Numbered(ids, names) == before + [Stop(ids[n], names[n], n + 1)];
    }
  }

  /** `stops.map((s) => (s.id === id ? { ...s, name } : s))`. */
  function Renamed(stops: seq<Stop>, id: string, name: string): (r: seq<Stop>)
    ensures |r| == |stops|
    ensures forall i :: 0 <= i < |stops| ==>
      r[i].id == stops[i].id && r[i].sequence == stops[i].sequence &&
      r[i].name == (if stops[i].id == id then name else stops[i].name)
  {
    seq(|stops|, i requires 0 <= i < |stops| =>
      if stops[i].id == id then stops[i].(name := name) else stops[i])
  }

  /**
   * The stops list `updateStop(id, name)` writes back: the stops in route
   * order, each keeping its id and sequence number, renamed exactly when its
   * id matches.
   */
  function StopsAfterRename(stored: seq<Stop>, id: string, name: string): (r: seq<Stop>)
    ensures |r| == |stored|
    ensures forall i :: 0 <= i < |r| ==>
      var s := InRouteOrder(stored)[i];
      r[i] == s.(name := if s.id == id then name else s.name)
  {
    var current := InRouteOrder(stored);
    assert |current| == |stored| by {
      assert |multiset(current)| == |multiset(stored)|;
    }
    Renamed(current, id, name)
  }

  /** With an id no stop has, `updateStop` writes the sorted list back unchanged. */
  lemma {:induction false} RenameUnknownId(stored: seq<Stop>, id: string, name: string)
    requires forall s :: s in stored ==> s.id != id
    ensures StopsAfterRename(stored, id, name) == InRouteOrder(stored)
  {
    var sorted := InRouteOrder(stored);
    forall i | 0 <= i < |sorted|
      ensures sorted[i].id != id
    {
      assert sorted[i] in multiset(stored);
    }
  }

  /** What `updateStop` writes is in order, so `getStops` reads it back as written. */
  lemma {:induction false} RenameReadsBack(stored: seq<Stop>, id: string, name: string)
    ensures InRouteOrder(StopsAfterRename(stored, id, name)) == StopsAfterRename(stored, id, name)
  {
    var r := StopsAfterRename(stored, id, name);
    assert SortedBy(r, SequenceLe);
    SortOfSorted(r, SequenceLe);
  }

  /** The facts `updateStop` relies on, gathered in one place. */
  lemma {:induction false} RenameFacts(stored: seq<Stop>, id: string, name: string)
    ensures InRouteOrder(StopsAfterRename(stored, id, name)) == StopsAfterRename(stored, id, name)
    ensures (forall s :: s in stored ==> s.id != id) ==> StopsAfterRename(stored, id, name) == InRouteOrder(stored)
    ensures Consecutive(stored) ==> Consecutive(StopsAfterRename(stored, id, name))
  {
    RenameReadsBack(stored, id, name);
    if forall s :: s in stored ==> s.id != id {
      RenameUnknownId(stored, id, name);
    }
    if Consecutive(stored) {
      RenameKeepsNumbering(stored, id, name);
    }
  }

  /** `updateStop` keeps the numbering 1..n. */
  lemma {:induction false} RenameKeepsNumbering(stored: seq<Stop>, id: string, name: string)
    requires Consecutive(stored)
    ensures Consecutive(StopsAfterRename(stored, id, name))
  {
    ConsecutiveInRouteOrder(stored);
  }

  /**
   * `buses.map((b) => b.id === busId ? { ...b, lastDepartedStopId: stopId,
   * lastDepartureTime: time } : b)`: only the matching buses change, and
   * only in their two position fields; `stopId` is not checked against the route.
   */
  function MoveBus(buses: seq<BusRoute>, busId: string, stopId: string, time: string): (r: seq<BusRoute>)
    ensures |r| == |buses|
    ensures forall i :: 0 <= i < |buses| && buses[i].id == busId ==>
      r[i].lastDepartedStopId == Some(stopId) && r[i].lastDepartureTime == Some(time)
    ensures forall i :: 0 <= i < |buses| ==>
      r[i].(lastDepartedStopId := buses[i].lastDepartedStopId, lastDepartureTime := buses[i].lastDepartureTime) == buses[i]
    ensures forall i :: 0 <= i < |buses| && buses[i].id != busId ==> r[i] == buses[i]
  {
    seq(|buses|, i requires 0 <= i < |buses| =>
      if buses[i].id == busId
      then buses[i].(lastDepartedStopId := Some(stopId), lastDepartureTime := Some(time))
      else buses[i])
  }

  /** An unknown bus id leaves the bus list as it was. */
  lemma {:induction false} MoveUnknownBus(buses: seq<BusRoute>, busId: string, stopId: string, time: string)
    requires forall b :: b in buses ==> b.id != busId
    ensures MoveBus(buses, busId, stopId, time) == buses
  {
  }

  /** The check-in log after `addCheckIn` recorded each entry in turn. */
  function LogAfter(log: seq<CheckIn>, entries: seq<CheckIn>): (r: seq<CheckIn>)
    ensures |r| == |log| + |entries| && r[|entries|..] == log
    decreases |entries|
  {
    if entries == [] then log
    else
      var r := LogAfter([entries[0]] + log, entries[1..]);
      assert r[|entries|..] == r[|entries| - 1..][1..];
      r
  }

  /**
   * The log is newest first: recorded entries come out in reverse order ahead
   * of the earlier log, so an entry made later is listed before one made earlier.
   */
  lemma {:induction false} LogIsNewestFirst(log: seq<CheckIn>, entries: seq<CheckIn>)
    ensures LogAfter(log, entries) == Reverse(entries) + log
    ensures forall i, j :: 0 <= i < j < |entries| ==>
      LogAfter(log, entries)[|entries| - 1 - j] == entries[j] &&
      LogAfter(log, entries)[|entries| - 1 - i] == entries[i]
    decreases |entries|
  {
    if entries != [] {
      LogIsNewestFirst([entries[0]] + log, entries[1..]);
      assert Reverse(entries) == Reverse(entries[1..]) + [entries[0]];
    }
  }

  /** The stops `seed` writes when no stops are stored. */
  const SeedStops: seq<Stop> := [
    Stop("s1", "Main Gate", 1),
    Stop("s2", "Library", 2),
    Stop("s3", "Science Block", 3),
    Stop("s4", "Dorms", 4)
  ]

  /** The buses `seed` writes when none are stored, from the stops then stored (not re-sorted). */
  function SeedBuses(stored: seq<Stop>): (r: seq<BusRoute>)
    ensures |r| == 2 && r[0].name == "Route A" && r[1].name == "Route B"
    ensures forall b :: b in r ==> b.lastDepartedStopId.None? && b.lastDepartureTime.None? && |b.stopIds| == |stored|
    ensures forall i :: 0 <= i < |stored| ==>
      r[0].stopIds[i] == stored[i].id && r[1].stopIds[|stored| - 1 - i] == stored[i].id
  {
    [ BusRoute("b1", "Route A", Ids(stored), None, None),
      BusRoute("b2", "Route B", Reverse(Ids(stored)), None, None) ]
  }

  /** On fresh storage the seed gives four stops numbered 1..4, read back in that order. */
  lemma {:induction false} SeedStopsInOrder()
    ensures Consecutive(SeedStops) && InRouteOrder(SeedStops) == SeedStops
  {
    SeedStopsNumbered();
    ConsecutiveInRouteOrder(SeedStops);
  }

  lemma {:induction false} SeedStopsNumbered()
    ensures Consecutive(SeedStops)
  {
  }

  /** The seeded routes run over the seeded stops, "Route B" the reverse of "Route A". */
  lemma {:induction false} SeedRoutes()
    ensures SeedBuses(SeedStops) == [
      BusRoute("b1", "Route A", ["s1", "s2", "s3", "s4"], None, None),
      BusRoute("b2", "Route B", ["s4", "s3", "s2", "s1"], None, None)]
  {
    var ids := Ids(SeedStops);
    assert ids == ["s1", "s2", "s3", "s4"];
    assert Reverse(ids) == ["s4", "s3", "s2", "s1"];
  }

  /** The browser storage under the keys cbt_stops, cbt_buses, cbt_checkins and cbt_current_user. */
  class Store {
    var stops: Option<seq<Stop>>
    var buses: Option<seq<BusRoute>>
    var checkIns: Option<seq<CheckIn>>
    var currentUser: Option<User>

    /** Opens the store over whatever the device storage already holds. */
    constructor (stops: Option<seq<Stop>>, buses: Option<seq<BusRoute>>,
                 checkIns: Option<seq<CheckIn>>, currentUser: Option<User>)
      ensures this.stops == stops && this.buses == buses
      ensures this.checkIns == checkIns && this.currentUser == currentUser
    {
      this.stops := stops;
      this.buses := buses;
      this.checkIns := checkIns;
      this.currentUser := currentUser;
    }

    /** `read(key, [])` on the stops key: the fallback when the key is absent. */
    function StoredStops(): (r: seq<Stop>)
      reads this
      ensures stops.None? ==> r == []
      ensures stops.Some? ==> r == stops.value
    {
      stops.GetOr([])
    }

    ghost predicate NumberedInOrder()
      reads this
    {
      Consecutive(StoredStops())
    }

    /** `read(key, null)` on the user key: nothing when the key is absent. */
    function GetCurrentUser(): (r: Option<User>)
      reads this
      ensures currentUser.None? ==> r.None?
      ensures currentUser.Some? ==> r == currentUser
    {
      currentUser
    }

    /** Sorted by sequence on every read, and a permutation of what is stored. */
    function GetStops(): (r: seq<Stop>)
      reads this
      ensures multiset(r) == multiset(StoredStops())
      ensures forall i, j :: 0 <= i < j < |r| ==> r[i].sequence <= r[j].sequence
      ensures stops.None? ==> r == []
    {
      InRouteOrder(StoredStops())
    }

    /** In insertion order; empty when the key is absent. */
    function GetBuses(): (r: seq<BusRoute>)
      reads this
      ensures buses.None? ==> r == []
      ensures buses.Some? ==> r == buses.value
    {
      buses.GetOr([])
    }

    /** Newest first; empty when the key is absent. */
    function GetCheckIns(): (r: seq<CheckIn>)
      reads this
      ensures checkIns.None? ==> r == []
      ensures checkIns.Some? ==> r == checkIns.value
    {
      checkIns.GetOr([])
    }

    /** Writes the initial stops and buses into collections that are empty. */
    method Seed()
      modifies this
      ensures old(StoredStops()) == [] ==> stops == Some(SeedStops)
      ensures old(StoredStops()) != [] ==> stops == old(stops)
      ensures old(GetBuses()) == [] ==> buses == Some(SeedBuses(StoredStops()))
      ensures old(GetBuses()) != [] ==> buses == old(buses)
      ensures checkIns == old(checkIns) && currentUser == old(currentUser)
      ensures old(StoredStops()) == [] ==> NumberedInOrder()
      ensures old(StoredStops()) == [] && old(GetBuses()) == [] ==> GetBuses() == [
        BusRoute("b1", "Route A", ["s1", "s2", "s3", "s4"], None, None),
        BusRoute("b2", "Route B", ["s4", "s3", "s2", "s1"], None, None)]
    {
      var hasStops := |StoredStops()| > 0;
      var hasBuses := |GetBuses()| > 0;
      if !hasStops {
        stops := Some(SeedStops);
        SeedStopsNumbered();
      }
      if !hasBuses {
        var stored := StoredStops();
        buses := Some(SeedBuses(stored));
        if !hasStops {
          assert stored == SeedStops;
          SeedRoutes();
          assert GetBuses() == SeedBuses(SeedStops);
        }
      }
    }

    method Login(id: string, name: Option<string>, isAdmin: Option<bool>) returns (user: User)
      modifies this
      ensures user == User(id, name, isAdmin)
      ensures GetCurrentUser() == Some(user)
      ensures stops == old(stops) && buses == old(buses) && checkIns == old(checkIns)
    {
      user := User(id, name, isAdmin);
      currentUser := Some(user);
    }

    method Logout()
      modifies this
      ensures GetCurrentUser() == None
      ensures stops == old(stops) && buses == old(buses) && checkIns == old(checkIns)
    {
      currentUser := None;
    }

    /** `id` stands for the fresh `uid("stop")`. */
    method AddStop(id: string, name: string) returns (stop: Stop)
      modifies this
      ensures stop == Stop(id, name, |old(StoredStops())| + 1)
      ensures stops == Some(old(GetStops()) + [stop])
      ensures stops == Some(StopsAfterAdd(old(StoredStops()), id, name))
      ensures old(NumberedInOrder()) ==> NumberedInOrder() && GetStops() == old(GetStops()) + [stop]
      ensures buses == old(buses) && checkIns == old(checkIns) && currentUser == old(currentUser)
    {
      ghost var stored := StoredStops();
      var current := GetStops();
      AddStopExtends(stored, id, name);
      stop := Stop(id, name, |current| + 1);
      stops := Some(current + [stop]);
    }

    method UpdateStop(id: string, name: string)
      modifies this
      ensures stops == Some(Renamed(old(GetStops()), id, name))
      ensures GetStops() == Renamed(old(GetStops()), id, name)
      ensures (forall s :: s in old(StoredStops()) ==> s.id != id) ==> GetStops() == old(GetStops())
      ensures old(NumberedInOrder()) ==> NumberedInOrder()
      ensures buses == old(buses) && checkIns == old(checkIns) && currentUser == old(currentUser)
    {
      ghost var stored := StoredStops();
      ghost var before := GetStops();
      var current := GetStops();
      var renamed := Renamed(current, id, name);
      RenameFacts(stored, id, name);
      assert renamed == StopsAfterRename(stored, id, name);
      stops := Some(renamed);
      assert StoredStops() == renamed;
      assert GetStops() == InRouteOrder(renamed);
    }

    /** `time` stands for the default `new Date().toISOString()` when the caller passes none. */
    method SetBusPosition(busId: string, stopId: string, time: string)
      modifies this
      ensures buses == Some(MoveBus(old(GetBuses()), busId, stopId, time))
      ensures stops == old(stops) && checkIns == old(checkIns) && currentUser == old(currentUser)
    {
      var current := GetBuses();
      buses := Some(MoveBus(current, busId, stopId, time));
    }

    /**
     * Records a boarding event, newest first, then moves the bus to the same
     * stop and time: two writes for one event. `id` and `timestamp` stand for
     * the fresh `uid("chk")` and the current time.
     */
    method AddCheckIn(id: string, timestamp: string, studentId: string, busId: string, stopId: string)
      returns (entry: CheckIn)
      modifies this
      ensures entry == CheckIn(id, studentId, busId, stopId, timestamp)
      ensures checkIns == Some([entry] + old(GetCheckIns()))
      ensures checkIns == Some(LogAfter(old(GetCheckIns()), [entry]))
      ensures buses == Some(MoveBus(old(GetBuses()), busId, stopId, timestamp))
      ensures forall b :: b in GetBuses() && b.id == busId ==>
        b.lastDepartedStopId == Some(stopId) && b.lastDepartureTime == Some(timestamp)
      ensures (forall b :: b in old(GetBuses()) ==> b.id != busId) ==> GetBuses() == old(GetBuses())
      ensures stops == old(stops) && currentUser == old(currentUser)
    {
      var log := GetCheckIns();
      entry := CheckIn(id, studentId, busId, stopId, timestamp);
      checkIns := Some([entry] + log);
      SetBusPosition(busId, stopId, entry.timestamp);
      if forall b :: b in old(GetBuses()) ==> b.id != busId {
        MoveUnknownBus(old(GetBuses()), busId, stopId, timestamp);
      }
    }
  }
}
