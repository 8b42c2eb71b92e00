/**
 * The rules of src/components/BusStatusCard.tsx: where a bus is said to be,
 * which stop the card selects first, and when the Boarded button reports a
 * boarding. The card is given the bus's route as a list of stops, built by
 * src/pages/Index.tsx from the route's stop ids.
 */
module BusStatus {
  import opened Wrappers
  import opened Records
  import Sequences

  /**
   * `bus.stopIds.map((id) => stopsById.get(id)).filter(Boolean)` over a
   * lookup table: the route's stops in route order, unknown ids dropped.
   */
  function Lookup(stopIds: seq<string>, index: map<string, Stop>): (r: seq<Stop>)
    ensures |r| <= |stopIds|
  {
    if stopIds == [] then []
    else (if stopIds[0] in index then [index[stopIds[0]]] else []) + Lookup(stopIds[1..], index)
  }

  /**
   * Only known ids contribute, every known id contributes its stop, and
   * when every id is known there is one stop per id, position by position.
   */
  lemma {:induction false} LookupMembers(stopIds: seq<string>, index: map<string, Stop>)
    ensures var r := Lookup(stopIds, index);
      && (forall s :: s in r ==> exists id :: id in stopIds && id in index && index[id] == s)
      && (forall id :: id in stopIds && id in index ==> index[id] in r)
      && ((forall i :: 0 <= i < |stopIds| ==> stopIds[i] in index) ==>
            |r| == |stopIds| && forall i :: 0 <= i < |r| ==> r[i] == index[stopIds[i]])
  {
    if stopIds != [] {
      LookupMembers(stopIds[1..], index);
      assert forall id :: id in stopIds[1..] ==> id in stopIds;
      assert forall id :: id in stopIds ==> id == stopIds[0] || id in stopIds[1..];
    }
  }

  /**
   * One id more at the end of the route adds its stop at the end of the
   * list, or nothing for an unknown id: the list keeps route order.
   */
  lemma {:induction false} LookupAppend(stopIds: seq<string>, id: string, index: map<string, Stop>)
    ensures Lookup(stopIds + [id], index) == Lookup(stopIds, index) + (if id in index then [index[id]] else [])
  {
    var extra := if id in index then [index[id]] else [];
    if stopIds == [] {
      assert stopIds + [id] == [id] && [id][1..] == [];
    } else {
      var ids := stopIds + [id];
      var head := if stopIds[0] in index then [index[stopIds[0]]] else [];
      var tail := stopIds[1..];
      assert ids[0] == stopIds[0] && ids[1..] == tail + [id];
      LookupAppend(tail, id, index);
      calc {
        Lookup(ids, index);
        { LookupCons(ids, index); }
        head + Lookup(tail + [id], index);
        head + (Lookup(tail, index) + extra);
        (head + Lookup(tail, index)) + extra;
        { LookupCons(stopIds, index); }
        Lookup(stopIds, index) + extra;
      }
    }
  }

  /** The first id of a non-empty route contributes its stop, if known, ahead of the rest. */
  lemma {:induction false} LookupCons(stopIds: seq<string>, index: map<string, Stop>)
    requires stopIds != []
    ensures Lookup(stopIds, index) ==
      (if stopIds[0] in index then [index[stopIds[0]]] else []) + Lookup(stopIds[1..], index)
  {
  }

  /**
   * The stops of a route as the home page hands them to the card: every
   * stop is a stored stop whose id is on the route, and every id on the
   * route that names a stored stop contributes one.
   */
  function RouteStops(stopIds: seq<string>, stops: seq<Stop>): (r: seq<Stop>)
    ensures r == Lookup(stopIds, StopIndex(stops))
    ensures |r| <= |stopIds|
    ensures forall s :: s in r ==> s in stops && s.id in stopIds
    ensures forall id :: id in stopIds && (exists s :: s in stops && s.id == id) ==>
      exists s :: s in r && s.id == id
  {
    Sequences.IndexByLookup(stops, StopId);
    var index := StopIndex(stops);
    LookupMembers(stopIds, index);
    var r := Lookup(stopIds, index);
    assert forall id :: id in stopIds && (exists s :: s in stops && s.id == id) ==> index[id] in r && index[id].id == id by {
      forall id | id in stopIds && (exists s :: s in stops && s.id == id)
        ensures id in index && index[id] in r && index[id].id == id
      {
        var s :| s in stops && s.id == id;
        var i :| 0 <= i < |stops| && stops[i] == s;
        assert StopId(stops[i]) == id;
      }
    }
    r
  }

  /**
   * The route's stops keep route order: one id more at the end adds, at the
   * end, the last stored stop carrying that id, and nothing when no stored
   * stop carries it.
   */
  lemma {:induction false} RouteStopsAppend(stopIds: seq<string>, id: string, stops: seq<Stop>)
    ensures (forall s :: s in stops ==> s.id != id) ==> RouteStops(stopIds + [id], stops) == RouteStops(stopIds, stops)
    ensures forall i :: 0 <= i < |stops| && stops[i].id == id && (forall j :: i < j < |stops| ==> stops[j].id != id) ==>
      RouteStops(stopIds + [id], stops) == RouteStops(stopIds, stops) + [stops[i]]
  {
    Sequences.IndexByLookup(stops, StopId);
    LookupAppend(stopIds, id, StopIndex(stops));
  }

  /** `stops.findIndex((s) => s.id === id)`: the first position with that id, or -1. */
  function FindIndex(stops: seq<Stop>, id: string): (r: int)
    ensures -1 <= r < |stops|
    ensures r >= 0 ==> stops[r].id == id && forall j :: 0 <= j < r ==> stops[j].id != id
    ensures r == -1 <==> forall j :: 0 <= j < |stops| ==> stops[j].id != id
  {
    if stops == [] then -1
    else if stops[0].id == id then 0
    else
      var k := FindIndex(stops[1..], id);
      if k == -1 then -1 else k + 1
  }

  /** `stops[i]?.name`: nothing outside the list, so also at -1. */
  function NameAt(stops: seq<Stop>, i: int): Option<string>
  {
    if 0 <= i < |stops| then Some(stops[i].name) else None
  }

  /** `!bus.lastDepartedStopId`: no stop recorded, or the empty string. */
  predicate NotDeparted(last: Option<string>)
  {
    last.None? || last.value == ""
  }

  /** The card's status line. */
  function StatusText(last: Option<string>, stops: seq<Stop>): (r: string)
    ensures NotDeparted(last) <==> r == "Awaiting first departure"
    ensures !NotDeparted(last) ==> |r| > 8 && r[..8] == "Between "
  {
    if NotDeparted(last) then "Awaiting first departure"
    else
      var idx := FindIndex(stops, last.value);
      var from := NameAt(stops, idx).GetOr("Unknown");
      var to := NameAt(stops, idx + 1).GetOr("Route End");
      var r := "Between " + from + " and " + to;
      assert r[..8] == "Between ";
      assert r[0] == 'B' && "Awaiting first departure"[0] == 'A';
      r
  }

  /** A bus that has not left any stop is awaiting its first departure. */
  lemma {:induction false} StatusAwaiting(last: Option<string>, stops: seq<Stop>)
    requires last.None? || last == Some("")
    ensures StatusText(last, stops) == "Awaiting first departure"
  {
  }

  /**
   * A bus that left the stop at position i (the first with that id) is
   * between that stop and the next one, or the route's end after the last.
   */
  lemma {:induction false} StatusBetween(last: Option<string>, stops: seq<Stop>, i: nat)
    requires last.Some? && last.value != ""
    requires i < |stops| && stops[i].id == last.value
    requires forall j :: 0 <= j < i ==> stops[j].id != last.value
    ensures StatusText(last, stops) ==
      "Between " + stops[i].name + " and " + (if i + 1 < |stops| then stops[i + 1].name else "Route End")
  {
    assert FindIndex(stops, last.value) == i;
  }

  /**
   * A departed stop that is not on the list gives position -1: the bus is
   * "between Unknown and" the first stop, or the route's end for no stops.
   */
  lemma {:induction false} StatusUnknownStop(last: Option<string>, stops: seq<Stop>)
    requires last.Some? && last.value != ""
    requires forall s :: s in stops ==> s.id != last.value
    ensures StatusText(last, stops) ==
      "Between Unknown and " + (if |stops| > 0 then stops[0].name else "Route End")
  {
    assert FindIndex(stops, last.value) == -1;
  }

  /** `bus.lastDepartedStopId ?? stops[0]?.id`: `??` keeps an empty string. */
  function DefaultStop(last: Option<string>, stops: seq<Stop>): (r: Option<string>)
    ensures last.Some? ==> r == last
    ensures last.None? && |stops| > 0 ==> r == Some(stops[0].id)
    ensures last.None? && |stops| == 0 ==> r.None?
  {
    if last.Some? then last
    else if |stops| > 0 then Some(stops[0].id)
    else None
  }

  /** `stopId && onBoard(stopId)`: the stop reported to `onBoard`, if it is called at all. */
  function Board(selected: Option<string>): (reported: Option<string>)
    ensures reported.Some? <==> selected.Some? && selected.value != ""
    ensures reported.Some? ==> reported == selected
  {
    if selected.Some? && selected.value != "" then selected else None
  }

  /**
   * Pressing Boarded without choosing a stop reports the last-departed stop
   * or, for a bus that has not departed, the route's first stop; nothing is
   * reported on an empty route that has not departed.
   */
  lemma {:induction false} BoardWithDefault(last: Option<string>, stops: seq<Stop>)
    ensures last.Some? && last.value != "" ==> Board(DefaultStop(last, stops)) == last
    ensures last.None? && |stops| > 0 && stops[0].id != "" ==> Board(DefaultStop(last, stops)) == Some(stops[0].id)
    ensures last.None? && |stops| == 0 ==> Board(DefaultStop(last, stops)).None?
  {
  }
}
