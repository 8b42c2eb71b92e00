/**
 * The four record kinds the campus bus tracker stores (src/state/mockStore.ts),
 * and the id-to-record tables its views and its CSV export build from them.
 */
module Records {
  import opened Wrappers
  import Sequences

  /** A boarding location; `sequence` fixes its place on the route. */
  datatype Stop = Stop(id: string, name: string, sequence: int)

  /** A bus, its fixed path of stop ids and its last known position. */
  datatype BusRoute = BusRoute(
    id: string,
    name: string,
    stopIds: seq<string>,
    lastDepartedStopId: Option<string>,
    lastDepartureTime: Option<string>)  // an ISO-8601 timestamp, kept as text

  /** A student-reported boarding event. */
  datatype CheckIn = CheckIn(id: string, studentId: string, busId: string, stopId: string, timestamp: string)

  /** The device's current session identity (self-asserted, never checked). */
  datatype User = User(id: string, name: Option<string>, isAdmin: Option<bool>)

  function StopId(s: Stop): string { s.id }

  function BusId(b: BusRoute): string { b.id }

  /** `stops.map((s) => s.id)`. */
  function Ids(stops: seq<Stop>): (r: seq<string>)
    ensures |r| == |stops|
    ensures forall i :: 0 <= i < |stops| ==> r[i] == stops[i].id
  {
    seq(|stops|, i requires 0 <= i < |stops| => stops[i].id)
  }

  /** `new Map(stops.map((s) => [s.id, s]))`: a later stop with a repeated id wins. */
  function StopIndex(stops: seq<Stop>): map<string, Stop>
  {
    Sequences.IndexBy(stops, StopId)
  }

  /** `new Map(buses.map((b) => [b.id, b]))`: a later bus with a repeated id wins. */
  function BusIndex(buses: seq<BusRoute>): map<string, BusRoute>
  {
    Sequences.IndexBy(buses, BusId)
  }
}
