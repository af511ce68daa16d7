/**
 The logic of components/fleet-management.tsx: the search and status
 filter over the drone list, the battery colour bands, and the predicate
 that disables the "Assign Mission" buttons.
 */
module FleetManagement {
  import opened Wrappers

  /** `"available" | "in-mission" | "charging" | "maintenance"`. */
  datatype DroneStatus = Available | InMission | Charging | Maintenance

  /** `"online" | "offline"`. */
  datatype Connection = Online | Offline

  datatype Drone = Drone(
    id: string,
    name: string,
    model: string,
    status: DroneStatus,
    battery: real,
    location: string,
    lastActive: string,
    connection: Connection,
    flightHours: real,
    lastMaintenance: string,
    sensors: seq<string>)

  predicate IsUpper(c: char) {
    'A' <= c <= 'Z'
  }

  function LowerChar(c: char): char {
    if IsUpper(c) then (c as int + 32) as char else c
  }

  /** `toLowerCase`, on the ASCII letters. */
  function Lower(s: string): (r: string)
    ensures |r| == |s|
    ensures forall i :: 0 <= i < |s| ==> r[i] == LowerChar(s[i])
  {
    if |s| == 0 then "" else [LowerChar(s[0])] + Lower(s[1..])
  }

  /** Lower-casing leaves no upper-case letter behind, so doing it twice changes nothing. */
  lemma LowerIdempotent(s: string)
    ensures forall i :: 0 <= i < |s| ==> !IsUpper(Lower(s)[i])
    ensures Lower(Lower(s)) == Lower(s)
  {
  }

  /**
   `haystack.includes(needle)`, searched the way a scan does it: the needle
   is a prefix here, or it occurs in the rest.
   */
  function Includes(haystack: string, needle: string): (r: bool)
    ensures needle <= haystack ==> r
    ensures r ==> |needle| <= |haystack|
    decreases |haystack|
  {
    needle <= haystack || (|haystack| > 0 && Includes(haystack[1..], needle))
  }

  /** `needle` occupies positions `i .. i + |needle|` of `haystack`. */
  predicate OccursAt(haystack: string, needle: string, i: nat) {
    i + |needle| <= |haystack| && haystack[i..i + |needle|] == needle
  }

  /** An occurrence past the first position is an occurrence in the tail, one position earlier. */
  lemma OccursShift(haystack: string, needle: string, i: nat)
    requires |haystack| > 0 && i > 0
    ensures OccursAt(haystack, needle, i) <==> OccursAt(haystack[1..], needle, i - 1)
  {
    if i + |needle| <= |haystack| {
      assert haystack[1..][i - 1..i - 1 + |needle|] == haystack[i..i + |needle|];
    }
  }

  /** The scan agrees with the definition of a substring: some position holds the needle. */
  lemma {:induction false} IncludesIff(haystack: string, needle: string)
    ensures Includes(haystack, needle) <==> exists i: nat :: OccursAt(haystack, needle, i)
    decreases |haystack|
  {
    if needle <= haystack {
      assert OccursAt(haystack, needle, 0);
    } else if |haystack| == 0 {
      forall i: nat
        ensures !OccursAt(haystack, needle, i)
      {
      }
    } else {
      var rest := haystack[1..];
      IncludesIff(rest, needle);
      if Includes(rest, needle) {
        var i: nat :| OccursAt(rest, needle, i);
        OccursShift(haystack, needle, i + 1);
      } else {
        forall i: nat
          ensures !OccursAt(haystack, needle, i)
        {
          if i > 0 {
            OccursShift(haystack, needle, i);
          }
        }
      }
    }
  }

  /** The empty query is included in every string. */
  lemma EmptyIncluded(haystack: string)
    ensures Includes(haystack, "")
  {
  }

  /** The query, lower-cased, occurs in the lower-cased name, model or location. */
  predicate MatchesSearch(d: Drone, query: string) {
    var q := Lower(query);
    Includes(Lower(d.name), q) || Includes(Lower(d.model), q) || Includes(Lower(d.location), q)
  }

  /** No status filter, or the drone has exactly the filtered status. */
  predicate MatchesStatus(d: Drone, statusFilter: Option<DroneStatus>) {
    statusFilter.None? || d.status == statusFilter.value
  }

  predicate Matches(d: Drone, query: string, statusFilter: Option<DroneStatus>) {
    MatchesSearch(d, query) && MatchesStatus(d, statusFilter)
  }

  /**
   `filteredDrones`: a drone is kept if and only if it matches both the
   search and the status filter; nothing is invented and nothing that
   matches is lost.
   */
  function FilterDrones(drones: seq<Drone>, query: string, statusFilter: Option<DroneStatus>): (r: seq<Drone>)
    ensures |r| <= |drones|
    ensures forall d :: d in r <==> d in drones && Matches(d, query, statusFilter)
    ensures forall d :: multiset(r)[d] == if Matches(d, query, statusFilter) then multiset(drones)[d] else 0
  {
    if |drones| == 0 then []
    else
      var first, rest := drones[0], FilterDrones(drones[1..], query, statusFilter);
      var kept := if Matches(first, query, statusFilter) then [first] else [];
      assert drones == [first] + drones[1..];
      assert multiset(kept + rest) == multiset(kept) + multiset(rest);
      kept + rest
  }

  /** One step of the filter: the first drone is kept or dropped, and the rest is filtered. */
  lemma FilterStep(drones: seq<Drone>, query: string, statusFilter: Option<DroneStatus>)
    requires |drones| > 0
    ensures Matches(drones[0], query, statusFilter) ==>
      FilterDrones(drones, query, statusFilter) == [drones[0]] + FilterDrones(drones[1..], query, statusFilter)
    ensures !Matches(drones[0], query, statusFilter) ==>
      FilterDrones(drones, query, statusFilter) == FilterDrones(drones[1..], query, statusFilter)
  {
  }

  /** `a` is `b` with some elements deleted and the rest kept in order. */
  predicate SubsequenceOf<T(==)>(a: seq<T>, b: seq<T>)
    decreases |b|
  {
    if |b| == 0 then |a| == 0
    else (|a| > 0 && a[0] == b[0] && SubsequenceOf(a[1..], b[1..])) || SubsequenceOf(a, b[1..])
  }

  /** The filter keeps the drones in the order of the fleet list. */
  lemma {:induction false} FilterPreservesOrder(drones: seq<Drone>, query: string, statusFilter: Option<DroneStatus>)
    ensures SubsequenceOf(FilterDrones(drones, query, statusFilter), drones)
  {
    if |drones| > 0 {
      FilterPreservesOrder(drones[1..], query, statusFilter);
      FilterStep(drones, query, statusFilter);
    }
  }

  /** An empty query with no status filter keeps every drone, in order. */
  lemma {:induction false} EmptyQueryKeepsAll(drones: seq<Drone>)
    ensures FilterDrones(drones, "", None) == drones
  {
    if |drones| > 0 {
      EmptyQueryKeepsAll(drones[1..]);
      EmptyIncluded(Lower(drones[0].name));
      assert multiset(drones) == multiset{drones[0]} + multiset(drones[1..]) by {
        assert drones == [drones[0]] + drones[1..];
      }
    }
  }

  /** Filtering an already filtered list with the same settings changes nothing. */
  lemma {:induction false} FilterIdempotent(drones: seq<Drone>, query: string, statusFilter: Option<DroneStatus>)
    ensures FilterDrones(FilterDrones(drones, query, statusFilter), query, statusFilter)
         == FilterDrones(drones, query, statusFilter)
  {
    if |drones| > 0 {
      FilterIdempotent(drones[1..], query, statusFilter);
      FilterStep(drones, query, statusFilter);
    }
  }

  /** The indicator classes `bg-green-500`, `bg-yellow-500` and `bg-red-500`. */
  datatype BatteryColor = Green | Yellow | Red

  /**
   `getBatteryColor`: green above 70%, yellow above 30% up to 70%, red at
   30% or below; the three bands cover every reading and do not overlap.
   */
  function BatteryColorOf(battery: real): (c: BatteryColor)
    ensures c == Green <==> battery > 70.0
    ensures c == Yellow <==> 30.0 < battery <= 70.0
    ensures c == Red <==> battery <= 30.0
  {
    if battery > 70.0 then Green
    else if battery > 30.0 then Yellow
    else Red
  }

  /** Red is the worst colour, green the best. */
  function Health(c: BatteryColor): nat {
    match c
    case Red => 0
    case Yellow => 1
    case Green => 2
  }

  /** More charge never shows a worse colour. */
  lemma BatteryColorMonotone(a: real, b: real)
    requires a <= b
    ensures Health(BatteryColorOf(a)) <= Health(BatteryColorOf(b))
  {
  }

  /**
   The `disabled` condition of "Assign Mission" in the grid view, repeated
   verbatim on "Assign" in the table view.
   */
  function AssignDisabled(status: DroneStatus, connection: Connection): (r: bool)
    ensures r <==> !(connection == Online && (status == Available || status == Charging))
  {
    status == InMission || status == Maintenance || connection == Offline
  }
}
