/** The per-intersection vehicle registry: one map per leg from a waiting
    vehicle to its total wait time when it entered, plus the counters of
    vehicles that entered, that are waiting and that were cleared. */
module IntersectionData {
  import opened Wrappers

  /** Identity of a vehicle's data component (an object reference in the engine). */
  type VehicleId = int

  /** One leg: waiting vehicle -> its total wait time at entry. */
  type LegMap = map<VehicleId, real>

  /** `Awake` adds one map per iteration of `for (i = 0; i < numberOfLegs; i++)`. */
  function LegCount(numberOfLegs: int): nat
  {
    if numberOfLegs < 0 then 0 else numberOfLegs
  }

  /** The number of entries over all leg maps. */
  function EntryCount(legs: seq<LegMap>): nat
  {
    if legs == [] then 0 else |legs[0]| + EntryCount(legs[1..])
  }

  lemma {:induction false} EntryCountAfterAdd(legs: seq<LegMap>, i: int, v: VehicleId, w: real)
    requires 0 <= i < |legs| && v !in legs[i]
    ensures EntryCount(legs[i := legs[i][v := w]]) == EntryCount(legs) + 1
  {
    var updated := legs[i := legs[i][v := w]];
    if i == 0 {
      assert updated[1..] == legs[1..];
    } else {
      EntryCountAfterAdd(legs[1..], i - 1, v, w);
      assert updated[1..] == legs[1..][i - 1 := legs[i][v := w]];
    }
  }

  lemma {:induction false} EntryCountAfterRemove(legs: seq<LegMap>, i: int, v: VehicleId)
    requires 0 <= i < |legs| && v in legs[i]
    ensures EntryCount(legs[i := legs[i] - {v}]) == EntryCount(legs) - 1
  {
    var updated := legs[i := legs[i] - {v}];
    if i == 0 {
      assert updated[1..] == legs[1..];
      assert legs[0].Keys == (legs[0] - {v}).Keys + {v};
    } else {
      EntryCountAfterRemove(legs[1..], i - 1, v);
      assert updated[1..] == legs[1..][i - 1 := legs[i] - {v}];
    }
  }

  /** The lowest-index leg whose map holds the vehicle. */
  function FirstLegHolding(legs: seq<LegMap>, v: VehicleId): (r: Option<nat>)
    ensures r.None? <==> forall j :: 0 <= j < |legs| ==> v !in legs[j]
    ensures r.Some? ==> r.value < |legs| && v in legs[r.value]
    ensures r.Some? ==> forall j :: 0 <= j < r.value ==> v !in legs[j]
  {
    if legs == [] then None
    else if v in legs[0] then Some(0)
    else
      var rest := FirstLegHolding(legs[1..], v);
      if rest.Some? then Some(rest.value + 1) else None
  }

  /** `Mathf.RoundToInt`: to the nearest integer, halves to the even one. */
  function RoundToInt(x: real): (r: int)
    ensures -0.5 <= x - r as real <= 0.5
    ensures x - r as real == 0.5 || x - r as real == -0.5 ==> r % 2 == 0
  {
    var f := x.Floor;
    var d := x - f as real;
    if d < 0.5 then f
    else if d > 0.5 then f + 1
    else if f % 2 == 0 then f
    else f + 1
  }

  /** The registry's state apart from `vehiclesCleared`, which the exit trigger
      overwrites. */
  datatype Registry = Registry(
    legs: seq<LegMap>,
    totalVehicles: int,
    waiting: int,
    waitTimeAtIntersection: int)

  /** What `VehicleExited` does: remove the vehicle from the first leg holding
      it, record its rounded wait at the intersection and decrement the
      waiting count; a vehicle in no leg changes nothing. */
  function AfterExit(s: Registry, v: VehicleId, totalWaitTime: real): (r: Registry)
    ensures FirstLegHolding(s.legs, v).None? ==> r == s
    ensures |r.legs| == |s.legs| && r.totalVehicles == s.totalVehicles
    ensures FirstLegHolding(s.legs, v).Some? ==> r.waiting == s.waiting - 1
  {
    var k := FirstLegHolding(s.legs, v);
    if k.None? then s
    else
      var leg := s.legs[k.value];
      s.(legs := s.legs[k.value := leg - {v}],
         waiting := s.waiting - 1,
         waitTimeAtIntersection := RoundToInt(totalWaitTime - leg[v]))
  }

  /** Exits keep the waiting count equal to the number of map entries. */
  lemma {:induction false} AfterExitKeepsWaitingCount(s: Registry, v: VehicleId, w: real)
    requires s.waiting == EntryCount(s.legs)
    ensures AfterExit(s, v, w).waiting == EntryCount(AfterExit(s, v, w).legs)
    ensures |AfterExit(s, v, w).legs| == |s.legs|
    ensures AfterExit(s, v, w).totalVehicles == s.totalVehicles
  {
    var k := FirstLegHolding(s.legs, v);
    if k.Some? {
      EntryCountAfterRemove(s.legs, k.value, v);
    }
  }

  /** An exit removes the vehicle from exactly one leg, the first holding it,
      and leaves every other leg as it was. */
  lemma {:induction false} AfterExitTouchesOneLeg(s: Registry, v: VehicleId, w: real)
    requires FirstLegHolding(s.legs, v).Some?
    ensures var k := FirstLegHolding(s.legs, v).value;
      && v !in AfterExit(s, v, w).legs[k]
      && AfterExit(s, v, w).legs[k].Keys == s.legs[k].Keys - {v}
      && forall j :: 0 <= j < |s.legs| && j != k ==> AfterExit(s, v, w).legs[j] == s.legs[j]
  {
  }

  /** The outcome of `VehicleEntered`: the two failures are the exceptions of
      the list indexer and of `Dictionary.Add` on a key already present. */
  datatype EnterOutcome = Entered | LegIndexOutOfRange | AlreadyWaitingAtLeg

  class IntersectionDataCalculator {
    var numberOfLegs: int
    var TotalNumberOfVehicles: int
    var TotalNumberOfVehiclesWaitingInIntersection: int
    var vehiclesCleared: int
    var waitTimeAtIntersection: int
    var vehiclesWaitingAtLeg: seq<LegMap>
    /** The number of vehicles removed from a leg map so far. */
    ghost var removals: nat

    function State(): Registry
      reads this
    {
      Registry(vehiclesWaitingAtLeg, TotalNumberOfVehicles,
        TotalNumberOfVehiclesWaitingInIntersection, waitTimeAtIntersection)
    }

    /** The waiting count is the number of map entries, and every vehicle
        that entered is either still waiting or was removed. */
    ghost predicate Valid()
      reads this
      ensures Valid() ==> 0 <= TotalNumberOfVehiclesWaitingInIntersection <= TotalNumberOfVehicles
    {
      && |vehiclesWaitingAtLeg| == LegCount(numberOfLegs)
      && TotalNumberOfVehiclesWaitingInIntersection == EntryCount(vehiclesWaitingAtLeg)
      && TotalNumberOfVehicles == TotalNumberOfVehiclesWaitingInIntersection + removals
    }

    /** The field initialisers and `Awake`: one empty map per leg. */
    constructor (numberOfLegs: int)
      ensures Valid()
      ensures this.numberOfLegs == numberOfLegs
      ensures |vehiclesWaitingAtLeg| == LegCount(numberOfLegs)
      ensures forall i :: 0 <= i < |vehiclesWaitingAtLeg| ==> vehiclesWaitingAtLeg[i] == map[]
      ensures TotalNumberOfVehicles == 0 && TotalNumberOfVehiclesWaitingInIntersection == 0
      ensures vehiclesCleared == 0 && waitTimeAtIntersection == 0 && removals == 0
    {
      var legs: seq<LegMap> := [];
      var i := 0;
      while i < numberOfLegs
        invariant 0 <= i == |legs| <= LegCount(numberOfLegs)
        invariant forall j :: 0 <= j < |legs| ==> legs[j] == map[]
        invariant EntryCount(legs) == 0
      {
        EmptyLegsHaveNoEntries(legs + [map[]]);
        legs := legs + [map[]];
        i := i + 1;
      }
      this.numberOfLegs := numberOfLegs;
      TotalNumberOfVehicles := 0;
      TotalNumberOfVehiclesWaitingInIntersection := 0;
      vehiclesCleared := 0;
      waitTimeAtIntersection := 0;
      vehiclesWaitingAtLeg := legs;
      removals := 0;
    }

    static lemma {:induction false} EmptyLegsHaveNoEntries(legs: seq<LegMap>)
      requires forall j :: 0 <= j < |legs| ==> legs[j] == map[]
      ensures EntryCount(legs) == 0
    {
      if legs != [] {
        EmptyLegsHaveNoEntries(legs[1..]);
      }
    }

    /** Records a vehicle entering at a leg with its current total wait time.
        A bad leg index or a vehicle already in that leg's map throws before
        anything changes. */
    method VehicleEntered(vehicle: VehicleId, totalWaitTime: real, legIndex: int)
      returns (outcome: EnterOutcome)
      requires Valid()
      modifies this
      ensures Valid()
      ensures outcome ==
        if legIndex < 0 || legIndex >= |old(vehiclesWaitingAtLeg)| then LegIndexOutOfRange
        else if vehicle in old(vehiclesWaitingAtLeg)[legIndex] then AlreadyWaitingAtLeg
        else Entered
      ensures outcome != Entered ==> unchanged(this)
      ensures outcome == Entered ==>
        && vehiclesWaitingAtLeg == old(vehiclesWaitingAtLeg)[legIndex := old(vehiclesWaitingAtLeg)[legIndex][vehicle := totalWaitTime]]
        && TotalNumberOfVehicles == old(TotalNumberOfVehicles) + 1
        && TotalNumberOfVehiclesWaitingInIntersection == old(TotalNumberOfVehiclesWaitingInIntersection) + 1
        && vehiclesCleared == old(vehiclesCleared)
        && waitTimeAtIntersection == old(waitTimeAtIntersection)
        && numberOfLegs == old(numberOfLegs)
        && removals == old(removals)
    {
      if legIndex < 0 || legIndex >= |vehiclesWaitingAtLeg| {
        return LegIndexOutOfRange;
      }
      if vehicle in vehiclesWaitingAtLeg[legIndex] {
        return AlreadyWaitingAtLeg;
      }
      EntryCountAfterAdd(vehiclesWaitingAtLeg, legIndex, vehicle, totalWaitTime);
      vehiclesWaitingAtLeg := vehiclesWaitingAtLeg[legIndex := vehiclesWaitingAtLeg[legIndex][vehicle := totalWaitTime]];
      TotalNumberOfVehicles := TotalNumberOfVehicles + 1;
      TotalNumberOfVehiclesWaitingInIntersection := TotalNumberOfVehiclesWaitingInIntersection + 1;
      outcome := Entered;
    }

    /** Searches the legs in order and removes the vehicle from the first map
        holding it, counting it as cleared. */
    method VehicleExited(vehicle: VehicleId, totalWaitTime: real)
      requires Valid()
      modifies this
      ensures Valid()
      ensures State() == AfterExit(old(State()), vehicle, totalWaitTime)
      ensures vehiclesCleared ==
        old(vehiclesCleared) + if FirstLegHolding(old(vehiclesWaitingAtLeg), vehicle).Some? then 1 else 0
      ensures FirstLegHolding(old(vehiclesWaitingAtLeg), vehicle).None? ==> unchanged(this)
      ensures numberOfLegs == old(numberOfLegs)
    {
      var i := 0;
      while i < numberOfLegs
        invariant 0 <= i <= LegCount(numberOfLegs)
        invariant forall j :: 0 <= j < i ==> vehicle !in vehiclesWaitingAtLeg[j]
        invariant unchanged(this)
      {
        if vehicle in vehiclesWaitingAtLeg[i] {
          assert FirstLegHolding(vehiclesWaitingAtLeg, vehicle) == Some(i);
          AfterExitKeepsWaitingCount(State(), vehicle, totalWaitTime);
          var t := vehiclesWaitingAtLeg[i][vehicle];
          vehiclesWaitingAtLeg := vehiclesWaitingAtLeg[i := vehiclesWaitingAtLeg[i] - {vehicle}];
          waitTimeAtIntersection := RoundToInt(totalWaitTime - t);
          TotalNumberOfVehiclesWaitingInIntersection := TotalNumberOfVehiclesWaitingInIntersection - 1;
          vehiclesCleared := vehiclesCleared + 1;
          removals := removals + 1;
          break;
        }
        i := i + 1;
      }
    }

    method GetVehiclesCleared() returns (r: int)
      ensures r == vehiclesCleared
    {
      r := vehiclesCleared;
    }

    method SetVehiclesCleared(value: int)
      requires Valid()
      modifies this`vehiclesCleared
      ensures Valid()
      ensures vehiclesCleared == value
    {
      vehiclesCleared := value;
    }
  }
}
