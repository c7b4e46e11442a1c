/** The exit trigger of an intersection: every vehicle-tagged collider that
    leaves it is reported to the intersection's registry, counted, and the
    count overwrites the registry's cleared counter. */
module ExitTrigger {
  import opened IntersectionData

  class OnVehicleExitTrigger {
    var count: int
    var intersectionDataCalculator: IntersectionDataCalculator

    /** The field initialiser and `Awake`, which looks up the registry on the
        same game object. */
    constructor (calculator: IntersectionDataCalculator)
      ensures count == 0 && intersectionDataCalculator == calculator
    {
      count := 0;
      intersectionDataCalculator := calculator;
    }

    /** `OnTriggerExit` for a collider; `hasVehicleTag` is its tag test, and
        `vehicle` and `totalWaitTime` are its vehicle component's identity and
        total wait time. */
    method OnTriggerExit(hasVehicleTag: bool, vehicle: VehicleId, totalWaitTime: real)
      requires intersectionDataCalculator.Valid()
      modifies this, intersectionDataCalculator
      ensures intersectionDataCalculator == old(intersectionDataCalculator)
      ensures intersectionDataCalculator.Valid()
      ensures !hasVehicleTag ==> unchanged(this) && unchanged(intersectionDataCalculator)
      ensures hasVehicleTag ==>
        && count == old(count) + 1
        && intersectionDataCalculator.State() ==
             AfterExit(old(intersectionDataCalculator.State()), vehicle, totalWaitTime)
        && intersectionDataCalculator.vehiclesCleared == count
    {
      if !hasVehicleTag {
        return;
      }
      intersectionDataCalculator.VehicleExited(vehicle, totalWaitTime);
      count := count + 1;
      intersectionDataCalculator.SetVehiclesCleared(count);
    }
  }
}
