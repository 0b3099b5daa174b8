/**
 * The vehicle fleet seed: a vehicle with public mutable fields, a service
 * history array shared with its callers, and an `equals` that compares only
 * licence plates. Java references are modelled by Dafny object references, a
 * `null` plate by `None`.
 */
module VehicleFleet {
  import opened Wrappers

  class Vehicle {
    var licensePlate: Option<string>
    var mileage: int
    var serviceHistory: array<string>

    /** Stores the caller's history array itself: no defensive copy. */
    constructor (licensePlate: Option<string>, mileage: int, serviceHistory: array<string>)
      ensures this.licensePlate == licensePlate
      ensures this.mileage == mileage
      ensures this.serviceHistory == serviceHistory
    {
      this.licensePlate := licensePlate;
      this.mileage := mileage;
      this.serviceHistory := serviceHistory;
    }

    /** Hands out the internal array, so writes through it change the vehicle. */
    method GetServiceHistory() returns (r: array<string>)
      ensures r == serviceHistory
    {
      r := serviceHistory;
    }
  }

  /** The argument of `equals`: any Java object. */
  datatype JavaObject = Null | VehicleRef(v: Vehicle) | NotAVehicle {
    function Footprint(): set<object> {
      if VehicleRef? then {v} else {}
    }
  }

  /**
   * `Vehicle.equals`: a non-vehicle (including `null`) is never equal; a
   * vehicle is equal when its plate equals this one's. A `null` plate on the
   * receiver throws a NullPointerException, modelled as `Err`.
   */
  function Equals(self: Vehicle, obj: JavaObject): (r: Result<bool>)
    reads self, obj.Footprint()
    ensures !obj.VehicleRef? ==> r == Ok(false)
    ensures obj.VehicleRef? ==> (r.Err? <==> self.licensePlate.None?)
    ensures r == Ok(true) <==> obj.VehicleRef? && self.licensePlate.Some? && obj.v.licensePlate == self.licensePlate
  {
    if !obj.VehicleRef? then Ok(false)
    else if self.licensePlate.None? then Err("NullPointerException")
    else Ok(self.licensePlate == obj.v.licensePlate)
  }

  /** Mileage and history play no part: same plate means equal. */
  lemma EqualsIgnoresMileageAndHistory(a: Vehicle, b: Vehicle)
    requires a.licensePlate.Some? && a.licensePlate == b.licensePlate
    ensures Equals(a, VehicleRef(b)) == Ok(true)
  {
  }

  /** On vehicles with plates, `equals` is an equivalence relation. */
  lemma EqualsIsEquivalence(a: Vehicle, b: Vehicle, c: Vehicle)
    requires a.licensePlate.Some? && b.licensePlate.Some? && c.licensePlate.Some?
    ensures Equals(a, VehicleRef(a)) == Ok(true)
    ensures Equals(a, VehicleRef(b)) == Equals(b, VehicleRef(a))
    ensures Equals(a, VehicleRef(b)) == Ok(true) && Equals(b, VehicleRef(c)) == Ok(true)
            ==> Equals(a, VehicleRef(c)) == Ok(true)
  {
  }

  /**
   * The exposure the seed demonstrates: a write through the array returned
   * by `getServiceHistory` is a write to the vehicle's own history.
   */
  method OverwriteHistory(v: Vehicle, entry: string)
    requires v.serviceHistory.Length > 0
    modifies v.serviceHistory
    ensures v.serviceHistory[0] == entry
  {
    var exposed := v.GetServiceHistory();
    exposed[0] := entry;
  }
}
