/** Vehicles and the equality that keys the passage registry
    (`VehicleType`, the `Vehicle` interface and `VehicleEqualityComparer`). */
module Vehicles {
  import opened Common

  datatype VehicleType = Car | Motorbike | Tractor | Emergency | Diplomat | Foreign | Military
  {
    /** The enum member's name, as `ToString()` spells it. */
    function Name(): string {
      match this
      case Car => "Car"
      case Motorbike => "Motorbike"
      case Tractor => "Tractor"
      case Emergency => "Emergency"
      case Diplomat => "Diplomat"
      case Foreign => "Foreign"
      case Military => "Military"
    }
  }

  /** A vehicle as the core sees it: its license number and the type it reports. */
  datatype Vehicle = Vehicle(licenseNumber: string, vehicleType: VehicleType)

  /** `VehicleEqualityComparer.Equals`: a null argument never equals anything, not even
      another null; otherwise license number and type must both match. */
  predicate VehicleEquals(x: Option<Vehicle>, y: Option<Vehicle>) {
    if x.None? || y.None? then false
    else x.value.licenseNumber == y.value.licenseNumber && x.value.vehicleType == y.value.vehicleType
  }

  lemma VehicleEqualsNull(x: Option<Vehicle>, y: Option<Vehicle>)
    requires x.None? || y.None?
    ensures !VehicleEquals(x, y)
  {
  }

  /** On non-null vehicles the comparer is exactly value equality of (license, type),
      which is why the registry can key a map by `Vehicle`. */
  lemma VehicleEqualsIsKeyEquality(a: Vehicle, b: Vehicle)
    ensures VehicleEquals(Some(a), Some(b)) <==> a == b
  {
  }

  lemma VehicleEqualsDistinguishesTypes(license: string, t1: VehicleType, t2: VehicleType)
    requires t1 != t2
    ensures !VehicleEquals(Some(Vehicle(license, t1)), Some(Vehicle(license, t2)))
  {
  }

  /** Reflexive, symmetric and transitive on non-null vehicles. */
  lemma VehicleEqualsIsEquivalence(a: Vehicle, b: Vehicle, c: Vehicle)
    ensures VehicleEquals(Some(a), Some(a))
    ensures VehicleEquals(Some(a), Some(b)) <==> VehicleEquals(Some(b), Some(a))
    ensures VehicleEquals(Some(a), Some(b)) && VehicleEquals(Some(b), Some(c)) ==> VehicleEquals(Some(a), Some(c))
  {
  }
}
