/** `VehiclePassage`: a vehicle at an instant, and its equality rules. */
module Passages {
  import opened Common
  import opened Calendar
  import opened Vehicles

  datatype VehiclePassage = VehiclePassage(vehicle: Vehicle, timeStamp: Timestamp)

  /** An argument of type `object?`: null, an object whose runtime type is exactly
      `VehiclePassage`, or any other object (a subclass instance included). */
  datatype AnyObject = NullObject | PassageObject(passage: VehiclePassage) | OtherObject

  /** `Equals(VehiclePassage? x, VehiclePassage? y)`: false when either is null; otherwise
      license number and timestamp decide, the vehicle type is not compared. */
  predicate PassageEquals(x: Option<VehiclePassage>, y: Option<VehiclePassage>) {
    if x.None? || y.None? then false
    else x.value.vehicle.licenseNumber == y.value.vehicle.licenseNumber
         && x.value.timeStamp == y.value.timeStamp
  }

  /** The `Equals(object? obj)` override, called on `self`, whose runtime type is taken to be
      exactly `VehiclePassage`: no subclass exists. For an instance of a subclass the
      override would compare against objects of that subclass instead, which this model does
      not capture. */
  predicate ObjectEquals(self: VehiclePassage, obj: AnyObject) {
    if obj.NullObject? || obj.OtherObject? then false
    else PassageEquals(Some(self), Some(obj.passage))
  }

  /** `operator ==`. */
  predicate OpEquality(left: Option<VehiclePassage>, right: Option<VehiclePassage>) {
    if left.None? && right.None? then true
    else if left.None? || right.None? then false
    else PassageEquals(left, right)
  }

  /** `operator !=`. */
  predicate OpInequality(left: Option<VehiclePassage>, right: Option<VehiclePassage>) {
    !OpEquality(left, right)
  }

  lemma PassageEqualsNull(x: Option<VehiclePassage>, y: Option<VehiclePassage>)
    requires x.None? || y.None?
    ensures !PassageEquals(x, y)
  {
  }

  lemma PassageEqualsIff(a: VehiclePassage, b: VehiclePassage)
    ensures PassageEquals(Some(a), Some(b)) <==>
      a.vehicle.licenseNumber == b.vehicle.licenseNumber && a.timeStamp == b.timeStamp
  {
  }

  /** The vehicle type plays no part: a car and a motorbike with the same plate at the
      same instant are the same passage. */
  lemma PassageEqualsIgnoresType(license: string, t1: VehicleType, t2: VehicleType, at: Timestamp)
    ensures PassageEquals(Some(VehiclePassage(Vehicle(license, t1), at)),
                          Some(VehiclePassage(Vehicle(license, t2), at)))
  {
  }

  lemma ObjectEqualsAgrees(self: VehiclePassage, obj: AnyObject)
    ensures obj.NullObject? || obj.OtherObject? ==> !ObjectEquals(self, obj)
    ensures obj.PassageObject? ==> (ObjectEquals(self, obj) <==> PassageEquals(Some(self), Some(obj.passage)))
  {
  }

  lemma OpEqualityCases(left: Option<VehiclePassage>, right: Option<VehiclePassage>)
    ensures left.None? && right.None? ==> OpEquality(left, right)
    ensures left.None? != right.None? ==> !OpEquality(left, right)
    ensures left.Some? && right.Some? ==> (OpEquality(left, right) <==> PassageEquals(left, right))
    ensures OpInequality(left, right) <==> !OpEquality(left, right)
  {
  }

  /** Both equalities are symmetric; `==` is also reflexive and transitive, while the
      two-argument `Equals` is not reflexive on null. */
  lemma PassageEqualitySymmetric(x: Option<VehiclePassage>, y: Option<VehiclePassage>, z: Option<VehiclePassage>)
    ensures PassageEquals(x, y) <==> PassageEquals(y, x)
    ensures OpEquality(x, y) <==> OpEquality(y, x)
    ensures OpEquality(x, x) && !PassageEquals(None, None)
    ensures OpEquality(x, y) && OpEquality(y, z) ==> OpEquality(x, z)
  {
  }
}
