/** `PassageTollHandler`: a registry of each vehicle's passage timestamps, keyed by
    (license number, vehicle type) through `VehicleEqualityComparer`. */
module PassageRegistry {
  import opened Common
  import opened Calendar
  import opened Vehicles

  const UnsupportedVehicleTypeMessage: string := "Unsupported vehicle type."

  /** The registry's dictionary: each key's timestamps in the order they were added. */
  type Registry = map<Vehicle, seq<Timestamp>>

  /** `CreateVehicle`: a Car or a Motorbike with the given license number, each reporting
      its own type; any other type throws. */
  function CreateVehicle(licenseNumber: string, vehicleType: VehicleType): (result: Result<Vehicle, Error>)
    ensures result.Ok? <==> vehicleType == Car || vehicleType == Motorbike
    ensures result.Ok? ==> result.value.licenseNumber == licenseNumber && result.value.vehicleType == vehicleType
    ensures result.Err? ==> result.error == ArgumentException(UnsupportedVehicleTypeMessage)
  {
    match vehicleType
    case Car => Ok(Vehicle(licenseNumber, Car))
    case Motorbike => Ok(Vehicle(licenseNumber, Motorbike))
    case _ => Err(ArgumentException(UnsupportedVehicleTypeMessage))
  }

  predicate NoDuplicates(timeStamps: seq<Timestamp>) {
    forall i, j | 0 <= i < j < |timeStamps| :: timeStamps[i] != timeStamps[j]
  }

  /** The timestamps stored for `vehicle`, none when it has no entry. */
  function Lookup(registry: Registry, vehicle: Vehicle): seq<Timestamp> {
    if vehicle in registry then registry[vehicle] else []
  }

  /** The number of timestamps stored over all keys. */
  ghost function TotalPassages(registry: Registry): nat
    decreases |registry|
  {
    if registry == map[] then 0
    else
      var vehicle :| vehicle in registry;
      assert |registry - {vehicle}| < |registry| by {
        assert (registry - {vehicle}).Keys == registry.Keys - {vehicle};
      }
      |registry[vehicle]| + TotalPassages(registry - {vehicle})
  }

  lemma {:induction false} TotalPassagesWithout(registry: Registry, vehicle: Vehicle)
    requires vehicle in registry
    ensures TotalPassages(registry) == |registry[vehicle]| + TotalPassages(registry - {vehicle})
    decreases |registry|
  {
    var chosen :| chosen in registry && TotalPassages(registry) == |registry[chosen]| + TotalPassages(registry - {chosen});
    if chosen != vehicle {
      assert (registry - {chosen}).Keys == registry.Keys - {chosen};
      assert (registry - {vehicle}).Keys == registry.Keys - {vehicle};
      TotalPassagesWithout(registry - {chosen}, vehicle);
      TotalPassagesWithout(registry - {vehicle}, chosen);
      assert registry - {chosen} - {vehicle} == registry - {vehicle} - {chosen};
    }
  }

  /** Replacing one key's list changes the total by the difference in that list's length. */
  lemma TotalPassagesUpdate(registry: Registry, vehicle: Vehicle, timeStamps: seq<Timestamp>)
    ensures TotalPassages(registry[vehicle := timeStamps])
         == TotalPassages(registry) - |Lookup(registry, vehicle)| + |timeStamps|
  {
    var updated := registry[vehicle := timeStamps];
    TotalPassagesWithout(updated, vehicle);
    assert updated - {vehicle} == registry - {vehicle};
    if vehicle in registry {
      TotalPassagesWithout(registry, vehicle);
    } else {
      assert registry - {vehicle} == registry;
    }
  }

  class PassageTollHandler {
    var registry: Registry

    /** Every key came through `CreateVehicle` with a non-empty license number, holds
        at least one timestamp, and holds no timestamp twice. */
    ghost predicate Valid()
      reads this
    {
      forall vehicle | vehicle in registry ::
        && vehicle.licenseNumber != ""
        && (vehicle.vehicleType == Car || vehicle.vehicleType == Motorbike)
        && registry[vehicle] != []
        && NoDuplicates(registry[vehicle])
    }

    constructor()
      ensures Valid() && registry == map[]
    {
      registry := map[];
    }

    /** The public `RegisterPassage(string, VehicleType, DateTime)`; `None` is a null
        license number. */
    method RegisterPassage(licenseNumber: Option<string>, vehicleType: VehicleType, timeStamp: Timestamp)
      returns (result: Result<bool, Error>)
      requires Valid()
      modifies this
      ensures Valid()
      ensures licenseNumber.None? || licenseNumber.value == "" ==>
        result == Ok(false) && registry == old(registry)
      ensures licenseNumber.Some? && licenseNumber.value != "" && vehicleType != Car && vehicleType != Motorbike ==>
        result == Err(ArgumentException(UnsupportedVehicleTypeMessage)) && registry == old(registry)
      ensures licenseNumber.Some? && licenseNumber.value != "" && (vehicleType == Car || vehicleType == Motorbike) ==>
        var vehicle := Vehicle(licenseNumber.value, vehicleType);
        && result.Ok?
        && (result.value <==> timeStamp !in Lookup(old(registry), vehicle))
        && registry == if result.value then old(registry)[vehicle := Lookup(old(registry), vehicle) + [timeStamp]]
                       else old(registry)
      ensures TotalPassages(registry) == TotalPassages(old(registry)) + if result == Ok(true) then 1 else 0
    {
      if licenseNumber.None? || licenseNumber.value == "" {
        return Ok(false);
      }
      var vehicle := CreateVehicle(licenseNumber.value, vehicleType);
      if vehicle.Err? {
        return Err(vehicle.error);
      }
      var added := RegisterVehiclePassage(vehicle.value, timeStamp);
      return Ok(added);
    }

    /** The private `RegisterPassage(Vehicle, DateTime)`: creates the key's list when
        missing, then appends the timestamp unless the list already holds it. */
    method RegisterVehiclePassage(vehicle: Vehicle, timeStamp: Timestamp) returns (added: bool)
      requires Valid()
      requires vehicle.licenseNumber != "" && (vehicle.vehicleType == Car || vehicle.vehicleType == Motorbike)
      modifies this
      ensures Valid()
      ensures added <==> timeStamp !in Lookup(old(registry), vehicle)
      ensures registry == if added then old(registry)[vehicle := Lookup(old(registry), vehicle) + [timeStamp]]
                          else old(registry)
      ensures TotalPassages(registry) == TotalPassages(old(registry)) + if added then 1 else 0
    {
      ghost var before := registry;
      if vehicle !in registry {
        registry := registry[vehicle := []];
      }
      if timeStamp in registry[vehicle] {
        return false;
      }
      var timeStamps := registry[vehicle] + [timeStamp];
      assert NoDuplicates(timeStamps);
      registry := registry[vehicle := timeStamps];
      assert registry == before[vehicle := timeStamps];
      TotalPassagesUpdate(before, vehicle, timeStamps);
      return true;
    }
  }
}
