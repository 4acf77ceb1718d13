/** Registration scenarios of the repository's unit tests on a fresh handler, as methods
    whose postconditions follow from the registry's contracts. */
module RegistryScenarios {
  import opened Common
  import opened Calendar
  import opened Vehicles
  import opened PassageRegistry

  method EmptyLicenseIsRejected(vehicleType: VehicleType, timeStamp: Timestamp)
    returns (result: Result<bool, Error>, stored: Registry)
    ensures result == Ok(false) && stored == map[]
  {
    var handler := new PassageTollHandler();
    result := handler.RegisterPassage(Some(""), vehicleType, timeStamp);
    stored := handler.registry;
  }

  method UnsupportedTypeThrows(licenseNumber: string, vehicleType: VehicleType, timeStamp: Timestamp)
    returns (result: Result<bool, Error>, stored: Registry)
    requires licenseNumber != "" && vehicleType != Car && vehicleType != Motorbike
    ensures result == Err(ArgumentException(UnsupportedVehicleTypeMessage)) && stored == map[]
  {
    var handler := new PassageTollHandler();
    result := handler.RegisterPassage(Some(licenseNumber), vehicleType, timeStamp);
    stored := handler.registry;
  }

  /** The second registration of the same (license, type, timestamp) is refused. */
  method DuplicateIsRejected(licenseNumber: string, timeStamp: Timestamp)
    returns (first: Result<bool, Error>, second: Result<bool, Error>, stored: Registry)
    requires licenseNumber != ""
    ensures first == Ok(true) && second == Ok(false)
    ensures stored == map[Vehicle(licenseNumber, Car) := [timeStamp]]
  {
    var handler := new PassageTollHandler();
    first := handler.RegisterPassage(Some(licenseNumber), Car, timeStamp);
    assert [] + [timeStamp] == [timeStamp];
    assert handler.registry == map[Vehicle(licenseNumber, Car) := [timeStamp]];
    second := handler.RegisterPassage(Some(licenseNumber), Car, timeStamp);
    stored := handler.registry;
  }

  method DifferentTimestampsAreKept(licenseNumber: string, t1: Timestamp, t2: Timestamp)
    returns (first: Result<bool, Error>, second: Result<bool, Error>, stored: Registry)
    requires licenseNumber != "" && t1 != t2
    ensures first == Ok(true) && second == Ok(true)
    ensures stored == map[Vehicle(licenseNumber, Car) := [t1, t2]]
  {
    var car := Vehicle(licenseNumber, Car);
    var handler := new PassageTollHandler();
    first := handler.RegisterPassage(Some(licenseNumber), Car, t1);
    assert [] + [t1] == [t1];
    assert handler.registry == map[car := [t1]];
    assert Lookup(handler.registry, car) == [t1];
    second := handler.RegisterPassage(Some(licenseNumber), Car, t2);
    assert [t1] + [t2] == [t1, t2];
    stored := handler.registry;
  }

  /** The same instant for two license numbers lands in two lists. */
  method SameTimestampOtherLicense(license1: string, license2: string, timeStamp: Timestamp)
    returns (first: Result<bool, Error>, second: Result<bool, Error>, stored: Registry)
    requires license1 != "" && license2 != "" && license1 != license2
    ensures first == Ok(true) && second == Ok(true)
    ensures stored == map[Vehicle(license1, Car) := [timeStamp], Vehicle(license2, Car) := [timeStamp]]
  {
    var handler := new PassageTollHandler();
    first := handler.RegisterPassage(Some(license1), Car, timeStamp);
    assert [] + [timeStamp] == [timeStamp];
    assert handler.registry == map[Vehicle(license1, Car) := [timeStamp]];
    second := handler.RegisterPassage(Some(license2), Car, timeStamp);
    stored := handler.registry;
  }

  /** The key includes the type: the same plate and instant as a Car and as a Motorbike
      are two separate registrations, and both succeed. */
  method SameTimestampOtherType(licenseNumber: string, timeStamp: Timestamp)
    returns (first: Result<bool, Error>, second: Result<bool, Error>, stored: Registry)
    requires licenseNumber != ""
    ensures first == Ok(true) && second == Ok(true)
    ensures stored == map[Vehicle(licenseNumber, Car) := [timeStamp], Vehicle(licenseNumber, Motorbike) := [timeStamp]]
  {
    var handler := new PassageTollHandler();
    first := handler.RegisterPassage(Some(licenseNumber), Car, timeStamp);
    assert [] + [timeStamp] == [timeStamp];
    assert handler.registry == map[Vehicle(licenseNumber, Car) := [timeStamp]];
    second := handler.RegisterPassage(Some(licenseNumber), Motorbike, timeStamp);
    stored := handler.registry;
  }
}
