/** Client-side runs of the service against the in-memory device, mirroring
    the scenarios the service is expected to handle: a bulk set that fails
    part-way and is rolled back, and the fail-safe on a device that refuses
    every write. Everything asserted follows from the contracts alone. */
module Scenarios {
  import opened Wrappers
  import opened Exceptions
  import opened Schemas
  import opened Device
  import opened Service
  import Format

  /** Two channels, the second of which always fails: switching all ON is
      refused, the first channel is rolled back, and both the mirror and the
      device end OFF on channel 1. */
  method RollbackOnPartialFailure() {
    var device := new MockRelayDevice.Failing(2, 2);
    device.Open();
    var service := new RelayService(device, 2);
    var r;
    ghost var log;
    r, log := service.SetAllChannels(On);
    assert !Refused(device.faults, true, 0, 1, true);
    assert Refused(device.faults, true, 1, 2, true);
    assert FirstRefused(device.faults, true, 0, 1, 2, true) == 2;
    assert r.Failure? && r.error == DeviceConnection("Simulated failure on channel " + Format.IntToString(2));
    assert service.GetChannel(1) == Success(RelayStatus(1, Off));
    assert service.GetChannel(2) == Success(RelayStatus(2, Off));
    assert log[0] == Write(1, true, true) && log[1] == Write(2, true, false);
    assert !Refused(device.faults, true, 2, 1, false);
    assert log[2] == Write(1, false, true);
    ReplayLastWriteWins(InitialStates(2), log, 1);
    assert LastAccepted(log, 1) == Some(false) by {
      assert log[..2][..1] == [log[0]];
    }
    assert device.states[1] == false;
  }

  /** Channel 1 is switched ON first; a later bulk OFF that fails on channel
      2 leaves channel 1 ON in the mirror. */
  method RollbackRestoresPrevious() {
    var device := new MockRelayDevice.Failing(2, 2);
    device.Open();
    var service := new RelayService(device, 2);
    var single := service.SetChannel(1, On);
    assert !Refused(device.faults, true, 0, 1, true);
    assert single == Success(RelayStatus(1, On));
    var r;
    ghost var log;
    r, log := service.SetAllChannels(Off);
    assert !Refused(device.faults, true, 1, 1, false);
    assert Refused(device.faults, true, 2, 2, false);
    assert FirstRefused(device.faults, true, 1, 1, 2, false) == 2;
    assert r.Failure?;
    assert service.GetChannel(1) == Success(RelayStatus(1, On));
  }

  /** The fail-safe on a closed device: every write raises, yet the mirror
      ends with every channel OFF. */
  method AllOffOnClosedDevice() {
    var device := new MockRelayDevice(2);
    var service := new RelayService(device, 2);
    var r := service.SetChannel(1, On);
    assert r == Failure(DeviceConnection(NotOpenMessage));
    ghost var log := service.AllOff();
    assert service.GetAllChannels() == [RelayStatus(1, Off), RelayStatus(2, Off)];
    assert log[0].accepted == false && log[1].accepted == false;
  }
}
