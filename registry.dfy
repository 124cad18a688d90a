/** Registration on the spislave bus: drivers and slaves, and the
    device-managed variant that ties a slave's registration to an owning device. */
module Registry {
  import opened Errno
  import opened DriverModel

  /** A call into the driver core's registry. */
  datatype BusCall =
    | CallDriverRegister(drv: SpiSlaveDriver)
    | CallDriverUnregister(drv: SpiSlaveDriver)
    | CallDeviceRegister(slave: SpiSlave)
    | CallDeviceUnregister(slave: SpiSlave)

  /** The match callback installed in a bus type. */
  datatype MatchFn = SpislaveDeviceMatch

  /** The release function recorded in a device-managed resource. */
  datatype ReleaseFn = DevmSpislaveUnregister

  /** The driver core's registry for the spislave bus: what is registered, and
      every call made into it, oldest first. */
  class Bus {
    /** `spislave_bus_type.name`. */
    const name: string
    /** `spislave_bus_type.match`, the callback modelled by `Match.DeviceMatch`. */
    const busMatch: MatchFn
    var drivers: set<SpiSlaveDriver>
    var devices: set<SpiSlave>
    var calls: seq<BusCall>

    constructor ()
      ensures name == "spislave" && busMatch == SpislaveDeviceMatch
      ensures drivers == {} && devices == {} && calls == []
    {
      name := "spislave";
      busMatch := SpislaveDeviceMatch;
      drivers := {};
      devices := {};
      calls := [];
    }

    /** `driver_register`; the driver core decides the result, given as `result`.
        The driver is on the bus exactly when the result is 0. */
    method DriverRegister(drv: SpiSlaveDriver, result: int) returns (ret: int)
      modifies this`drivers, this`calls
      ensures ret == result
      ensures calls == old(calls) + [CallDriverRegister(drv)]
      ensures drivers == if result == 0 then old(drivers) + {drv} else old(drivers)
    {
      calls := calls + [CallDriverRegister(drv)];
      if result == 0 {
        drivers := drivers + {drv};
      }
      ret := result;
    }

    /** `driver_unregister`. */
    method DriverUnregister(drv: SpiSlaveDriver)
      modifies this`drivers, this`calls
      ensures calls == old(calls) + [CallDriverUnregister(drv)]
      ensures drivers == old(drivers) - {drv}
    {
      calls := calls + [CallDriverUnregister(drv)];
      drivers := drivers - {drv};
    }

    /** `device_register`; the driver core decides the result, given as `result`.
        The device is on the bus exactly when the result is 0. */
    method DeviceRegister(slave: SpiSlave, result: int) returns (ret: int)
      modifies this`devices, this`calls
      ensures ret == result
      ensures calls == old(calls) + [CallDeviceRegister(slave)]
      ensures devices == if result == 0 then old(devices) + {slave} else old(devices)
    {
      calls := calls + [CallDeviceRegister(slave)];
      if result == 0 {
        devices := devices + {slave};
      }
      ret := result;
    }

    /** `device_unregister`. */
    method DeviceUnregister(slave: SpiSlave)
      modifies this`devices, this`calls
      ensures calls == old(calls) + [CallDeviceUnregister(slave)]
      ensures devices == old(devices) - {slave}
    {
      calls := calls + [CallDeviceUnregister(slave)];
      devices := devices - {slave};
    }
  }

  /** A device-managed resource, as `devres_alloc` hands it out: its release
      function and the slave pointer it stores. */
  class Devres {
    const release: ReleaseFn
    var data: SpiSlave?

    constructor (release: ReleaseFn)
      ensures this.release == release && data == null
    {
      this.release := release;
      data := null;
    }
  }

  /** The device that owns device-managed resources, with its devres list. */
  class OwnerDevice {
    var devres: seq<Devres>

    constructor ()
      ensures devres == []
    {
      devres := [];
    }
  }

  /** Every resource on the owner's list stores a slave that is on the bus. */
  ghost predicate ResourcesRegistered(bus: Bus, owner: OwnerDevice)
    reads bus, owner, owner.devres
  {
    forall res | res in owner.devres :: res.data != null && res.data in bus.devices
  }

  /** `spislave_register_driver`: put the driver on the spislave bus, owned by
      this module, with the wrapped probe and remove, then register it. */
  method RegisterDriver(bus: Bus, sdrv: SpiSlaveDriver, registerResult: int) returns (ret: int)
    modifies bus, sdrv
    ensures sdrv.owner == ThisModule && sdrv.bus == SpislaveBus
    ensures sdrv.driverProbe == SpislaveDrvProbe && sdrv.driverRemove == SpislaveDrvRemove
    ensures ret == registerResult
    ensures bus.calls == old(bus.calls) + [CallDriverRegister(sdrv)]
    ensures bus.drivers == if ret == 0 then old(bus.drivers) + {sdrv} else old(bus.drivers)
    ensures bus.devices == old(bus.devices)
  {
    sdrv.owner := ThisModule;
    sdrv.bus := SpislaveBus;
    sdrv.driverProbe := SpislaveDrvProbe;
    sdrv.driverRemove := SpislaveDrvRemove;
    ret := bus.DriverRegister(sdrv, registerResult);
  }

  /** `spislave_unregister_driver`. */
  method UnregisterDriver(bus: Bus, sdrv: SpiSlaveDriver)
    modifies bus
    ensures bus.calls == old(bus.calls) + [CallDriverUnregister(sdrv)]
    ensures bus.drivers == old(bus.drivers) - {sdrv}
    ensures bus.devices == old(bus.devices)
  {
    bus.DriverUnregister(sdrv);
  }

  /** `spislave_register_slave`: put the slave's device on the spislave bus,
      name it after `slave.name`, and register it. */
  method RegisterSlave(bus: Bus, slave: SpiSlave, registerResult: int) returns (ret: int)
    modifies bus, slave`devBus, slave`devName
    ensures slave.devBus == SpislaveBus && slave.devName == slave.name
    ensures ret == registerResult
    ensures bus.calls == old(bus.calls) + [CallDeviceRegister(slave)]
    ensures bus.devices == if ret == 0 then old(bus.devices) + {slave} else old(bus.devices)
    ensures bus.drivers == old(bus.drivers)
  {
    slave.devBus := SpislaveBus;
    slave.devName := slave.name;
    ret := bus.DeviceRegister(slave, registerResult);
  }

  /** `spislave_unregister_slave`. */
  method UnregisterSlave(bus: Bus, slave: SpiSlave)
    modifies bus
    ensures bus.calls == old(bus.calls) + [CallDeviceUnregister(slave)]
    ensures bus.devices == old(bus.devices) - {slave}
    ensures bus.drivers == old(bus.drivers)
  {
    bus.DeviceUnregister(slave);
  }

  /** `spislave_unregister_device`, the exported twin of `UnregisterSlave`. */
  method UnregisterDevice(bus: Bus, slave: SpiSlave)
    modifies bus
    ensures bus.calls == old(bus.calls) + [CallDeviceUnregister(slave)]
    ensures bus.devices == old(bus.devices) - {slave}
    ensures bus.drivers == old(bus.drivers)
  {
    bus.DeviceUnregister(slave);
  }

  /** `devm_spislave_unregister`, the release function of the resource: it
      unregisters the slave the resource stores. The owner is not consulted. */
  method DevmUnregister(bus: Bus, owner: OwnerDevice, res: Devres)
    requires res.data != null
    modifies bus
    ensures bus.calls == old(bus.calls) + [CallDeviceUnregister(res.data)]
    ensures bus.devices == old(bus.devices) - {res.data}
    ensures bus.drivers == old(bus.drivers)
  {
    UnregisterSlave(bus, res.data);
  }

  /** `devres_alloc(devm_spislave_unregister, ...)`; whether memory is available
      is given as `allocOk`. */
  method DevresAlloc(allocOk: bool) returns (ptr: Devres?)
    ensures allocOk <==> ptr != null
    ensures ptr != null ==> fresh(ptr) && ptr.release == DevmSpislaveUnregister && ptr.data == null
  {
    if allocOk {
      ptr := new Devres(DevmSpislaveUnregister);
    } else {
      ptr := null;
    }
  }

  /** `devres_add`: append the resource to the owner's list. */
  method DevresAdd(owner: OwnerDevice, res: Devres)
    modifies owner
    ensures owner.devres == old(owner.devres) + [res]
  {
    owner.devres := owner.devres + [res];
  }

  /** `devm_spislave_register_device`: allocate the resource, register the
      slave, and on success store the slave in the resource and hand it to the
      owner; on failure the resource is freed, that is, never reaches the owner.
      `name` is accepted and not used. */
  method DevmRegisterDevice(bus: Bus, owner: OwnerDevice, name: string, slave: SpiSlave,
                            allocOk: bool, registerResult: int) returns (ret: int)
    modifies bus, owner, slave`devBus, slave`devName
    // No memory: -ENOMEM, and registration is never attempted.
    ensures !allocOk ==> ret == -ENOMEM && unchanged(bus, owner, slave)
    // Otherwise the registration is attempted once and its result returned.
    ensures allocOk ==> ret == registerResult
    ensures allocOk ==> bus.calls == old(bus.calls) + [CallDeviceRegister(slave)]
    ensures allocOk ==> slave.devBus == SpislaveBus && slave.devName == slave.name
    ensures bus.drivers == old(bus.drivers)
    // A failed registration leaves neither a resource nor a registry entry.
    ensures allocOk && ret != 0 ==> owner.devres == old(owner.devres) && bus.devices == old(bus.devices)
    // A successful one adds exactly one fresh resource, storing this slave.
    ensures allocOk && ret == 0 ==>
              bus.devices == old(bus.devices) + {slave} &&
              |owner.devres| == |old(owner.devres)| + 1 &&
              owner.devres[..|old(owner.devres)|] == old(owner.devres) &&
              var res := owner.devres[|old(owner.devres)|];
              fresh(res) && res.release == DevmSpislaveUnregister && res.data == slave
    ensures old(ResourcesRegistered(bus, owner)) ==> ResourcesRegistered(bus, owner)
  {
    var ptr := DevresAlloc(allocOk);
    if ptr == null {
      return -ENOMEM;
    }
    ret := RegisterSlave(bus, slave, registerResult);
    if ret == 0 {
      ptr.data := slave;
      DevresAdd(owner, ptr);
    }
    // else: devres_free(ptr); the resource is dropped without reaching the owner.
  }

  /** A successful device-managed registration followed by the release of the
      resource it added: the same slave is registered and then unregistered, and
      the bus holds the devices it held before. */
  method DevmRegisterThenRelease(bus: Bus, owner: OwnerDevice, slave: SpiSlave)
      returns (ret: int)
    requires slave !in bus.devices
    modifies bus, owner, slave`devBus, slave`devName
    ensures ret == 0
    ensures bus.calls == old(bus.calls) + [CallDeviceRegister(slave), CallDeviceUnregister(slave)]
    ensures bus.devices == old(bus.devices)
  {
    ret := DevmRegisterDevice(bus, owner, slave.name, slave, true, 0);
    var res := owner.devres[|owner.devres| - 1];
    DevmUnregister(bus, owner, res);
  }

  /** An explicit `spislave_unregister_device` on a slave registered through
      the device-managed path, followed by the release of its resource: nothing
      in the core guards the release, so the slave is unregistered twice. */
  method UnregisterThenRelease(bus: Bus, owner: OwnerDevice, res: Devres)
    requires res in owner.devres && res.data != null
    modifies bus
    ensures bus.calls == old(bus.calls) + [CallDeviceUnregister(res.data), CallDeviceUnregister(res.data)]
    ensures bus.devices == old(bus.devices) - {res.data}
  {
    UnregisterDevice(bus, res.data);
    DevmUnregister(bus, owner, res);
  }
}
