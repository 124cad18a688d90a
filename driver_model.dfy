/** The kernel objects the SPI-slave core reads and writes, reduced to the
    fields the core touches. */
module DriverModel {

  /** A device-tree child node: whether it is available, and its OF_POPULATED flag. */
  datatype Node = Node(available: bool, populated: bool)

  /** A call that the probe or remove wrapper makes to a collaborator. */
  datatype Event =
    | PmAttach(powerOn: bool)   // dev_pm_domain_attach(dev, power_on)
    | DriverProbe               // the driver's own probe callback
    | PmDetach(powerOff: bool)  // dev_pm_domain_detach(dev, power_off)
    | DriverRemove              // the driver's own remove callback

  /** Which bus a device or driver is attached to (`dev.bus`, `driver.bus`). */
  datatype BusType = NoBus | SpislaveBus

  /** The generic callbacks installed in a `struct device_driver`. */
  datatype Callback = NoCallback | SpislaveDrvProbe | SpislaveDrvRemove

  /** The module that owns a driver (`driver.owner`). */
  datatype ModuleRef = NoModule | ThisModule

  /** A `struct spi_slave` together with the fields of its embedded `struct device`. */
  class SpiSlave {
    /** `slave->name`, chosen by whoever creates the slave. */
    var name: string
    /** The device name that `dev_set_name` gives `slave->dev`. */
    var devName: string
    /** `slave->dev.bus`. */
    var devBus: BusType
    /** The collaborator calls made for `slave->dev`, oldest first. */
    var calls: seq<Event>
    /** The child nodes of `slave->dev.of_node`; empty when there is no node.
        Two slaves may share one node array. */
    const children: array<Node>

    constructor (name: string, children: array<Node>)
      ensures this.name == name && this.children == children
      ensures devName == [] && devBus == NoBus && calls == []
    {
      this.name := name;
      this.children := children;
      devName := [];
      devBus := NoBus;
      calls := [];
    }
  }

  /** A `struct spislave_driver` with the fields of its embedded `struct device_driver`. */
  class SpiSlaveDriver {
    /** `driver.owner`. */
    var owner: ModuleRef
    /** `driver.bus`. */
    var bus: BusType
    /** `driver.probe`, what the driver core calls to bind a device. */
    var driverProbe: Callback
    /** `driver.remove`, what the driver core calls to unbind a device. */
    var driverRemove: Callback

    constructor ()
      ensures owner == NoModule && bus == NoBus
      ensures driverProbe == NoCallback && driverRemove == NoCallback
    {
      owner := NoModule;
      bus := NoBus;
      driverProbe := NoCallback;
      driverRemove := NoCallback;
    }
  }
}
