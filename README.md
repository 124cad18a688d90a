# SPI-slave bus core, modelled in Dafny

This project models the binding logic of the `spislave` bus in
`driver/spi-slave-core.c`. That is a Linux bus type through which SPI-slave
drivers and slave devices register. Four pieces of the file are modelled:

- **Probe wrapper** (`spislave_drv_probe`). It attaches the device's power
  domain. If the attach was deferred it stops there. Otherwise it runs the
  driver's own `probe` and, when that fails, detaches the power domain again.
- **Remove wrapper** (`spislave_drv_remove`). It runs the driver's `remove` and
  then always detaches the power domain.
- **Match** (`spislave_device_match`). It walks the device's available
  device-tree children and test-and-sets each child's `OF_POPULATED` flag. It
  returns 1 in every case.
- **Registration**. `spislave_register_driver` and `spislave_register_slave`
  fill in the bus fields and call the driver core.
  `devm_spislave_register_device` allocates a device-managed resource
  ("devres"), registers the slave, and either hands the resource to the owning
  device or frees it. The resource's release function,
  `devm_spislave_unregister`, unregisters the slave it stores.

The results of the calls the file makes into code it does not define are
parameters of the model: `dev_pm_domain_attach`, the driver's own `probe` and
`remove`, `driver_register`, `device_register`, and whether `devres_alloc`
finds memory. The other calls (`of_node_test_and_set_flag`, `devres_add`,
`devres_free`, `dev_set_name`, `dev_pm_domain_detach`, `driver_unregister`,
`device_unregister`) are modelled by their effects.

The model records the calls each function makes, in order:

- the probe and remove wrappers append `Event`s to `SpiSlave.calls`;
- registration appends `BusCall`s to `Bus.calls`, and `Bus.devices` /
  `Bus.drivers` hold what the registry contains;
- an owner's devres list is the field `OwnerDevice.devres`;
- a device's child nodes are an `array<Node>` of `(available, populated)` flags.

Files:
- `errno.dfy`: the kernel error numbers.
- `driver_model.dfy`: the objects and their fields.
- `binding.dfy`: the probe and remove wrappers.
- `match.dfy`: node claiming.
- `registry.dfy`: the bus registry and the devm path.

Behaviour of the code worth noting:
- Releasing the device-managed resource is not guarded. A slave registered with
  `devm_spislave_register_device` and also unregistered with
  `spislave_unregister_device` is unregistered twice
  (`Registry.UnregisterThenRelease`).
- An attach error other than a deferral does not stop the probe wrapper. The
  error is dropped, the driver's `probe` still runs, and if `probe` fails the
  detach runs even though the attach failed.
- Match accepts every device, also one with no available child or none it could
  claim.

## Model

| member | source | states |
|---|---|---|
| Binding.ProbeWrapper | driver/spi-slave-core.c:12-29 | the calls are a prefix of attach(power on), probe, detach(power off); a deferred attach returns -EPROBE_DEFER with no probe and no detach; any other attach result is discarded, probe runs exactly once and its result is returned; exactly one detach happens iff probe ran and failed; the return is 0 iff the calls were exactly attach then probe |
| Binding.RemoveWrapper | driver/spi-slave-core.c:31-44 | the calls are exactly remove then detach(power off), whatever remove returned, and remove's result is returned unchanged |
| Binding.PowerDomainBalanced | driver/spi-slave-core.c:21-25 | over one bind attempt plus, if it succeeded, the later unbind, a non-deferred attach is followed by exactly one detach and that detach is the last call; a deferred attach is followed by none |
| Binding.DrvProbe | driver/spi-slave-core.c:12-29 | the imperative wrapper appends exactly the calls of ProbeWrapper to the device's call log and returns its result |
| Binding.DrvRemove | driver/spi-slave-core.c:31-44 | the imperative wrapper appends exactly the calls of RemoveWrapper to the device's call log and returns its result |
| Match.Claimed | driver/spi-slave-core.c:125-131 | a match keeps every child node: the list afterwards has the same length |
| Match.ClaimedAt | driver/spi-slave-core.c:125-131 | after a match every node keeps its availability, and a node is populated iff it was populated or is available |
| Match.ClaimedMonotone | driver/spi-slave-core.c:125-127 | a match never clears a populated flag and leaves an unavailable node exactly as it was |
| Match.NewlyClaimedFlipped | driver/spi-slave-core.c:126-130 | the nodes the match finds unclaimed are exactly the nodes whose populated flag it turns on |
| Match.MatchIdempotent | driver/spi-slave-core.c:126-127 | matching twice over the same nodes leaves them as matching once did, and the second match claims no node |
| Match.TestAndSetPopulated | driver/spi-slave-core.c:126 | the node's flag is set, its old value is returned, and every other node is unchanged |
| Match.DeviceMatch | driver/spi-slave-core.c:118-134 | the match returns 1; the node array afterwards is Claimed of the array before; the nodes reported as found are exactly the available ones that were not populated |
| Match.MatchShared | driver/spi-slave-core.c:125-127 | for two devices sharing one child array, a match for the second after a match for the first claims nothing and changes no flag |
| Registry.Bus.constructor | driver/spi-slave-core.c:136-139 | the bus is named "spislave", has `spislave_device_match` (modelled by Match.DeviceMatch) as its match callback, and starts with no drivers, no devices and no calls |
| Registry.RegisterDriver | driver/spi-slave-core.c:46-55 | the driver is owned by this module, sits on the spislave bus, and has the wrapped probe and remove installed; driver_register is called once, its result returned, and the driver is registered iff that result is 0 |
| Registry.UnregisterDriver | driver/spi-slave-core.c:58-61 | driver_unregister is called once and the driver leaves the registry |
| Registry.RegisterSlave | driver/spi-slave-core.c:74-83 | the slave's device is on the spislave bus and named after the slave; device_register is called once, its result returned, and the slave is registered iff that result is 0 |
| Registry.UnregisterSlave | driver/spi-slave-core.c:64-67 | device_unregister is called once for the slave and it leaves the registry |
| Registry.UnregisterDevice | driver/spi-slave-core.c:112-115 | device_unregister is called once for the slave and it leaves the registry |
| Registry.DevmUnregister | driver/spi-slave-core.c:69-72 | releasing the resource unregisters exactly the slave it stores |
| Registry.DevresAlloc | driver/spi-slave-core.c:91 | a resource is returned iff memory is available; it is fresh, has devm_spislave_unregister as its release and stores no slave yet |
| Registry.DevmRegisterDevice | driver/spi-slave-core.c:85-108 | without memory it returns -ENOMEM and changes nothing, so registration is never attempted; otherwise registration is attempted once and its result returned; on failure the owner's resource list and the registry are unchanged; on success the slave is registered and exactly one fresh resource storing it, with devm_spislave_unregister as its release, is appended to the owner's list; every resource on the owner's list keeps storing a registered slave |
| Registry.DevmRegisterThenRelease | driver/spi-slave-core.c:69-108 | a successful device-managed registration followed by the release of the resource it added registers and then unregisters that same slave, and the registry holds what it held before |
| Registry.UnregisterThenRelease | driver/spi-slave-core.c:64-72 | an explicit unregister followed by the release of the slave's resource unregisters the slave twice |

## Left out

- The driver-core internals behind `driver_register`, `driver_unregister`,
  `device_register`, `device_unregister`, `bus_register`,
  `dev_pm_domain_attach` and `dev_pm_domain_detach`. They are not part of this
  model. Their results are parameters, and their effect on the registry is
  reduced to adding or removing the object.
- How the driver core invokes `match`, `driver.probe` and `driver.remove`, and
  how `devres_release_all` runs releases when the owner goes away. The model
  states what each core function does when it is called; it has no scheduler
  of those calls.
- Module init and exit (`spislave_init`, `spislave_exit`) and the `MODULE_*`
  metadata.
- `pr_info` and `pr_err` logging. The nodes the match would log are kept as
  the ghost set `claimed` of `Match.DeviceMatch`.
- `dev_set_name` formatting and its failure. The name format is `"%s"`, so the
  device name is modelled as a copy of `slave.name`. The source ignores the
  function's return value, and so does the model.
- The `to_spislave_drv` and `to_spislave_dev` casts.
- The header `spi-slave-core.h`, which is not part of this model.
- The atomicity and locking of `of_node_test_and_set_flag`.
  `Match.TestAndSetPopulated` is one sequential check-and-set.
- Memory allocation beyond a success flag for `devres_alloc`. `devres_free` is
  modelled as the resource never reaching the owner's list.
- `THIS_MODULE` is the constant `ThisModule`; module reference counting is not
  modelled.
- The userspace exerciser `slave_app/slave_app.c`. It only performs I/O on a
  device node.
