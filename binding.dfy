/** The probe and remove wrappers that the spislave bus installs in every driver:
    they put the device's power domain around the driver's own callbacks. */
module Binding {
  import opened Errno
  import opened DriverModel

  /** The collaborator calls a wrapper makes, and the value it returns. */
  datatype Outcome = Outcome(trace: seq<Event>, ret: int)

  /** What `spislave_drv_probe` does when the power-domain attach returns
      `attachRet` and the driver's probe returns `probeRet`. */
  function ProbeWrapper(attachRet: int, probeRet: int): (o: Outcome)
    // The calls are always a prefix of attach, probe, detach: attach comes first,
    // and a detach can only follow a probe.
    ensures [PmAttach(true)] <= o.trace <= [PmAttach(true), DriverProbe, PmDetach(true)]
    // A deferred attach stops the wrapper: no probe, no detach, the deferral returned.
    ensures attachRet == -EPROBE_DEFER ==>
              o.ret == -EPROBE_DEFER && DriverProbe !in o.trace && PmDetach(true) !in o.trace
    // Any other attach result is discarded: probe runs once and its result is returned.
    ensures attachRet != -EPROBE_DEFER ==>
              multiset(o.trace)[DriverProbe] == 1 && o.ret == probeRet
    // Exactly one detach when probe ran and failed, none otherwise.
    ensures multiset(o.trace)[PmDetach(true)] ==
              if attachRet != -EPROBE_DEFER && probeRet != 0 then 1 else 0
    // The wrapper succeeds exactly when the calls were attach then probe.
    ensures o.ret == 0 <==> o.trace == [PmAttach(true), DriverProbe]
  {
    if attachRet == -EPROBE_DEFER then
      Outcome([PmAttach(true)], attachRet)
    else if probeRet != 0 then
      Outcome([PmAttach(true), DriverProbe, PmDetach(true)], probeRet)
    else
      Outcome([PmAttach(true), DriverProbe], probeRet)
  }

  /** What `spislave_drv_remove` does when the driver's remove returns `removeRet`. */
  function RemoveWrapper(removeRet: int): (o: Outcome)
    // remove then detach, whatever remove returned; remove's result is passed back.
    ensures o.trace == [DriverRemove, PmDetach(true)]
    ensures o.ret == removeRet
  {
    Outcome([DriverRemove, PmDetach(true)], removeRet)
  }

  /** The calls a device sees over one bind attempt and, when the bind
      succeeded, the later unbind. */
  function Lifetime(attachRet: int, probeRet: int, removeRet: int): (life: seq<Event>)
  {
    var bind := ProbeWrapper(attachRet, probeRet);
    if bind.ret == 0 then bind.trace + RemoveWrapper(removeRet).trace else bind.trace
  }

  /** Every attach that was not deferred is balanced by exactly one detach over
      the device's lifetime, and that detach is the last call. */
  lemma PowerDomainBalanced(attachRet: int, probeRet: int, removeRet: int)
    ensures var life := Lifetime(attachRet, probeRet, removeRet);
      multiset(life)[PmDetach(true)] == (if attachRet == -EPROBE_DEFER then 0 else 1) &&
      (attachRet != -EPROBE_DEFER ==> life[|life| - 1] == PmDetach(true))
  {
  }

  /** `dev_pm_domain_attach(dev, powerOn)`; the power-management code decides
      the result, given here as `result`. */
  method PmDomainAttach(dev: SpiSlave, powerOn: bool, result: int) returns (ret: int)
    modifies dev`calls
    ensures dev.calls == old(dev.calls) + [PmAttach(powerOn)] && ret == result
  {
    dev.calls := dev.calls + [PmAttach(powerOn)];
    ret := result;
  }

  /** `dev_pm_domain_detach(dev, powerOff)`. */
  method PmDomainDetach(dev: SpiSlave, powerOff: bool)
    modifies dev`calls
    ensures dev.calls == old(dev.calls) + [PmDetach(powerOff)]
  {
    dev.calls := dev.calls + [PmDetach(powerOff)];
  }

  /** The driver's own `probe`; the driver decides the result, given here as `result`. */
  method CallProbe(dev: SpiSlave, result: int) returns (ret: int)
    modifies dev`calls
    ensures dev.calls == old(dev.calls) + [DriverProbe] && ret == result
  {
    dev.calls := dev.calls + [DriverProbe];
    ret := result;
  }

  /** The driver's own `remove`; the driver decides the result, given here as `result`. */
  method CallRemove(dev: SpiSlave, result: int) returns (ret: int)
    modifies dev`calls
    ensures dev.calls == old(dev.calls) + [DriverRemove] && ret == result
  {
    dev.calls := dev.calls + [DriverRemove];
    ret := result;
  }

  /** `spislave_drv_probe`: attach the power domain, unless that was deferred run
      the driver's probe, and undo the attach when probe fails. */
  method DrvProbe(dev: SpiSlave, attachResult: int, probeResult: int) returns (ret: int)
    modifies dev`calls
    ensures dev.calls == old(dev.calls) + ProbeWrapper(attachResult, probeResult).trace
    ensures ret == ProbeWrapper(attachResult, probeResult).ret
  {
    ret := PmDomainAttach(dev, true, attachResult);
    if ret != -EPROBE_DEFER {
      ret := CallProbe(dev, probeResult);
      if ret != 0 {
        PmDomainDetach(dev, true);
      }
    }
  }

  /** `spislave_drv_remove`: run the driver's remove, then always detach the
      power domain. */
  method DrvRemove(dev: SpiSlave, removeResult: int) returns (ret: int)
    modifies dev`calls
    ensures dev.calls == old(dev.calls) + RemoveWrapper(removeResult).trace
    ensures ret == RemoveWrapper(removeResult).ret
  {
    ret := CallRemove(dev, removeResult);
    PmDomainDetach(dev, true);
  }
}
