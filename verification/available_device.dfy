/** AvailableDevice (the older library generation): the bookkeeping kept for one
    advertising peripheral. A device is "verified" once it has reported the same
    Crownstone id, from its own (not an external) state, often enough in a row,
    or as soon as it advertises in setup mode. The RSSI history and its average
    are left out; the wall clock is a parameter. */
module AvailableDevice {
  import opened Bytes
  import opened Wrappers

  /** AMOUNT_OF_REQUIRED_MATCHES */
  const RequiredMatches: nat := 3

  /** The parts of a scan response that verification reads. */
  datatype Response = Response(isSetupPackage: bool, crownstoneId: u16, stateOfExternalCrownstone: bool)

  datatype Device = Device(
    name: Option<string>,
    handle: string,
    crownstoneId: u16,
    lastUpdate: real,
    verified: bool,
    consecutiveMatches: int)

  /** The counter never goes past the required number of matches. */
  predicate Valid(d: Device) {
    0 <= d.consecutiveMatches <= RequiredMatches
  }

  /** A response from the same Crownstone about its own state. */
  predicate Matches(d: Device, r: Response) {
    !r.isSetupPackage && r.crownstoneId == d.crownstoneId && !r.stateOfExternalCrownstone
  }

  /** A response broadcast by another Crownstone about this one's state. */
  predicate RelayedByOther(d: Device, r: Response) {
    !r.isSetupPackage && r.crownstoneId != d.crownstoneId && r.stateOfExternalCrownstone
  }

  /** verify(data): the consecutive-match state machine. */
  function Verify(d: Device, data: Option<Response>): (e: Device)
    ensures e.name == d.name && e.handle == d.handle && e.lastUpdate == d.lastUpdate
    ensures data.None? ==> e == d
    ensures data.Some? && data.value.isSetupPackage ==>
      e == d.(verified := true, consecutiveMatches := 0)
    ensures data.Some? && Matches(d, data.value) ==>
      if d.consecutiveMatches >= RequiredMatches then e == d.(verified := true)
      else e == d.(consecutiveMatches := d.consecutiveMatches + 1)
    ensures data.Some? && RelayedByOther(d, data.value) ==> e == d
    ensures data.Some? && !data.value.isSetupPackage && !Matches(d, data.value) && !RelayedByOther(d, data.value) ==>
      e == d.(consecutiveMatches := 0, verified := false, crownstoneId := data.value.crownstoneId)
    ensures Valid(d) ==> Valid(e)
  {
    match data
    case None => d
    case Some(response) =>
      if response.isSetupPackage then d.(verified := true, consecutiveMatches := 0)
      else if response.crownstoneId == d.crownstoneId && !response.stateOfExternalCrownstone then
        if d.consecutiveMatches >= RequiredMatches then d.(verified := true)
        else d.(consecutiveMatches := d.consecutiveMatches + 1)
      else if response.crownstoneId != d.crownstoneId && response.stateOfExternalCrownstone then d
      else d.(consecutiveMatches := 0, verified := false, crownstoneId := response.crownstoneId)
  }

  /** update(data) without the RSSI bookkeeping: stamp the time, then verify. */
  function Update(d: Device, now: real, scanResponse: Option<Response>): (e: Device)
    ensures e.lastUpdate == now
    ensures e == Verify(d, scanResponse).(lastUpdate := now)
    ensures Valid(d) ==> Valid(e)
  {
    Verify(d.(lastUpdate := now), scanResponse)
  }

  /** init(data, cleanupCallback). For a Crownstone that is not in setup mode the
      scan response is force-unwrapped, which traps when it is missing. The
      advertisement's own setup-mode flag is a parameter: the advertisement class
      of this library generation is not part of this model. The verified flag set
      for a setup advertisement can be cleared again by the verify step of the
      closing update when the scan response disagrees. */
  function Init(name: Option<string>, handle: string, isCrownstone: bool, isSetupPackage: bool,
                scanResponse: Option<Response>, now: real): (r: Outcome<Device>)
    ensures r.Trapped? <==> isCrownstone && !isSetupPackage && scanResponse.None?
    ensures r.Done? ==> Valid(r.value) && r.value.name == name && r.value.handle == handle
    ensures r.Done? ==> r.value.lastUpdate == now
    ensures r.Done? && isCrownstone && isSetupPackage && (scanResponse.None? || scanResponse.value.isSetupPackage) ==>
      r.value.verified
    ensures r.Done? && isCrownstone && !isSetupPackage ==>
      r.value == Verify(Device(name, handle, scanResponse.value.crownstoneId, now, false, 0), scanResponse)
    ensures r.Done? && !isCrownstone ==>
      r.value == Verify(Device(name, handle, 0, now, false, 0), scanResponse)
  {
    var blank := Device(name, handle, 0, 0.0, false, 0);
    if isCrownstone && isSetupPackage then
      var d := blank.(verified := true);
      Done(Update(d, now, scanResponse))
    else if isCrownstone then
      if scanResponse.None? then Trapped
      else Done(Update(blank.(crownstoneId := scanResponse.value.crownstoneId), now, scanResponse))
    else Done(Update(blank, now, scanResponse))
  }

  /** checkTimeout(referenceTime): the cleanup callback fires when the device
      was last updated at the reference time. */
  function CheckTimeout(d: Device, referenceTime: real): bool
  {
    d.lastUpdate == referenceTime
  }

  /** The check update() schedules, as written: the delayed closure reads
      self.lastUpdate when it runs, not when it is scheduled, so it compares
      the device's latest update time with itself. */
  function ScheduledCheckAsWritten(atFire: Device): (cleanup: bool)
    ensures cleanup
  {
    CheckTimeout(atFire, atFire.lastUpdate)
  }

  /** The scheduled check as intended: the reference time is the update time
      captured when the check was scheduled. */
  function ScheduledCheck(scheduledAt: real, atFire: Device): (cleanup: bool)
    ensures cleanup <==> atFire.lastUpdate == scheduledAt
  {
    CheckTimeout(atFire, scheduledAt)
  }

  /** The timeout scheduled by an update at time t fires exactly when no
      update at another time followed it; verifying alone never cancels it. */
  lemma TimeoutAfterUpdates(d: Device, t: real, first: Option<Response>, later: real, second: Option<Response>)
    ensures ScheduledCheck(t, Update(d, t, first))
    ensures ScheduledCheck(t, Verify(Update(d, t, first), second))
    ensures ScheduledCheck(t, Update(Update(d, t, first), later, second)) <==> later == t
  {
  }

  /** As written, a later update does not cancel the earlier timeout: the
      device is cleaned up five seconds after every update even while it
      keeps advertising. */
  lemma TimeoutNeverCancelled(d: Device, t: real, first: Option<Response>, later: real, second: Option<Response>)
    requires later != t
    ensures ScheduledCheckAsWritten(Update(Update(d, t, first), later, second))
    ensures !ScheduledCheck(t, Update(Update(d, t, first), later, second))
  {
  }

  /** The device after n identical responses. */
  function VerifyRepeated(d: Device, r: Response, n: nat): Device
    decreases n
  {
    if n == 0 then d else VerifyRepeated(Verify(d, Some(r)), r, n - 1)
  }

  /** A run of n <= 3 matching responses leaves the id alone, counts n matches
      and does not change the verified flag. */
  lemma {:induction false} MatchesCount(d: Device, r: Response, n: nat)
    requires Matches(d, r) && d.consecutiveMatches + n <= RequiredMatches && 0 <= d.consecutiveMatches
    ensures VerifyRepeated(d, r, n) == d.(consecutiveMatches := d.consecutiveMatches + n)
    decreases n
  {
    if n > 0 {
      var e := Verify(d, Some(r));
      assert e == d.(consecutiveMatches := d.consecutiveMatches + 1);
      MatchesCount(e, r, n - 1);
    }
  }

  /** From a reset counter on an unverified device, three matching responses are
      not enough and the fourth verifies it. */
  lemma FourMatchesVerify(d: Device, r: Response)
    requires Matches(d, r) && d.consecutiveMatches == 0 && !d.verified
    ensures !VerifyRepeated(d, r, 3).verified
    ensures VerifyRepeated(d, r, 4).verified
  {
    MatchesCount(d, r, 3);
    ShiftLast(d, r, 3);
  }

  /** One more repetition can be taken at the end instead of the start. */
  lemma {:induction false} ShiftLast(d: Device, r: Response, n: nat)
    ensures VerifyRepeated(d, r, n + 1) == Verify(VerifyRepeated(d, r, n), Some(r))
    decreases n
  {
    if n > 0 {
      ShiftLast(Verify(d, Some(r)), r, n - 1);
    }
  }

  /** Once verified, further matching responses keep the device verified, and
      the counter stays within its bound however many arrive. */
  lemma {:induction false} MatchesKeepVerified(d: Device, r: Response, n: nat)
    requires Matches(d, r) && Valid(d) && d.verified
    ensures VerifyRepeated(d, r, n).verified && Valid(VerifyRepeated(d, r, n))
    ensures VerifyRepeated(d, r, n).crownstoneId == d.crownstoneId
    decreases n
  {
    if n > 0 {
      MatchesKeepVerified(Verify(d, Some(r)), r, n - 1);
    }
  }
}
