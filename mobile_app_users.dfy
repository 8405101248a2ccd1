/**
 * Mobile application seat admission. A customer owns a number of licences
 * ("seats") for each mobile application type; a user who logs in from a
 * device (identified by its IMEI) takes one. `Decide` is the admission
 * rule over already-read values: the licence counts and the user's
 * existing usage record. `MobileAppUserService.RegisterAppUsageByUser`
 * reads those values from its collaborators, applies the rule and, only
 * when the user is admitted, writes the usage record once.
 */
module MobileAppUsers {
  import opened Basics
  import PhpStrings

  /**
   * The deactivation reason stored with a usage record: PHP's `null`, one
   * of the five reason constants of the usage store, or any other string
   * (`Text` stands for every string that is not one of the constants'
   * values).
   */
  datatype Reason =
    | NoReason
    | ReasonNoActivity
    | ReasonLicenseDeactivated
    | ReasonLicenseReduced
    | ReasonDeviceBlocked
    | ReasonUserLoggedOut
    | Text(s: string)

  /** The five reasons the service knows how to handle. */
  predicate IsKnownReason(r: Reason)
  {
    r.ReasonNoActivity? || r.ReasonLicenseDeactivated? || r.ReasonLicenseReduced?
    || r.ReasonDeviceBlocked? || r.ReasonUserLoggedOut?
  }

  /** PHP's `empty()` on a reason: `null`, `""` and `"0"`. */
  predicate IsBlankReason(r: Reason)
  {
    r.NoReason? || (r.Text? && PhpStrings.IsEmptyString(r.s))
  }

  /** A user's existing usage record for an application type. */
  datatype UsageRecord = UsageRecord(active: bool, reason: Reason, imei: string)

  /** The four policy rejections, named after the exceptions the service throws. */
  datatype Rejection =
    | BlockedBecauseLicenseNumberReduction
    | DeviceBlocked
    | LicensesNumberExtended
    | NoLicensesAvailable

  /** The two data-integrity faults, raised as `LogicException`. */
  datatype Fault = UnknownDeactivationReason | ActiveLicenseHasReason

  datatype Decision = Register | Reject(rejection: Rejection) | Fail(fault: Fault)

  /**
   * When a user may be registered, stated without reference to the order
   * of the checks: the counts are not over-booked, a new user needs a free
   * seat, an active record carries no reason, and an inactive one carries
   * a known reason that does not bar this return (a licence reduction
   * while no seat is free, or a block of this very device).
   */
  predicate Admissible(allowed: int, used: int, record: Option<UsageRecord>, imei: string)
  {
    && used <= allowed
    && match record
       case None => used < allowed
       case Some(rec) =>
         if rec.active then IsBlankReason(rec.reason)
         else
           && IsKnownReason(rec.reason)
           && (rec.reason == ReasonLicenseReduced ==> used < allowed)
           && (rec.reason == ReasonDeviceBlocked ==> rec.imei != imei)
  }

  /**
   * The checks of `registerAppUsageByUser`, in the order the source makes
   * them: a licence reduction with no free seat, a blocked device asking
   * again, an unknown reason, an active record with a reason, over-booking,
   * and a new user at full capacity.
   */
  function Decide(allowed: int, used: int, record: Option<UsageRecord>, imei: string): (d: Decision)
    ensures d.Register? <==> Admissible(allowed, used, record, imei)
    ensures d.Register? ==> used <= allowed && (record.None? ==> used < allowed)
  {
    if record.Some? && !record.value.active && record.value.reason == ReasonLicenseReduced && used >= allowed then
      Reject(BlockedBecauseLicenseNumberReduction)
    else if record.Some? && !record.value.active && record.value.reason == ReasonDeviceBlocked && record.value.imei == imei then
      Reject(DeviceBlocked)
    else if record.Some? && !record.value.active && !IsKnownReason(record.value.reason) then
      Fail(UnknownDeactivationReason)
    else if record.Some? && record.value.active && !IsBlankReason(record.value.reason) then
      Fail(ActiveLicenseHasReason)
    else if used > allowed then
      Reject(LicensesNumberExtended)
    else if used == allowed && record.None? then
      Reject(NoLicensesAvailable)
    else
      Register
  }

  /** A user evicted by a licence reduction stays out while no seat is free, even when the counts are over-booked. */
  lemma LicenseReductionBlocks(allowed: int, used: int, imei: string, rec: UsageRecord)
    requires !rec.active && rec.reason == ReasonLicenseReduced
    ensures Decide(allowed, used, Some(rec), imei) ==
      if used >= allowed then Reject(BlockedBecauseLicenseNumberReduction) else Register
  {
  }

  /** A blocked device is refused whatever the counts; the same user on another device is judged by the counts alone. */
  lemma DeviceBlockIsPerDevice(allowed: int, used: int, imei: string, rec: UsageRecord)
    requires !rec.active && rec.reason == ReasonDeviceBlocked
    ensures rec.imei == imei ==> Decide(allowed, used, Some(rec), imei) == Reject(DeviceBlocked)
    ensures rec.imei != imei ==>
      Decide(allowed, used, Some(rec), imei) == if used > allowed then Reject(LicensesNumberExtended) else Register
  {
  }

  /** An inactive record with a reason outside the five known ones is a fault for any counts and any device. */
  lemma UnknownReasonIsFault(allowed: int, used: int, imei: string, rec: UsageRecord)
    requires !rec.active && !IsKnownReason(rec.reason)
    ensures Decide(allowed, used, Some(rec), imei) == Fail(UnknownDeactivationReason)
  {
  }

  /** An active record that carries a reason is a fault for any counts and any device. */
  lemma ActiveWithReasonIsFault(allowed: int, used: int, imei: string, rec: UsageRecord)
    requires rec.active && !IsBlankReason(rec.reason)
    ensures Decide(allowed, used, Some(rec), imei) == Fail(ActiveLicenseHasReason)
  {
  }

  /**
   * Over-booked counts are never admitted. A record that passes the record
   * checks (none at all, an active one without a reason, or an inactive
   * one whose reason neither blocks nor is unknown) is reported as
   * over-booking, for existing users too.
   */
  lemma OverBookingRejected(allowed: int, used: int, record: Option<UsageRecord>, imei: string)
    requires used > allowed
    ensures !Decide(allowed, used, record, imei).Register?
    ensures record.None?
      || (record.value.active && IsBlankReason(record.value.reason))
      || (!record.value.active && record.value.reason in {ReasonNoActivity, ReasonLicenseDeactivated, ReasonUserLoggedOut})
      || (!record.value.active && record.value.reason == ReasonDeviceBlocked && record.value.imei != imei)
      ==> Decide(allowed, used, record, imei) == Reject(LicensesNumberExtended)
  {
  }

  /** A new user is admitted exactly when a seat is free; at equality the pool is full, above it over-booked. */
  lemma NewUser(allowed: int, used: int, imei: string)
    ensures Decide(allowed, used, None, imei) ==
      if used > allowed then Reject(LicensesNumberExtended)
      else if used == allowed then Reject(NoLicensesAvailable)
      else Register
  {
  }

  /** An existing user whose record passed the earlier checks is not turned away at equality: they already hold a seat. */
  lemma ExistingUserAtCapacity(allowed: int, imei: string, rec: UsageRecord)
    requires rec.active ==> IsBlankReason(rec.reason)
    requires !rec.active ==> IsKnownReason(rec.reason) && rec.reason != ReasonLicenseReduced
    requires !rec.active && rec.reason == ReasonDeviceBlocked ==> rec.imei != imei
    ensures Decide(allowed, allowed, Some(rec), imei) == Register
  {
  }

  /** At 9 of 10 seats, re-admission after each non-blocking reason, and of an active user, succeeds. */
  lemma ReturningUsersWithFreeSeat(imei: string, storedImei: string)
    ensures forall r :: r in {ReasonNoActivity, ReasonLicenseDeactivated, ReasonLicenseReduced, ReasonUserLoggedOut} ==>
      Decide(10, 9, Some(UsageRecord(false, r, storedImei)), imei) == Register
    ensures Decide(10, 9, Some(UsageRecord(true, NoReason, storedImei)), imei) == Register
  {
  }

  // ---------------------------------------------------------------------
  // The service and its collaborators
  // ---------------------------------------------------------------------

  datatype User = User(id: string, customersId: string)

  /** The arguments of one call to the store's write. */
  datatype Registration = Registration(appType: string, userId: string, customersId: string, token: string, imei: string)

  datatype Unregistration = Unregistration(appType: string, userId: int, imei: string)

  /** The values the decision is taken on. */
  datatype Counts = Counts(allowed: int, used: int, record: Option<UsageRecord>)

  datatype ExecuteStage = ReadingLicences | WritingUsage

  /** How `registerAppUsageByUser` ends: normally, or with one of the exceptions it throws. */
  datatype Outcome =
    | Registered
    | Rejected(rejection: Rejection)
    | LogicError(fault: Fault)
    | ExecuteError(stage: ExecuteStage)

  /**
   * The usage store (`Crm_MobileAppActiveUsers`). Its answers are given
   * when it is built, as functions of the arguments (`None` where the call
   * throws); what it is asked to write, reap or remove is recorded in
   * order.
   */
  class ActiveUsersStore {
    /** `getUsedMobileAppLicensesCount(appType, customersId)`. */
    const usedCountAnswer: (string, string) -> Option<int>
    /**
     * `getLicenseUsedByUser(appType, userId)`: the call can throw (outer
     * `None`), and the user may have no record (inner `None`), which the
     * store answers with exactly `false`.
     */
    const usageRecordAnswer: (string, string) -> Option<Option<UsageRecord>>
    /** Whether a call to `registerAppUsageByUser` with these arguments returns normally. */
    const writeAnswer: Registration -> bool

    var registrations: seq<Registration>
    var deactivationRuns: nat
    var unregistrations: seq<Unregistration>

    constructor (usedCountAnswer: (string, string) -> Option<int>,
                 usageRecordAnswer: (string, string) -> Option<Option<UsageRecord>>,
                 writeAnswer: Registration -> bool)
      ensures this.usedCountAnswer == usedCountAnswer
      ensures this.usageRecordAnswer == usageRecordAnswer
      ensures this.writeAnswer == writeAnswer
      ensures registrations == [] && deactivationRuns == 0 && unregistrations == []
    {
      this.usedCountAnswer := usedCountAnswer;
      this.usageRecordAnswer := usageRecordAnswer;
      this.writeAnswer := writeAnswer;
      registrations := [];
      deactivationRuns := 0;
      unregistrations := [];
    }

    method GetUsedMobileAppLicensesCount(appType: string, customersId: string) returns (r: Option<int>)
      ensures r == usedCountAnswer(appType, customersId)
    {
      r := usedCountAnswer(appType, customersId);
    }

    method GetLicenseUsedByUser(appType: string, userId: string) returns (r: Option<Option<UsageRecord>>)
      ensures r == usageRecordAnswer(appType, userId)
    {
      r := usageRecordAnswer(appType, userId);
    }

    /** Records the write; `ok` is false where the store's write throws. */
    method RegisterAppUsageByUser(appType: string, userId: string, customersId: string, token: string, imei: string)
      returns (ok: bool)
      modifies this`registrations
      ensures registrations == old(registrations) + [Registration(appType, userId, customersId, token, imei)]
      ensures ok == writeAnswer(Registration(appType, userId, customersId, token, imei))
    {
      registrations := registrations + [Registration(appType, userId, customersId, token, imei)];
      ok := writeAnswer(Registration(appType, userId, customersId, token, imei));
    }

    method DeactivateNonActiveUsers()
      modifies this`deactivationRuns
      ensures deactivationRuns == old(deactivationRuns) + 1
    {
      deactivationRuns := deactivationRuns + 1;
    }

    method UnregisterAppUsageByUser(appType: string, userId: int, imei: string)
      modifies this`unregistrations
      ensures unregistrations == old(unregistrations) + [Unregistration(appType, userId, imei)]
    {
      unregistrations := unregistrations + [Unregistration(appType, userId, imei)];
    }
  }

  /** The licence directory (`Cloud\Licenses`): licence counts per key for a customer, or `None` where the call throws. */
  class CloudLicenses {
    const licensesAnswer: (string, seq<string>) -> Option<map<string, int>>

    constructor (licensesAnswer: (string, seq<string>) -> Option<map<string, int>>)
      ensures this.licensesAnswer == licensesAnswer
    {
      this.licensesAnswer := licensesAnswer;
    }

    method GetLicensesByCustomerId(customersId: string, licenseKeys: seq<string>) returns (r: Option<map<string, int>>)
      ensures r == licensesAnswer(customersId, licenseKeys)
    {
      r := licensesAnswer(customersId, licenseKeys);
    }
  }

  /**
   * `(int)$allowedLicences[$licenseKey]`: the count for the key, and 0
   * (PHP's cast of the missing entry's `null`) when the answer lacks it.
   */
  function AllowedFor(licences: map<string, int>, licenseKey: string): int
  {
    if licenseKey in licences then licences[licenseKey] else 0
  }

  /**
   * The four reads that precede the decision, in order: the licence key,
   * the allowed count, the used count and the existing record. `None` when
   * any of them fails.
   */
  function Gather(licenseKey: Option<string>, licences: string -> Option<map<string, int>>,
                  used: Option<int>, record: Option<Option<UsageRecord>>): (r: Option<Counts>)
    ensures r.Some? <==> licenseKey.Some? && licences(licenseKey.value).Some? && used.Some? && record.Some?
    ensures r.Some? ==> r.value == Counts(AllowedFor(licences(licenseKey.value).value, licenseKey.value), used.value, record.value)
  {
    match licenseKey
    case None => None
    case Some(key) =>
      match licences(key)
      case None => None
      case Some(m) =>
        match used
        case None => None
        case Some(u) =>
          match record
          case None => None
          case Some(rec) => Some(Counts(AllowedFor(m, key), u, rec))
  }

  /** Whether the store's write is reached: the reads succeeded and the decision is to register. */
  predicate Writes(counts: Option<Counts>, imei: string)
  {
    counts.Some? && Decide(counts.value.allowed, counts.value.used, counts.value.record, imei).Register?
  }

  /** How the call ends, given the reads and whether the write (if reached) returns normally. */
  function AdmissionOutcome(counts: Option<Counts>, imei: string, writeOk: bool): (o: Outcome)
    ensures counts.None? ==> o == ExecuteError(ReadingLicences)
    ensures counts.Some? && Decide(counts.value.allowed, counts.value.used, counts.value.record, imei).Reject? ==>
      o == Rejected(Decide(counts.value.allowed, counts.value.used, counts.value.record, imei).rejection)
    ensures counts.Some? && Decide(counts.value.allowed, counts.value.used, counts.value.record, imei).Fail? ==>
      o == LogicError(Decide(counts.value.allowed, counts.value.used, counts.value.record, imei).fault)
    ensures o == Registered <==> Writes(counts, imei) && writeOk
    ensures o == ExecuteError(WritingUsage) <==> Writes(counts, imei) && !writeOk
  {
    match counts
    case None => ExecuteError(ReadingLicences)
    case Some(c) =>
      match Decide(c.allowed, c.used, c.record, imei)
      case Register => if writeOk then Registered else ExecuteError(WritingUsage)
      case Reject(r) => Rejected(r)
      case Fail(f) => LogicError(f)
  }

  /** Every rejection and every fault leaves the store untouched; every write comes from an admission. */
  lemma RejectionsDoNotWrite(counts: Option<Counts>, imei: string, writeOk: bool)
    ensures AdmissionOutcome(counts, imei, writeOk).Rejected? || AdmissionOutcome(counts, imei, writeOk).LogicError?
      ==> !Writes(counts, imei)
    ensures Writes(counts, imei) ==>
      Admissible(counts.value.allowed, counts.value.used, counts.value.record, imei)
  {
  }

  /** A failed read ends the call before any decision: the outcome is the same whatever the other values would have been. */
  lemma ReadFailureBeforeDecision(licenseKey: Option<string>, licences: string -> Option<map<string, int>>,
                                  used: Option<int>, record: Option<Option<UsageRecord>>, imei: string, writeOk: bool)
    requires licenseKey.None? || licences(licenseKey.value).None? || used.None? || record.None?
    ensures AdmissionOutcome(Gather(licenseKey, licences, used, record), imei, writeOk) == ExecuteError(ReadingLicences)
    ensures !Writes(Gather(licenseKey, licences, used, record), imei)
  {
  }

  /** `MobileAppUserService`: the seat-admission entry point and two delegations to the store. */
  class MobileAppUserService {
    const activeUsers: ActiveUsersStore
    const cloudLicenses: CloudLicenses
    /** `MobileAppTypeToLicenseKeyTransformer::transform`: `None` where it throws. */
    const licenseKeyOf: string -> Option<string>

    constructor (activeUsers: ActiveUsersStore, cloudLicenses: CloudLicenses, licenseKeyOf: string -> Option<string>)
      ensures this.activeUsers == activeUsers && this.cloudLicenses == cloudLicenses
      ensures this.licenseKeyOf == licenseKeyOf
    {
      this.activeUsers := activeUsers;
      this.cloudLicenses := cloudLicenses;
      this.licenseKeyOf := licenseKeyOf;
    }

    /** What the four reads return for this call. */
    function CountsFor(appType: string, user: User): Option<Counts>
    {
      Gather(licenseKeyOf(appType), key => cloudLicenses.licensesAnswer(user.customersId, [key]),
             activeUsers.usedCountAnswer(appType, user.customersId),
             activeUsers.usageRecordAnswer(appType, user.id))
    }

    /**
     * `registerAppUsageByUser`: reads the counts and the record, decides,
     * and writes `(appType, userId, customersId, token, imei)` to the
     * store exactly once when the user is admitted, and never otherwise.
     */
    method RegisterAppUsageByUser(appType: string, user: User, token: string, imei: string) returns (o: Outcome)
      modifies activeUsers`registrations
      ensures var reg := Registration(appType, user.id, user.customersId, token, imei);
        && o == AdmissionOutcome(CountsFor(appType, user), imei, activeUsers.writeAnswer(reg))
        && activeUsers.registrations ==
             old(activeUsers.registrations) + (if Writes(CountsFor(appType, user), imei) then [reg] else [])
    {
      var licenseKey := licenseKeyOf(appType);
      if licenseKey.None? {
        return ExecuteError(ReadingLicences);
      }
      var allowedLicences := cloudLicenses.GetLicensesByCustomerId(user.customersId, [licenseKey.value]);
      if allowedLicences.None? {
        return ExecuteError(ReadingLicences);
      }
      var allowed := AllowedFor(allowedLicences.value, licenseKey.value);
      var usedLicences := activeUsers.GetUsedMobileAppLicensesCount(appType, user.customersId);
      if usedLicences.None? {
        return ExecuteError(ReadingLicences);
      }
      var licenseUsedByUser := activeUsers.GetLicenseUsedByUser(appType, user.id);
      if licenseUsedByUser.None? {
        return ExecuteError(ReadingLicences);
      }
      var decision := Decide(allowed, usedLicences.value, licenseUsedByUser.value, imei);
      match decision
      case Reject(r) => return Rejected(r);
      case Fail(f) => return LogicError(f);
      case Register =>
        var ok := activeUsers.RegisterAppUsageByUser(appType, user.id, user.customersId, token, imei);
        o := if ok then Registered else ExecuteError(WritingUsage);
    }

    /** `deactivateNonActiveUsers`: one delegation to the store. */
    method DeactivateNonActiveUsers()
      modifies activeUsers`deactivationRuns
      ensures activeUsers.deactivationRuns == old(activeUsers.deactivationRuns) + 1
    {
      activeUsers.DeactivateNonActiveUsers();
    }

    /** `unregisterAppUsageByUser`: one delegation to the store. */
    method UnregisterAppUsageByUser(appType: string, userId: int, imei: string)
      modifies activeUsers`unregistrations
      ensures activeUsers.unregistrations == old(activeUsers.unregistrations) + [Unregistration(appType, userId, imei)]
    {
      activeUsers.UnregisterAppUsageByUser(appType, userId, imei);
    }
  }
}
