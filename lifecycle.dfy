/** Value-level model of one battery's lifecycle (class Battery in hubsim/batteries.py).
    Every generator of the source is cut at its `yield` points: `charge` is ChargeBegin,
    ChargeEnd and Queue; `discharge` is DischargeBegin, DischargeEnd and Queue.
    The durations the generators wait for are irrelevant to the state and are dropped. */
module BatteryLifecycle {

  /** BatteryStatus, an IntEnum. */
  datatype Status = ChargingQueue | ChargingActive | ChargingInactive | DeploymentQueue | Deployed

  /** The integer value of each enum member. */
  function Value(s: Status): (v: nat)
    ensures v < 5
    ensures v == 0 <==> s == ChargingQueue
    ensures v == 3 <==> s == DeploymentQueue
  {
    match s
    case ChargingQueue => 0
    case ChargingActive => 1
    case ChargingInactive => 2
    case DeploymentQueue => 3
    case Deployed => 4
  }

  /** The two fields a battery's own methods update. */
  datatype BatteryState = BatteryState(charged: bool, status: Status)

  /** The failed `assert`s of the source (and the ValueError of `list.remove`). */
  datatype Failure = AlreadyCharged | AlreadyDischarged | AlreadyQueued | NotInList

  datatype Result<T> = Ok(value: T) | Err(failure: Failure)

  datatype Outcome = Pass | Fail(failure: Failure)

  /** The imperative step left the fields in `after` and reported `r` exactly as `spec` says,
      with the fields untouched on failure. */
  predicate Realizes(spec: Result<BatteryState>, before: BatteryState, after: BatteryState, r: Outcome) {
    match spec
    case Ok(s) => r == Pass && after == s
    case Err(f) => r == Fail(f) && after == before
  }

  /** Status agrees with the charge flag. */
  predicate Consistent(b: BatteryState) {
    match b.status
    case ChargingQueue | ChargingActive => !b.charged
    case ChargingInactive | DeploymentQueue | Deployed => b.charged
  }

  /** The one mismatch the source passes through: discharged, not yet re-queued. */
  predicate Transient(b: BatteryState) {
    b.status == Deployed && !b.charged
  }

  predicate Invariant(b: BatteryState) {
    Consistent(b) || Transient(b)
  }

  predicate Queued(b: BatteryState) {
    b.status == DeploymentQueue || b.status == ChargingQueue
  }

  /** Battery.__init__: the queue status is chosen from the (randomly drawn) charge flag. */
  function Initial(charged: bool): (b: BatteryState)
    ensures b.charged == charged
    ensures Queued(b) && Consistent(b)
  {
    if charged then BatteryState(charged, DeploymentQueue) else BatteryState(charged, ChargingQueue)
  }

  /** `charge` up to its first yield: refuse a charged battery, else start charging. */
  function ChargeBegin(b: BatteryState): (r: Result<BatteryState>)
    ensures r.Ok? <==> !b.charged
    ensures r.Err? ==> r.failure == AlreadyCharged
    ensures r.Ok? ==> r.value.status == ChargingActive && Consistent(r.value)
  {
    if b.charged then Err(AlreadyCharged)
    else Ok(b.(status := ChargingActive))
  }

  /** `charge` after the charging timeout: charged, not yet queued. */
  function ChargeEnd(b: BatteryState): (r: BatteryState)
    ensures r == BatteryState(true, ChargingInactive)
    ensures r.charged && Consistent(r) && !Queued(r)
  {
    b.(charged := true, status := ChargingInactive)
  }

  /** `_queue`: refuse a battery already in a queue, else pick the queue from the charge flag alone. */
  function Queue(b: BatteryState): (r: Result<BatteryState>)
    ensures r.Ok? <==> !Queued(b)
    ensures r.Err? ==> r.failure == AlreadyQueued
    ensures r.Ok? ==> r.value.charged == b.charged && Queued(r.value) && Consistent(r.value)
  {
    if Value(b.status) in [Value(DeploymentQueue), Value(ChargingQueue)] then Err(AlreadyQueued)
    else if b.charged then Ok(b.(status := DeploymentQueue))
    else Ok(b.(status := ChargingQueue))
  }

  /** `discharge` up to its first yield: refuse an uncharged battery, else deploy it. */
  function DischargeBegin(b: BatteryState): (r: Result<BatteryState>)
    ensures r.Ok? <==> b.charged
    ensures r.Err? ==> r.failure == AlreadyDischarged
    ensures r.Ok? ==> r.value.status == Deployed && Consistent(r.value)
  {
    if !b.charged then Err(AlreadyDischarged)
    else Ok(b.(status := Deployed))
  }

  /** `discharge` after the discharging timeout: only the charge flag drops. */
  function DischargeEnd(b: BatteryState): (r: BatteryState)
    ensures !r.charged && r.status == b.status
    ensures b.status == Deployed ==> Transient(r) && Invariant(r)
    ensures Invariant(r) <==> b.status == Deployed || b.status == ChargingQueue || b.status == ChargingActive
  {
    b.(charged := false)
  }

  /** The whole `charge` generator. */
  function Charge(b: BatteryState): (r: Result<BatteryState>)
    ensures r.Ok? <==> !b.charged
    ensures r.Err? ==> r.failure == AlreadyCharged
    ensures r.Ok? ==> r.value == BatteryState(true, DeploymentQueue)
  {
    match ChargeBegin(b)
    case Err(f) => Err(f)
    case Ok(active) => Queue(ChargeEnd(active))
  }

  /** The whole `discharge` generator. */
  function Discharge(b: BatteryState): (r: Result<BatteryState>)
    ensures r.Ok? <==> b.charged
    ensures r.Err? ==> r.failure == AlreadyDischarged
    ensures r.Ok? ==> r.value == BatteryState(false, ChargingQueue)
  {
    match DischargeBegin(b)
    case Err(f) => Err(f)
    case Ok(deployed) => Queue(DischargeEnd(deployed))
  }

  /** The states between the steps of `charge` and `discharge` that no single step's contract names:
      charging ends in a consistent state, and discharging ends in the transient one. */
  lemma StepsKeepInvariant(b: BatteryState)
    ensures ChargeBegin(b).Ok? ==> Invariant(ChargeEnd(ChargeBegin(b).value))
    ensures DischargeBegin(b).Ok? ==> Transient(DischargeEnd(DischargeBegin(b).value))
  {
  }

  /** The activities a battery is put through over a run. */
  datatype Activity = Charging | Discharging

  /** Running activities one after another, stopping at the first failed assertion. */
  function Run(b: BatteryState, acts: seq<Activity>): Result<BatteryState>
    decreases |acts|
  {
    if acts == [] then Ok(b)
    else
      var step := if acts[0] == Charging then Charge(b) else Discharge(b);
      match step
      case Err(f) => Err(f)
      case Ok(next) => Run(next, acts[1..])
  }

  /** Charging and discharging strictly alternate, starting with whichever the flag allows. */
  predicate Alternating(charged: bool, acts: seq<Activity>)
    decreases |acts|
  {
    acts == [] || (acts[0] == (if charged then Discharging else Charging) && Alternating(!charged, acts[1..]))
  }

  /** A run succeeds exactly when it alternates, and a non-empty successful run leaves the battery
      queued and consistent, charged iff it started charged and ran an even number of activities. */
  lemma {:induction false} RunSucceedsIffAlternating(b: BatteryState, acts: seq<Activity>)
    ensures Run(b, acts).Ok? <==> Alternating(b.charged, acts)
    ensures Run(b, acts).Ok? && acts != [] ==> Run(b, acts).value == Initial(b.charged != (|acts| % 2 == 1))
    decreases |acts|
  {
    if acts != [] {
      var step := if acts[0] == Charging then Charge(b) else Discharge(b);
      if step.Ok? {
        RunSucceedsIffAlternating(step.value, acts[1..]);
      }
    }
  }
}
