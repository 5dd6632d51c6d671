/** The objects of hubsim/batteries.py: a Battery whose methods update its fields step by step, and
    a BatteryStore that keeps its queues as lists it appends to and removes from in place.
    Each method is specified by the value-level functions of BatteryLifecycle and BatteryQueues. */
module Batteries {
  import opened BatteryLifecycle
  import opened BatteryQueues

  class Battery {
    const id: nat
    var charged: bool
    var status: Status
    /** Number of processes currently holding this battery (the Resource's `count`). */
    var count: nat

    function State(): BatteryState
      reads this
    {
      BatteryState(charged, status)
    }

    /** What a reconciliation pass reads from this battery. */
    function Snapshot(): View
      reads this
    {
      View(count, status, charged)
    }

    /** Battery.__init__, with the random charge draw passed in. */
    constructor (id: nat, drawnCharged: bool)
      ensures this.id == id && count == 0
      ensures State() == Initial(drawnCharged)
    {
      this.id := id;
      charged := drawnCharged;
      count := 0;
      new;
      if charged {
        status := DeploymentQueue;
      } else {
        status := ChargingQueue;
      }
    }

    /** `charge` up to the charging timeout. */
    method ChargeBegin() returns (r: Outcome)
      modifies this
      ensures count == old(count)
      ensures Realizes(BatteryLifecycle.ChargeBegin(old(State())), old(State()), State(), r)
    {
      if charged {
        return Fail(AlreadyCharged);
      }
      status := ChargingActive;
      r := Pass;
    }

    /** `charge` after the charging timeout. */
    method ChargeEnd()
      modifies this
      ensures count == old(count)
      ensures State() == BatteryLifecycle.ChargeEnd(old(State()))
    {
      charged := true;
      status := ChargingInactive;
    }

    /** `_queue`; its zero-length timeout is dropped. */
    method Queue() returns (r: Outcome)
      modifies this
      ensures count == old(count)
      ensures Realizes(BatteryLifecycle.Queue(old(State())), old(State()), State(), r)
    {
      if status == DeploymentQueue || status == ChargingQueue {
        return Fail(AlreadyQueued);
      }
      if charged {
        status := DeploymentQueue;
      } else {
        status := ChargingQueue;
      }
      r := Pass;
    }

    /** `discharge` up to the discharging timeout. */
    method DischargeBegin() returns (r: Outcome)
      modifies this
      ensures count == old(count)
      ensures Realizes(BatteryLifecycle.DischargeBegin(old(State())), old(State()), State(), r)
    {
      if !charged {
        return Fail(AlreadyDischarged);
      }
      status := Deployed;
      r := Pass;
    }

    /** `discharge` after the discharging timeout. */
    method DischargeEnd()
      modifies this
      ensures count == old(count)
      ensures State() == BatteryLifecycle.DischargeEnd(old(State()))
    {
      charged := false;
    }

    /** The whole `charge` process: on success the battery ends charged in DEPLOYMENT_QUEUE. */
    method Charge() returns (r: Outcome)
      modifies this
      ensures count == old(count)
      ensures Realizes(BatteryLifecycle.Charge(old(State())), old(State()), State(), r)
      ensures r == Pass <==> !old(charged)
      ensures r == Pass ==> charged && status == DeploymentQueue
    {
      r := ChargeBegin();
      if r.Fail? {
        return;
      }
      ChargeEnd();
      r := Queue();
    }

    /** The whole `discharge` process: on success the battery ends discharged in CHARGING_QUEUE. */
    method Discharge() returns (r: Outcome)
      modifies this
      ensures count == old(count)
      ensures Realizes(BatteryLifecycle.Discharge(old(State())), old(State()), State(), r)
      ensures r == Pass <==> old(charged)
      ensures r == Pass ==> !charged && status == ChargingQueue
    {
      r := DischargeBegin();
      if r.Fail? {
        return;
      }
      DischargeEnd();
      r := Queue();
    }
  }

  /** What a reconciliation pass reads from each battery of bs, in order. */
  function Views(bs: seq<Battery>): (vs: seq<View>)
    reads set b | b in bs
    ensures |vs| == |bs|
    ensures forall i :: 0 <= i < |bs| ==> vs[i] == bs[i].Snapshot()
    decreases |bs|
  {
    if bs == [] then []
    else Views(bs[..|bs| - 1]) + [bs[|bs| - 1].Snapshot()]
  }

  class BatteryStore {
    const batteries: seq<Battery>
    var chargeQueue: seq<Battery>
    var deployQueue: seq<Battery>
    /** The charger processes launched so far, each named by its battery. */
    var chargeProcessQueue: seq<Battery>
    /** The monitor's battery counters. */
    var batteriesCharged: nat
    var batteriesDischarged: nat

    /** The three lists the store keeps. */
    function Lists(): Queues<Battery>
      reads this
    {
      Queues(chargeQueue, deployQueue, chargeProcessQueue)
    }

    /** Batteries are distinct and numbered by position; both queues are duplicate-free lists of them. */
    ghost predicate Valid()
      reads this
    {
      && NoDup(batteries)
      && (forall i :: 0 <= i < |batteries| ==> batteries[i].id == i)
      && NoDup(chargeQueue) && NoDup(deployQueue)
      && (forall b :: b in chargeQueue ==> b in batteries)
      && (forall b :: b in deployQueue ==> b in batteries)
    }

    /** Every battery in the charge queue is uncharged and every battery in the deploy queue is charged,
        so no battery is in both. */
    ghost predicate QueuesMatchCharge()
      reads this, (set b | b in chargeQueue), (set b | b in deployQueue)
    {
      && (forall b :: b in chargeQueue ==> !b.charged)
      && (forall b :: b in deployQueue ==> b.charged)
    }

    /** BatteryStore.__init__: one battery per draw, then the split of the list by charge flag. */
    constructor (drawn: seq<bool>)
      ensures Valid() && QueuesMatchCharge() && Disjoint(chargeQueue, deployQueue)
      ensures |batteries| == |drawn|
      ensures forall i :: 0 <= i < |batteries| ==> fresh(batteries[i])
      ensures forall i :: 0 <= i < |drawn| ==> batteries[i].State() == Initial(drawn[i]) && batteries[i].count == 0
      ensures chargeQueue == Pick(batteries, drawn, false)
      ensures deployQueue == Pick(batteries, drawn, true)
      ensures forall b :: b in batteries ==> (b in chargeQueue <==> b !in deployQueue)
      ensures chargeProcessQueue == []
      ensures batteriesCharged == 0 && batteriesDischarged == 0
    {
      var bs: seq<Battery> := [];
      for i := 0 to |drawn|
        invariant |bs| == i
        invariant NoDup(bs)
        invariant forall k :: 0 <= k < i ==> fresh(bs[k])
        invariant forall k :: 0 <= k < i ==> bs[k].id == k && bs[k].count == 0
        invariant forall k :: 0 <= k < i ==> bs[k].State() == Initial(drawn[k])
      {
        var b := new Battery(i, drawn[i]);
        bs := bs + [b];
      }
      batteries := bs;
      chargeQueue := Pick(bs, drawn, false);
      deployQueue := Pick(bs, drawn, true);
      chargeProcessQueue := [];
      batteriesCharged := 0;
      batteriesDischarged := 0;
      new;
      SplitPartitions(bs, drawn);
      forall b | b in chargeQueue ensures !b.charged {
        PickMember(bs, drawn, false, b);
      }
      forall b | b in deployQueue ensures b.charged {
        PickMember(bs, drawn, true, b);
      }
    }

    /** One reconciliation pass of `run_battery_store` (the body of its `while True` after the tick timeout). */
    method Reconcile()
      requires Valid() && QueuesMatchCharge()
      modifies this
      ensures Valid() && QueuesMatchCharge() && Disjoint(chargeQueue, deployQueue)
      ensures Lists() == Reconciled(old(Lists()), batteries, Views(batteries))
      ensures chargeProcessQueue == old(chargeProcessQueue) + Launched(batteries, Views(batteries), chargeQueue)
      ensures forall b :: b in batteries && b.count > 0 ==>
        && (b in chargeQueue <==> b in old(chargeQueue))
        && (b in deployQueue <==> b in old(deployQueue))
        && b !in chargeProcessQueue[|old(chargeProcessQueue)|..]
      ensures batteriesCharged == old(batteriesCharged) && batteriesDischarged == old(batteriesDischarged)
    {
      ghost var q0 := Lists();
      ghost var vs := Views(batteries);
      for i := 0 to |batteries|
        invariant Lists() == Reconciled(q0, batteries[..i], vs[..i])
        invariant batteriesCharged == old(batteriesCharged) && batteriesDischarged == old(batteriesDischarged)
      {
        assert batteries[..i + 1][..i] == batteries[..i] && vs[..i + 1][..i] == vs[..i];
        var battery := batteries[i];
        if battery.count > 0 {
          continue;
        }
        if battery.status == DeploymentQueue && battery !in deployQueue && battery.charged {
          deployQueue := deployQueue + [battery];
        } else if battery.status == ChargingQueue && battery !in chargeQueue && !battery.charged {
          chargeQueue := chargeQueue + [battery];
        }
        if battery in chargeQueue {
          chargeProcessQueue := chargeProcessQueue + [battery];
        }
      }
      assert batteries[..|batteries|] == batteries && vs[..|batteries|] == vs;
      PassKeepsNoDup(q0, batteries, vs);
      forall b | b in chargeQueue ensures b in batteries && !b.charged {
        PassChargeMember(q0, batteries, vs, b);
      }
      forall b | b in deployQueue ensures b in batteries && b.charged {
        PassDeployMember(q0, batteries, vs, b);
      }
      PassLaunches(q0, batteries, vs);
      forall b | b in batteries && b.count > 0
        ensures (b in chargeQueue <==> b in q0.charge) && (b in deployQueue <==> b in q0.deploy)
        ensures b !in chargeProcessQueue[|q0.launched|..]
      {
        PassSkipsHeld(q0, batteries, vs, b);
      }
    }

    /** `_charge_battery`: hold the battery, run `charge`, count it, release the battery. */
    method ChargeBattery(b: Battery) returns (r: Outcome)
      requires Valid() && b in batteries
      modifies this, b
      ensures Valid() && Lists() == old(Lists())
      ensures b.count == old(b.count)
      ensures Realizes(BatteryLifecycle.Charge(old(b.State())), old(b.State()), b.State(), r)
      ensures batteriesCharged == old(batteriesCharged) + (if r.Pass? then 1 else 0)
      ensures batteriesDischarged == old(batteriesDischarged)
    {
      b.count := b.count + 1;
      r := b.Charge();
      if r.Pass? {
        batteriesCharged := batteriesCharged + 1;
      }
      b.count := b.count - 1;
    }

    /** `_discharge_battery`: hold the battery, run `discharge`, count it, release the battery. */
    method DischargeBattery(b: Battery) returns (r: Outcome)
      requires Valid() && b in batteries
      modifies this, b
      ensures Valid() && Lists() == old(Lists())
      ensures b.count == old(b.count)
      ensures Realizes(BatteryLifecycle.Discharge(old(b.State())), old(b.State()), b.State(), r)
      ensures batteriesDischarged == old(batteriesDischarged) + (if r.Pass? then 1 else 0)
      ensures batteriesCharged == old(batteriesCharged)
    {
      b.count := b.count + 1;
      r := b.Discharge();
      if r.Pass? {
        batteriesDischarged := batteriesDischarged + 1;
      }
      b.count := b.count - 1;
    }

    /** `self.charge_queue.remove(battery)`. */
    method FinishCharging(b: Battery) returns (r: Outcome)
      requires Valid()
      modifies this
      ensures Valid()
      ensures r == (if b in old(chargeQueue) then Pass else Fail(NotInList))
      ensures chargeQueue == (if r.Pass? then RemoveFirst(old(chargeQueue), b).value else old(chargeQueue))
      ensures b !in chargeQueue
      ensures forall x :: x != b ==> (x in chargeQueue <==> x in old(chargeQueue))
      ensures deployQueue == old(deployQueue) && chargeProcessQueue == old(chargeProcessQueue)
      ensures batteriesCharged == old(batteriesCharged) && batteriesDischarged == old(batteriesDischarged)
    {
      match RemoveFirst(chargeQueue, b)
      case Err(f) =>
        r := Fail(f);
      case Ok(rest) =>
        RemoveFirstNoDup(chargeQueue, b);
        chargeQueue := rest;
        r := Pass;
    }

    /** `self.deploy_queue.remove(battery)`. */
    method FinishDeployment(b: Battery) returns (r: Outcome)
      requires Valid()
      modifies this
      ensures Valid()
      ensures r == (if b in old(deployQueue) then Pass else Fail(NotInList))
      ensures deployQueue == (if r.Pass? then RemoveFirst(old(deployQueue), b).value else old(deployQueue))
      ensures b !in deployQueue
      ensures forall x :: x != b ==> (x in deployQueue <==> x in old(deployQueue))
      ensures chargeQueue == old(chargeQueue) && chargeProcessQueue == old(chargeProcessQueue)
      ensures batteriesCharged == old(batteriesCharged) && batteriesDischarged == old(batteriesDischarged)
    {
      match RemoveFirst(deployQueue, b)
      case Err(f) =>
        r := Fail(f);
      case Ok(rest) =>
        RemoveFirstNoDup(deployQueue, b);
        deployQueue := rest;
        r := Pass;
    }

    /** `_run_chargers` once its charger is granted: charge the battery, then take it off the charge
        queue. A failed charge leaves the queue as it was. */
    method RunCharger(b: Battery) returns (r: Outcome)
      requires Valid() && QueuesMatchCharge() && b in batteries
      modifies this, b
      ensures Valid() && QueuesMatchCharge() && Disjoint(chargeQueue, deployQueue)
      ensures b.count == old(b.count)
      ensures r == (if old(b.charged) then Fail(AlreadyCharged) else if b !in old(chargeQueue) then Fail(NotInList) else Pass)
      ensures b.State() == (if old(b.charged) then old(b.State()) else BatteryState(true, DeploymentQueue))
      ensures chargeQueue == (if r.Pass? then RemoveFirst(old(chargeQueue), b).value else old(chargeQueue))
      ensures deployQueue == old(deployQueue) && chargeProcessQueue == old(chargeProcessQueue)
      ensures batteriesCharged == old(batteriesCharged) + (if old(b.charged) then 0 else 1)
      ensures batteriesDischarged == old(batteriesDischarged)
    {
      r := ChargeBattery(b);
      if r.Fail? {
        return;
      }
      r := FinishCharging(b);
    }

    /** `_run_deployment`: discharge the battery, then take it off the deploy queue.
        A failed discharge leaves the queue as it was. */
    method RunDeployment(b: Battery) returns (r: Outcome)
      requires Valid() && QueuesMatchCharge() && b in batteries
      modifies this, b
      ensures Valid() && QueuesMatchCharge() && Disjoint(chargeQueue, deployQueue)
      ensures b.count == old(b.count)
      ensures r == (if !old(b.charged) then Fail(AlreadyDischarged) else if b !in old(deployQueue) then Fail(NotInList) else Pass)
      ensures b.State() == (if !old(b.charged) then old(b.State()) else BatteryState(false, ChargingQueue))
      ensures deployQueue == (if r.Pass? then RemoveFirst(old(deployQueue), b).value else old(deployQueue))
      ensures chargeQueue == old(chargeQueue) && chargeProcessQueue == old(chargeProcessQueue)
      ensures batteriesDischarged == old(batteriesDischarged) + (if old(b.charged) then 1 else 0)
      ensures batteriesCharged == old(batteriesCharged)
    {
      r := DischargeBattery(b);
      if r.Fail? {
        return;
      }
      r := FinishDeployment(b);
    }
  }
}
