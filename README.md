# Battery lifecycle and battery-queue bookkeeping of hubsim

This project models, in Dafny, the part of the hubsim logistics-hub simulation that the repository
implements itself: the battery state machine and the battery store's queue bookkeeping
(`hubsim/batteries.py`).

- A `Battery` has a `charged` flag and a `status` with five values (`BatteryStatus`).
  It has three processes.
  - `charge` refuses a charged battery, then goes CHARGING_ACTIVE, then charged and CHARGING_INACTIVE, then queues.
  - `discharge` refuses an uncharged battery, then goes DEPLOYED, then uncharged, then queues.
  - `_queue` refuses a battery already in a queue, then picks DEPLOYMENT_QUEUE or CHARGING_QUEUE from the flag alone.
- A `BatteryStore` owns the batteries.
  - Its constructor splits them into `charge_queue` and `deploy_queue`.
  - Its periodic pass skips held batteries and appends eligible ones to the matching list after a membership check.
    It then launches a charger process for every idle battery found in `charge_queue`.
  - The charger and deployment processes take their battery off its list once the activity ends.

Layout:

- `lifecycle.dfy`, module `BatteryLifecycle`: the battery fields as a value. Each generator is cut at its
  `yield` points into pure steps (`ChargeBegin`, `ChargeEnd`, `Queue`, `DischargeBegin`, `DischargeEnd`).
  The whole processes are `Charge` and `Discharge`. `Consistent`/`Transient`/`Invariant` state how
  status and flag may combine.
- `queues.dfy`, module `BatteryQueues`: the list operations on values.
  - `Pick` is the constructor's `filter`; `RemoveFirst` is `list.remove`.
  - `Reconciled` is one pass of the reconciliation loop over a snapshot (`View`) of each battery's held count and fields.
  - Batteries are compared by identity, as Python's `in` and `remove` do for these objects.
- `batteries.dfy`, module `Batteries`: the imperative model.
  - Class `Battery` has fields `charged`, `status` and `count` (its holder count).
  - Class `BatteryStore` keeps its lists as `seq` fields that its methods reassign, and the pass is a `for` loop.
  - Every method's `ensures` ties the new state to the functions above.

Failed `assert`s of the source become `Fail(...)` outcomes that leave the battery untouched, since each
assertion runs before any field update. The `ValueError` of `list.remove` on a missing battery becomes
`Fail(NotInList)`. The random draw of each battery's initial charge is the constructor's parameter `drawn`.

Three behaviours of the code are easy to miss.

- A deployed battery is not always charged. `discharge` clears the flag while the status is still DEPLOYED,
  until `_queue` runs. `DischargeEnd` and `Transient` model that.
- Charger processes are not only launched for newly queued batteries. The pass launches one for every idle
  battery present in `charge_queue` at its visit (`PassLaunches`).
- The pass does not check the other list before appending. `PassKeepsDisjoint` states the condition under which
  "never in both queues" survives a pass. The store keeps a stronger fact, `QueuesMatchCharge`: every battery in
  `charge_queue` is uncharged and every battery in `deploy_queue` is charged. It holds after construction and is
  preserved by a pass and by a complete charger or deployment process, so the lists stay disjoint.

## Model

| member | source | states |
|---|---|---|
| BatteryLifecycle.Value | hubsim/batteries.py:16-23 | the enum values are below 5; 0 is exactly CHARGING_QUEUE and 3 exactly DEPLOYMENT_QUEUE |
| BatteryLifecycle.Initial | hubsim/batteries.py:39-49 | a new battery keeps its drawn flag, is in a queue, and is consistent, so it is in DEPLOYMENT_QUEUE iff charged |
| BatteryLifecycle.ChargeBegin | hubsim/batteries.py:62-67 | fails with AlreadyCharged exactly on a charged battery; otherwise the status is CHARGING_ACTIVE and the state is consistent |
| BatteryLifecycle.ChargeEnd | hubsim/batteries.py:70-72 | after charging the battery is exactly charged with status CHARGING_INACTIVE: consistent and in no queue |
| BatteryLifecycle.Queue | hubsim/batteries.py:96-119 | fails with AlreadyQueued exactly when the status is one of the two queues; otherwise only the status changes, to a queue consistent with the unchanged flag |
| BatteryLifecycle.DischargeBegin | hubsim/batteries.py:83-87 | fails with AlreadyDischarged exactly on an uncharged battery; otherwise DEPLOYED and consistent |
| BatteryLifecycle.DischargeEnd | hubsim/batteries.py:90-91 | clears the flag and keeps the status; from DEPLOYED it yields the one transient state; the result keeps Invariant iff the status was DEPLOYED, CHARGING_QUEUE or CHARGING_ACTIVE |
| BatteryLifecycle.Charge | hubsim/batteries.py:55-75 | the whole charge succeeds iff the battery was uncharged and then leaves it charged in DEPLOYMENT_QUEUE; otherwise AlreadyCharged |
| BatteryLifecycle.Discharge | hubsim/batteries.py:77-94 | the whole discharge succeeds iff the battery was charged and then leaves it uncharged in CHARGING_QUEUE; otherwise AlreadyDischarged |
| BatteryLifecycle.StepsKeepInvariant | hubsim/batteries.py:62-119 | the state charging ends in satisfies Invariant, and the state discharging ends in is the transient one |
| BatteryLifecycle.RunSucceedsIffAlternating | hubsim/batteries.py:55-119 | a sequence of charges and discharges succeeds iff it alternates starting from the battery's flag; a non-empty successful one ends queued and consistent with the flag flipped once per activity |
| BatteryQueues.Pick | hubsim/batteries.py:135-136 | the filtered list is no longer than the battery list and holds only its batteries |
| BatteryQueues.PickMember | hubsim/batteries.py:135-136 | a battery is in a filtered list iff it sits at a position whose charge flag matches |
| BatteryQueues.PickPartition | hubsim/batteries.py:132-136 | the two filtered lists together hold every battery exactly as often as the battery list (their lengths add up) |
| BatteryQueues.PickSubsequence | hubsim/batteries.py:135-136 | each filtered list keeps the original battery order |
| BatteryQueues.SplitPartitions | hubsim/batteries.py:132-136 | over distinct batteries, each battery is in exactly one of charge_queue and deploy_queue, both lists duplicate-free and in battery order |
| BatteryQueues.RemoveFirst | hubsim/batteries.py:193-201 | remove succeeds iff the battery is present (otherwise NotInList); it deletes the first occurrence and keeps every other element in order |
| BatteryQueues.RemoveFirstNoDup | hubsim/batteries.py:193-201 | on a duplicate-free list remove leaves it duplicate-free, without the battery, all others kept |
| BatteryQueues.Reconciled | hubsim/batteries.py:212-237 | a pass, the loop body `Visit` folded over the batteries front to back, only extends charge_queue, deploy_queue and the launched-process list |
| BatteryQueues.PassDeployMember | hubsim/batteries.py:215-224 | after a pass a battery is in deploy_queue iff it was before or an idle visit found it in DEPLOYMENT_QUEUE and charged |
| BatteryQueues.PassChargeMember | hubsim/batteries.py:215-230 | after a pass a battery is in charge_queue iff it was before or an idle visit found it in CHARGING_QUEUE and uncharged |
| BatteryQueues.PassAppendsFresh | hubsim/batteries.py:219-230 | both lists only grow by appending, and each appended battery was absent from its list when appended |
| BatteryQueues.PassKeepsNoDup | hubsim/batteries.py:219-230 | a duplicate-free deploy_queue and charge_queue stay duplicate-free through a pass |
| BatteryQueues.PassLaunches | hubsim/batteries.py:232-237 | over distinct batteries, the pass launches charger processes exactly for the idle batteries in the final charge_queue, in battery-list order |
| BatteryQueues.PassSkipsHeld | hubsim/batteries.py:214-216 | a held battery is added to neither list and gets no charger process |
| BatteryQueues.PassKeepsDisjoint | hubsim/batteries.py:212-230 | disjoint lists stay disjoint when no battery already in one list is eligible for the other at its visit |
| Batteries.Battery.constructor | hubsim/batteries.py:39-49 | a new battery is unheld and its fields are `Initial` of its drawn flag |
| Batteries.Battery.ChargeBegin | hubsim/batteries.py:62-67 | updates the fields as `ChargeBegin` says, untouched on the failed assertion |
| Batteries.Battery.ChargeEnd | hubsim/batteries.py:70-72 | updates the fields as `ChargeEnd` says |
| Batteries.Battery.Queue | hubsim/batteries.py:103-119 | updates the fields as `Queue` says, untouched on the failed assertion |
| Batteries.Battery.DischargeBegin | hubsim/batteries.py:83-87 | updates the fields as `DischargeBegin` says, untouched on the failed assertion |
| Batteries.Battery.DischargeEnd | hubsim/batteries.py:90-91 | updates the fields as `DischargeEnd` says |
| Batteries.Battery.Charge | hubsim/batteries.py:55-75 | the three charge steps in sequence give the fields `Charge` gives: succeeds iff uncharged, ending charged in DEPLOYMENT_QUEUE |
| Batteries.Battery.Discharge | hubsim/batteries.py:77-94 | the three discharge steps in sequence give the fields `Discharge` gives: succeeds iff charged, ending uncharged in CHARGING_QUEUE |
| Batteries.BatteryStore.constructor | hubsim/batteries.py:128-137 | one fresh battery per draw, numbered by position; charge_queue and deploy_queue are the flag filters, each battery in exactly one; `QueuesMatchCharge` holds; nothing launched |
| Batteries.BatteryStore.Reconcile | hubsim/batteries.py:212-237 | the loop leaves the lists as `Reconciled` says, launches exactly the idle batteries of the final charge_queue, leaves held batteries out, keeps both lists duplicate-free, and keeps `QueuesMatchCharge`, so the lists stay disjoint |
| Batteries.BatteryStore.ChargeBattery | hubsim/batteries.py:165-177 | runs `Charge` on the battery while holding it, counts a successful charge, releases the hold; the lists are unchanged |
| Batteries.BatteryStore.DischargeBattery | hubsim/batteries.py:179-191 | runs `Discharge` on the battery while holding it, counts a successful discharge, releases the hold; the lists are unchanged |
| Batteries.BatteryStore.FinishCharging | hubsim/batteries.py:197 | removes the battery from charge_queue, failing iff it is absent; every other battery keeps its membership |
| Batteries.BatteryStore.FinishDeployment | hubsim/batteries.py:201 | removes the battery from deploy_queue, failing iff it is absent; every other battery keeps its membership |
| Batteries.BatteryStore.RunCharger | hubsim/batteries.py:193-197 | charges the battery and then removes it from charge_queue; a failed charge stops before the removal, a missing battery fails the removal after the charge; `QueuesMatchCharge` and disjointness are kept |
| Batteries.BatteryStore.RunDeployment | hubsim/batteries.py:199-201 | discharges the battery and then removes it from deploy_queue; a failed discharge stops before the removal; `QueuesMatchCharge` and disjointness are kept |

## Left out

- The discrete-event kernel is not modelled: the clock, the event queue, `Timeout`, process scheduling, `all_of` and `Environment.run/step`. Only the state changes between suspension points are modelled.
- The durations of charging, discharging and `_queue`'s zero-length timeout are dropped, and so is the random tick interval of `run_battery_store`.
- Batteries.Battery.Charge and Batteries.Battery.Discharge run their steps back to back. The split methods let a caller interleave other operations between steps, but no scheduler is modelled.
- The charger pool (`self.chargers`, a `Resource` of `NUM_CHARGERS`) is not modelled. `RunCharger` is `_run_chargers` after its charger is granted, so how many chargers run at once is not captured.
- Batteries.BatteryStore.ChargeBattery and Batteries.BatteryStore.DischargeBattery hold the battery by raising `count` and releasing it afterwards. The waiting of `battery.request()` for a free slot (capacity 1) is the Resource's behaviour and is not modelled.
- A failed assertion is returned as an outcome. Its propagation as a failed process through `all_of` and out of the simulation is not modelled.
- `charge_process_queue` holds process objects in the source. Here each entry is the battery its charger process was launched for. The `all_of` wait over it at line 240 is not modelled.
- Batteries.BatteryStore.Reconcile requires `QueuesMatchCharge` on entry. In the source this holds because the `all_of` wait at line 240 lets every launched charger finish, and so take its battery off `charge_queue`, before the next pass; the wait itself is not modelled, so the precondition stands in for it.
- The `items = self.deploy_queue` alias (line 140), the `FilterStore` behaviour and `BATTERY_STORE_CAPACITY` depend on the store library and are not modelled.
- Batteries.BatteryStore.Reconcile reads each battery through a snapshot (`Views`). This relies on the pass changing no battery field: `env.process` only schedules the new process.
- Battery.__repr__, the `__main__` driver, `hubsim/hub.py`, `hubsim/employees.py`, `hubsim/config.py` and `hubsim/run.py` are not part of this model. They are process glue, presentation, configuration constants and the command-line entry point. Of `DataMonitor`, only the two battery counters are kept, as store fields.
