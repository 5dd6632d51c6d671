/** The list bookkeeping of BatteryStore (hubsim/batteries.py), on values: the `filter` split of the
    constructor, `list.remove`, and one reconciliation pass of `run_battery_store` over a snapshot of
    what it reads from each battery. Batteries are compared by identity, so any `T(==)` stands for them. */
module BatteryQueues {
  import opened BatteryLifecycle

  predicate NoDup<T(==)>(s: seq<T>) {
    forall i, j :: 0 <= i < j < |s| ==> s[i] != s[j]
  }

  predicate Disjoint<T(==)>(s: seq<T>, t: seq<T>) {
    forall x :: x in s ==> x !in t
  }

  /** s keeps the elements it takes from t in t's order. */
  predicate IsSubsequence<T(==)>(s: seq<T>, t: seq<T>)
    decreases |t|
  {
    if s == [] then true
    else if t == [] then false
    else (s[0] == t[0] && IsSubsequence(s[1..], t[1..])) || IsSubsequence(s, t[1..])
  }

  // ---------------------------------------------------------------------------------------------
  // Constructor split: list(filter(lambda batt: batt.charged == want, batteries))

  /** The elements of xs whose flag equals want, in order. */
  function Pick<T>(xs: seq<T>, flags: seq<bool>, want: bool): (r: seq<T>)
    requires |flags| == |xs|
    ensures |r| <= |xs|
    ensures forall x :: x in r ==> x in xs
  {
    if xs == [] then []
    else
      var rest := Pick(xs[1..], flags[1..], want);
      if flags[0] == want then [xs[0]] + rest else rest
  }

  /** x is picked iff some position holding x carries the wanted flag. */
  lemma {:induction false} PickMember<T>(xs: seq<T>, flags: seq<bool>, want: bool, x: T)
    requires |flags| == |xs|
    ensures x in Pick(xs, flags, want) <==> exists i :: 0 <= i < |xs| && xs[i] == x && flags[i] == want
  {
    if xs != [] {
      PickMember(xs[1..], flags[1..], want, x);
      if exists i :: 0 <= i < |xs| && xs[i] == x && flags[i] == want {
        var i :| 0 <= i < |xs| && xs[i] == x && flags[i] == want;
        if i > 0 {
          assert xs[1..][i - 1] == x && flags[1..][i - 1] == want;
        }
      }
    }
  }

  /** The two picks together hold every element exactly as often as xs does. */
  lemma {:induction false} PickPartition<T>(xs: seq<T>, flags: seq<bool>)
    requires |flags| == |xs|
    ensures multiset(Pick(xs, flags, false)) + multiset(Pick(xs, flags, true)) == multiset(xs)
    ensures |Pick(xs, flags, false)| + |Pick(xs, flags, true)| == |xs|
  {
    if xs != [] {
      PickPartition(xs[1..], flags[1..]);
      assert xs == [xs[0]] + xs[1..];
    }
  }

  /** A pick keeps the original order. */
  lemma {:induction false} PickSubsequence<T>(xs: seq<T>, flags: seq<bool>, want: bool)
    requires |flags| == |xs|
    ensures IsSubsequence(Pick(xs, flags, want), xs)
  {
    if xs != [] {
      PickSubsequence(xs[1..], flags[1..], want);
    }
  }

  lemma {:induction false} SubsequenceKeepsNoDup<T>(s: seq<T>, t: seq<T>)
    requires IsSubsequence(s, t) && NoDup(t)
    ensures NoDup(s)
    ensures forall x :: x in s ==> x in t
    decreases |t|
  {
    if s != [] {
      assert NoDup(t[1..]) by {
        forall i, j | 0 <= i < j < |t| - 1 ensures t[1..][i] != t[1..][j] {
          assert t[1..][i] == t[i + 1] && t[1..][j] == t[j + 1];
        }
      }
      if s[0] == t[0] && IsSubsequence(s[1..], t[1..]) {
        SubsequenceKeepsNoDup(s[1..], t[1..]);
        forall i, j | 0 <= i < j < |s| ensures s[i] != s[j] {
          if i == 0 {
            assert s[j] == s[1..][j - 1];
            assert s[j] in t[1..];
            var k :| 0 <= k < |t| - 1 && t[1..][k] == s[j];
            assert t[k + 1] == s[j];
          } else {
            assert s[i] == s[1..][i - 1] && s[j] == s[1..][j - 1];
          }
        }
        forall x | x in s ensures x in t {
          if x != s[0] {
            assert x in s[1..];
          }
        }
      } else {
        SubsequenceKeepsNoDup(s, t[1..]);
      }
    }
  }

  /** Splitting a duplicate-free battery list puts every battery in exactly one of the two lists,
      each list duplicate-free and in the original order. */
  lemma SplitPartitions<T>(xs: seq<T>, charged: seq<bool>)
    requires |charged| == |xs| && NoDup(xs)
    ensures NoDup(Pick(xs, charged, false)) && NoDup(Pick(xs, charged, true))
    ensures IsSubsequence(Pick(xs, charged, false), xs) && IsSubsequence(Pick(xs, charged, true), xs)
    ensures forall x :: x in xs ==> (x in Pick(xs, charged, false) <==> x !in Pick(xs, charged, true))
    ensures forall x :: x in Pick(xs, charged, false) || x in Pick(xs, charged, true) ==> x in xs
  {
    PickSubsequence(xs, charged, false);
    PickSubsequence(xs, charged, true);
    SubsequenceKeepsNoDup(Pick(xs, charged, false), xs);
    SubsequenceKeepsNoDup(Pick(xs, charged, true), xs);
    forall x | x in xs ensures x in Pick(xs, charged, false) <==> x !in Pick(xs, charged, true) {
      PickMember(xs, charged, false, x);
      PickMember(xs, charged, true, x);
      var i :| 0 <= i < |xs| && xs[i] == x;
      forall j | 0 <= j < |xs| && xs[j] == x ensures j == i {
      }
    }
  }

  // ---------------------------------------------------------------------------------------------
  // list.remove

  /** The position of the first occurrence of x in s. */
  function FirstIndex<T(==)>(s: seq<T>, x: T): (i: nat)
    requires x in s
    ensures i < |s| && s[i] == x && x !in s[..i]
  {
    if s[0] == x then 0
    else
      var j := FirstIndex(s[1..], x);
      assert s[..j + 1] == [s[0]] + s[1..][..j];
      j + 1
  }

  /** `s.remove(x)`: drops the first occurrence of x and keeps the rest in order;
      Err(NotInList) stands for the ValueError on a missing x. */
  function RemoveFirst<T(==)>(s: seq<T>, x: T): (r: Result<seq<T>>)
    ensures r.Ok? <==> x in s
    ensures r.Err? ==> r.failure == NotInList
    ensures r.Ok? ==> exists i :: 0 <= i < |s| && s[i] == x && x !in s[..i] && r.value == s[..i] + s[i + 1..]
    ensures r.Ok? ==> |r.value| == |s| - 1 && multiset(r.value) == multiset(s) - multiset{x}
  {
    if x !in s then Err(NotInList)
    else
      var i := FirstIndex(s, x);
      assert s == s[..i] + [x] + s[i + 1..];
      Ok(s[..i] + s[i + 1..])
  }

  /** On a duplicate-free list, remove takes out exactly x and keeps the list duplicate-free. */
  lemma RemoveFirstNoDup<T>(s: seq<T>, x: T)
    requires NoDup(s) && x in s
    ensures NoDup(RemoveFirst(s, x).value)
    ensures forall y :: y in RemoveFirst(s, x).value <==> y in s && y != x
  {
    var r := RemoveFirst(s, x).value;
    forall y ensures multiset(s)[y] <= 1 {
      NoDupCount(s, y);
    }
    forall y ensures y in r <==> y in s && y != x {
      assert y in r <==> multiset(r)[y] > 0;
    }
    forall i, j | 0 <= i < j < |r| ensures r[i] != r[j] {
      if r[i] == r[j] {
        TwoOccurrences(r, i, j);
        assert false;
      }
    }
  }

  lemma {:induction false} NoDupCount<T>(s: seq<T>, y: T)
    requires NoDup(s)
    ensures multiset(s)[y] <= 1
  {
    if s != [] {
      assert s == [s[0]] + s[1..];
      assert NoDup(s[1..]) by {
        forall i, j | 0 <= i < j < |s| - 1 ensures s[1..][i] != s[1..][j] {
          assert s[1..][i] == s[i + 1] && s[1..][j] == s[j + 1];
        }
      }
      NoDupCount(s[1..], y);
      if s[0] == y {
        assert y !in s[1..] by {
          forall k | 0 <= k < |s| - 1 ensures s[1..][k] != y {
            assert s[1..][k] == s[k + 1];
          }
        }
      }
    }
  }

  lemma TwoOccurrences<T>(s: seq<T>, i: int, j: int)
    requires 0 <= i < j < |s| && s[i] == s[j]
    ensures multiset(s)[s[i]] >= 2
  {
    assert s == s[..j] + [s[j]] + s[j + 1..];
    assert s[i] in s[..j];
  }

  // ---------------------------------------------------------------------------------------------
  // One reconciliation pass of run_battery_store

  /** What the pass reads from one battery: its holder count and its two fields. */
  datatype View = View(count: nat, status: Status, charged: bool)

  predicate Idle(v: View) { v.count == 0 }
  predicate DeployEligible(v: View) { v.status == DeploymentQueue && v.charged }
  predicate ChargeEligible(v: View) { v.status == ChargingQueue && !v.charged }

  /** deploy_queue, charge_queue and charge_process_queue (a launched charger process is
      identified by the battery it was launched for). */
  datatype Queues<T> = Queues(charge: seq<T>, deploy: seq<T>, launched: seq<T>)

  /** The loop body for one battery b seen as v. */
  function Visit<T(==)>(q: Queues<T>, b: T, v: View): Queues<T> {
    if !Idle(v) then q
    else
      var q1 :=
        if DeployEligible(v) && b !in q.deploy then q.(deploy := q.deploy + [b])
        else if ChargeEligible(v) && b !in q.charge then q.(charge := q.charge + [b])
        else q;
      if b in q1.charge then q1.(launched := q1.launched + [b]) else q1
  }

  /** The pass over bs, seen as vs, from the front of the list to the back. */
  function Reconciled<T(==)>(q: Queues<T>, bs: seq<T>, vs: seq<View>): (r: Queues<T>)
    requires |bs| == |vs|
    ensures q.charge <= r.charge && q.deploy <= r.deploy && q.launched <= r.launched
    decreases |bs|
  {
    if bs == [] then q
    else
      var n := |bs| - 1;
      var p := Reconciled(q, bs[..n], vs[..n]);
      Visit(p, bs[n], vs[n])
  }

  /** x is in the deploy list after the pass iff it was before or some idle, charged visit of x
      found it in DEPLOYMENT_QUEUE. */
  lemma {:induction false} PassDeployMember<T>(q: Queues<T>, bs: seq<T>, vs: seq<View>, x: T)
    requires |bs| == |vs|
    ensures x in Reconciled(q, bs, vs).deploy <==>
      x in q.deploy || exists i :: 0 <= i < |bs| && bs[i] == x && Idle(vs[i]) && DeployEligible(vs[i])
    decreases |bs|
  {
    if bs != [] {
      var n := |bs| - 1;
      PassDeployMember(q, bs[..n], vs[..n], x);
      if exists i :: 0 <= i < |bs| && bs[i] == x && Idle(vs[i]) && DeployEligible(vs[i]) {
        var i :| 0 <= i < |bs| && bs[i] == x && Idle(vs[i]) && DeployEligible(vs[i]);
        if i < n {
          assert bs[..n][i] == x && vs[..n][i] == vs[i];
        }
      }
      if exists i :: 0 <= i < n && bs[..n][i] == x && Idle(vs[..n][i]) && DeployEligible(vs[..n][i]) {
        var i :| 0 <= i < n && bs[..n][i] == x && Idle(vs[..n][i]) && DeployEligible(vs[..n][i]);
        assert bs[i] == x && vs[i] == vs[..n][i];
      }
    }
  }

  /** x is in the charge list after the pass iff it was before or some idle, uncharged visit of x
      found it in CHARGING_QUEUE. */
  lemma {:induction false} PassChargeMember<T>(q: Queues<T>, bs: seq<T>, vs: seq<View>, x: T)
    requires |bs| == |vs|
    ensures x in Reconciled(q, bs, vs).charge <==>
      x in q.charge || exists i :: 0 <= i < |bs| && bs[i] == x && Idle(vs[i]) && ChargeEligible(vs[i])
    decreases |bs|
  {
    if bs != [] {
      var n := |bs| - 1;
      PassChargeMember(q, bs[..n], vs[..n], x);
      var p := Reconciled(q, bs[..n], vs[..n]);
      if x == bs[n] && Idle(vs[n]) && ChargeEligible(vs[n]) {
        assert !DeployEligible(vs[n]);
      }
      if exists i :: 0 <= i < |bs| && bs[i] == x && Idle(vs[i]) && ChargeEligible(vs[i]) {
        var i :| 0 <= i < |bs| && bs[i] == x && Idle(vs[i]) && ChargeEligible(vs[i]);
        if i < n {
          assert bs[..n][i] == x && vs[..n][i] == vs[i];
        }
      }
      if exists i :: 0 <= i < n && bs[..n][i] == x && Idle(vs[..n][i]) && ChargeEligible(vs[..n][i]) {
        var i :| 0 <= i < n && bs[..n][i] == x && Idle(vs[..n][i]) && ChargeEligible(vs[..n][i]);
        assert bs[i] == x && vs[i] == vs[..n][i];
      }
    }
  }

  /** t extends s, and every element appended was absent from the list when it was appended. */
  predicate AppendedFresh<T(==)>(s: seq<T>, t: seq<T>) {
    s <= t && forall k :: |s| <= k < |t| ==> t[k] !in t[..k]
  }

  /** The membership checks of the pass: both lists only grow, and only by batteries not yet in them. */
  lemma {:induction false} PassAppendsFresh<T>(q: Queues<T>, bs: seq<T>, vs: seq<View>)
    requires |bs| == |vs|
    ensures AppendedFresh(q.deploy, Reconciled(q, bs, vs).deploy)
    ensures AppendedFresh(q.charge, Reconciled(q, bs, vs).charge)
    decreases |bs|
  {
    if bs != [] {
      var n := |bs| - 1;
      PassAppendsFresh(q, bs[..n], vs[..n]);
      var p := Reconciled(q, bs[..n], vs[..n]);
      var r := Reconciled(q, bs, vs);
      assert r == Visit(p, bs[n], vs[n]);
      forall k | |q.deploy| <= k < |r.deploy| ensures r.deploy[k] !in r.deploy[..k] {
        if k < |p.deploy| {
          assert r.deploy[..k] == p.deploy[..k];
          assert r.deploy[k] == p.deploy[k];
        } else {
          assert r.deploy[..k] == p.deploy;
        }
      }
      forall k | |q.charge| <= k < |r.charge| ensures r.charge[k] !in r.charge[..k] {
        if k < |p.charge| {
          assert r.charge[..k] == p.charge[..k];
          assert r.charge[k] == p.charge[k];
        } else {
          assert r.charge[..k] == p.charge;
        }
      }
    }
  }

  /** Appending only absent elements keeps a duplicate-free list duplicate-free. */
  lemma FreshAppendKeepsNoDup<T>(s: seq<T>, t: seq<T>)
    requires NoDup(s) && AppendedFresh(s, t)
    ensures NoDup(t)
  {
    forall i, j | 0 <= i < j < |t| ensures t[i] != t[j] {
      if j < |s| {
        assert t[i] == s[i] && t[j] == s[j];
      } else {
        assert t[i] in t[..j];
      }
    }
  }

  /** The pass keeps both lists duplicate-free. */
  lemma {:induction false} PassKeepsNoDup<T>(q: Queues<T>, bs: seq<T>, vs: seq<View>)
    requires |bs| == |vs| && NoDup(q.deploy) && NoDup(q.charge)
    ensures NoDup(Reconciled(q, bs, vs).deploy) && NoDup(Reconciled(q, bs, vs).charge)
  {
    PassAppendsFresh(q, bs, vs);
    FreshAppendKeepsNoDup(q.deploy, Reconciled(q, bs, vs).deploy);
    FreshAppendKeepsNoDup(q.charge, Reconciled(q, bs, vs).charge);
  }

  /** The batteries of bs, in bs order, that were idle and are in the charge list c. */
  function Launched<T(==)>(bs: seq<T>, vs: seq<View>, c: seq<T>): (r: seq<T>)
    requires |bs| == |vs|
    ensures |r| <= |bs|
    ensures forall x :: x in r ==> x in c
    decreases |bs|
  {
    if bs == [] then []
    else
      var n := |bs| - 1;
      Launched(bs[..n], vs[..n], c) + (if Idle(vs[n]) && bs[n] in c then [bs[n]] else [])
  }

  lemma {:induction false} LaunchedSameMembers<T>(bs: seq<T>, vs: seq<View>, c: seq<T>, d: seq<T>)
    requires |bs| == |vs|
    requires forall i :: 0 <= i < |bs| ==> (bs[i] in c <==> bs[i] in d)
    ensures Launched(bs, vs, c) == Launched(bs, vs, d)
    decreases |bs|
  {
    if bs != [] {
      var n := |bs| - 1;
      LaunchedSameMembers(bs[..n], vs[..n], c, d);
    }
  }

  /** Over a duplicate-free battery list, the pass launches a charger process exactly for the idle
      batteries that end up in the charge list, in battery-list order. */
  lemma {:induction false} PassLaunches<T>(q: Queues<T>, bs: seq<T>, vs: seq<View>)
    requires |bs| == |vs| && NoDup(bs)
    ensures Reconciled(q, bs, vs).launched == q.launched + Launched(bs, vs, Reconciled(q, bs, vs).charge)
    decreases |bs|
  {
    if bs != [] {
      var n := |bs| - 1;
      var p := Reconciled(q, bs[..n], vs[..n]);
      var r := Reconciled(q, bs, vs);
      assert NoDup(bs[..n]) by {
        forall i, j | 0 <= i < j < n ensures bs[..n][i] != bs[..n][j] {
          assert bs[..n][i] == bs[i] && bs[..n][j] == bs[j];
        }
      }
      PassLaunches(q, bs[..n], vs[..n]);
      VisitSteps(p, bs[n], vs[n]);
      assert r == Visit(p, bs[n], vs[n]);
      forall i | 0 <= i < n ensures bs[..n][i] in p.charge <==> bs[..n][i] in r.charge {
        assert bs[..n][i] == bs[i] != bs[n];
      }
      LaunchedSameMembers(bs[..n], vs[..n], p.charge, r.charge);
      assert Launched(bs, vs, r.charge)
        == Launched(bs[..n], vs[..n], r.charge) + (if Idle(vs[n]) && bs[n] in r.charge then [bs[n]] else []);
    }
  }

  /** One visit appends at most the visited battery to the charge list, and launches a charger
      process for it exactly when it is idle and in the charge list afterwards. */
  lemma VisitSteps<T>(q: Queues<T>, b: T, v: View)
    ensures Visit(q, b, v).charge == q.charge || Visit(q, b, v).charge == q.charge + [b]
    ensures Visit(q, b, v).launched == q.launched + (if Idle(v) && b in Visit(q, b, v).charge then [b] else [])
  {
  }

  /** A battery that is held at every visit is appended to neither list and gets no charger process. */
  lemma {:induction false} PassSkipsHeld<T>(q: Queues<T>, bs: seq<T>, vs: seq<View>, x: T)
    requires |bs| == |vs| && NoDup(bs)
    requires forall i :: 0 <= i < |bs| && bs[i] == x ==> !Idle(vs[i])
    ensures x in Reconciled(q, bs, vs).deploy <==> x in q.deploy
    ensures x in Reconciled(q, bs, vs).charge <==> x in q.charge
    ensures x !in Reconciled(q, bs, vs).launched[|q.launched|..]
  {
    PassDeployMember(q, bs, vs, x);
    PassChargeMember(q, bs, vs, x);
    PassLaunches(q, bs, vs);
    var r := Reconciled(q, bs, vs);
    assert r.launched[|q.launched|..] == Launched(bs, vs, r.charge);
    LaunchedOnlyIdle(bs, vs, r.charge, x);
  }

  lemma {:induction false} LaunchedOnlyIdle<T>(bs: seq<T>, vs: seq<View>, c: seq<T>, x: T)
    requires |bs| == |vs|
    requires forall i :: 0 <= i < |bs| && bs[i] == x ==> !Idle(vs[i])
    ensures x !in Launched(bs, vs, c)
    decreases |bs|
  {
    if bs != [] {
      var n := |bs| - 1;
      LaunchedOnlyIdle(bs[..n], vs[..n], c, x);
    }
  }

  /** The pass never puts a battery in both lists, provided the lists start disjoint and no battery
      already in one list is eligible, at its visit, for the other. */
  lemma PassKeepsDisjoint<T>(q: Queues<T>, bs: seq<T>, vs: seq<View>)
    requires |bs| == |vs| && NoDup(bs)
    requires Disjoint(q.charge, q.deploy)
    requires forall i :: 0 <= i < |bs| && bs[i] in q.charge ==> !(Idle(vs[i]) && DeployEligible(vs[i]))
    requires forall i :: 0 <= i < |bs| && bs[i] in q.deploy ==> !(Idle(vs[i]) && ChargeEligible(vs[i]))
    ensures Disjoint(Reconciled(q, bs, vs).charge, Reconciled(q, bs, vs).deploy)
  {
    var r := Reconciled(q, bs, vs);
    forall x | x in r.charge ensures x !in r.deploy {
      PassDeployMember(q, bs, vs, x);
      PassChargeMember(q, bs, vs, x);
    }
  }
}
