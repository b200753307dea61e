/** Task reservations during start-up: what is reserved, who ends up owning it, and
    what every failure path gives back. */
module Reservations {
  import opened Common

  /** What the RTOS driver has reserved, and every release made, in order. */
  datatype Ledger = Ledger(live: set<nat>, releases: seq<nat>)

  function Drop(l: Ledger, id: nat): Ledger {
    Ledger(l.live - {id}, l.releases + [id])
  }

  function Elements(ids: seq<nat>): set<nat> {
    set id | id in ids
  }

  function Consecutive(first: nat, count: nat): (ids: seq<nat>)
    ensures |ids| == count && forall i :: 0 <= i < count ==> ids[i] == first + i
  {
    if count == 0 then [] else Consecutive(first, count - 1) + [first + count - 1]
  }

  /** Giving one of `failing` back is an error and leaves it reserved. */
  class Runtime {
    var ledger: Ledger
    var next: nat
    const failing: set<nat>

    ghost predicate Valid()
      reads this
    {
      forall id :: id in ledger.live ==> id < next
    }

    constructor (bad: set<nat>)
      ensures Valid() && ledger == Ledger({}, []) && failing == bad
    {
      ledger, next, failing := Ledger({}, []), 0, bad;
    }

    /** Reserves a whole plan under one admission. */
    method Reserve(count: nat) returns (ids: seq<nat>)
      requires Valid()
      modifies this
      ensures Valid()
      ensures ids == Consecutive(old(next), count)
      ensures Elements(ids) !! old(ledger).live
      ensures ledger == Ledger(old(ledger).live + Elements(ids), old(ledger).releases)
    {
      ids := Consecutive(next, count);
      ledger := ledger.(live := ledger.live + set id | id in ids);
      next := next + count;
    }

    method Release(id: nat) returns (ok: bool)
      requires Valid()
      modifies this
      ensures Valid() && next == old(next)
      ensures ok == (id !in failing)
      ensures ledger == if ok then Drop(old(ledger), id) else old(ledger)
    {
      ok := id !in failing;
      if ok {
        ledger := Drop(ledger, id);
      }
    }
  }

  // ----- giving a list back -----

  /** Releases a list in order; the first failure ends the work. */
  function Give(l: Ledger, ids: seq<nat>, failing: set<nat>): Ledger
    decreases |ids|
  {
    if ids == [] || ids[0] in failing then l else Give(Drop(l, ids[0]), ids[1..], failing)
  }

  predicate NoneFail(ids: seq<nat>, failing: set<nat>) {
    forall i :: 0 <= i < |ids| ==> ids[i] !in failing
  }

  /** The part of a list before its first failing member. */
  function Sound(ids: seq<nat>, failing: set<nat>): (n: nat)
    ensures n <= |ids| && NoneFail(ids[..n], failing)
    ensures n < |ids| ==> ids[n] in failing
  {
    if ids == [] || ids[0] in failing then 0 else 1 + Sound(ids[1..], failing)
  }

  lemma {:induction false} GiveIsPrefix(l: Ledger, ids: seq<nat>, failing: set<nat>)
    ensures var given := ids[..Sound(ids, failing)];
            Give(l, ids, failing) == Ledger(l.live - Elements(given), l.releases + given)
    decreases |ids|
  {
    var n := Sound(ids, failing);
    if n == 0 {
      assert l.live - Elements(ids[..0]) == l.live && l.releases + ids[..0] == l.releases;
    } else {
      GiveIsPrefix(Drop(l, ids[0]), ids[1..], failing);
      assert ids[..n] == [ids[0]] + ids[1..][..n - 1];
      OneMore(l.live, ids[0], ids[1..][..n - 1]);
    }
  }

  lemma OneMore(live: set<nat>, id: nat, rest: seq<nat>)
    ensures live - {id} - Elements(rest) == live - Elements([id] + rest)
  {
    assert Elements([id] + rest) == {id} + Elements(rest);
  }

  function Optional(id: Option<nat>): seq<nat> {
    if id.Some? then [id.value] else []
  }

  /** The reservations a batch still holds. */
  function Remaining(batch: seq<Option<nat>>): seq<nat> {
    if batch == [] then [] else Optional(batch[0]) + Remaining(batch[1..])
  }

  /** `release_remaining_reservations`. */
  method ReleaseRemaining(rt: Runtime, batch: array<Option<nat>>) returns (ok: bool)
    requires rt.Valid()
    modifies rt, batch
    ensures rt.Valid() && rt.next == old(rt.next)
    ensures rt.ledger == Give(old(rt.ledger), Remaining(old(batch[..])), rt.failing)
    ensures ok <==> NoneFail(Remaining(old(batch[..])), rt.failing)
    ensures ok ==> Remaining(batch[..]) == []
  {
    ghost var all := batch[..];
    var index := 0;
    while index < batch.Length
      invariant index <= batch.Length
      invariant rt.Valid() && rt.next == old(rt.next)
      invariant batch[index..] == all[index..]
      invariant forall i :: 0 <= i < index ==> batch[i] == None
      invariant Give(rt.ledger, Remaining(all[index..]), rt.failing)
                == Give(old(rt.ledger), Remaining(all), rt.failing)
      invariant NoneFail(Remaining(all[index..]), rt.failing) <==> NoneFail(Remaining(all), rt.failing)
    {
      var taken := batch[index];
      batch[index] := None;
      assert all[index..][1..] == all[index + 1..] && all[index..][0] == taken;
      GiveOptional(rt.ledger, taken, Remaining(all[index + 1..]), rt.failing);
      if taken.Some? {
        var released := rt.Release(taken.value);
        if !released {
          return false;
        }
      }
      index := index + 1;
    }
    RemainingOfNone(batch[..]);
    return true;
  }

  lemma GiveOptional(l: Ledger, id: Option<nat>, rest: seq<nat>, failing: set<nat>)
    ensures Give(l, Optional(id) + rest, failing) ==
            if id.None? then Give(l, rest, failing)
            else if id.value in failing then l
            else Give(Drop(l, id.value), rest, failing)
    ensures NoneFail(Optional(id) + rest, failing) <==> (id.None? || id.value !in failing) && NoneFail(rest, failing)
  {
    var all := Optional(id) + rest;
    if id.None? {
      assert all == rest;
    } else {
      assert all[1..] == rest && all[0] == id.value;
      assert forall i :: 0 <= i < |rest| ==> rest[i] == all[i + 1];
    }
  }

  lemma {:induction false} RemainingOfNone(batch: seq<Option<nat>>)
    requires forall i :: 0 <= i < |batch| ==> batch[i] == None
    ensures Remaining(batch) == []
  {
    if batch == [] {
    } else {
      RemainingOfNone(batch[1..]);
    }
  }

  // ----- claiming a profile's storage -----

  /** The one-shot storage of a profile. */
  class Storage {
    var claimed: bool
    var vendor: Option<nat>
    var worker: Option<nat>

    constructor ()
      ensures !claimed && vendor == None && worker == None
    {
      claimed, vendor, worker := false, None, None;
    }
  }

  /** Answers from outside and the profile's shape: the checks before admission, the
      admission, the installation of the vendor reservation, whether a worker group
      is planned and how many coexistence groups follow. */
  datatype Plan = Plan(prepared: bool, admitted: bool, installs: bool, worker: bool, coexistence: nat)

  /** The reservations of a plan in group order: vendor, worker, coexistence. */
  function GroupIds(plan: Plan, first: nat): seq<nat> {
    Consecutive(first, 1 + One(plan.worker) + plan.coexistence)
  }

  /** The release sequence both late failure paths share. */
  method GiveAllBack(rt: Runtime, vendor: nat, worker: Option<nat>, batch: array<Option<nat>>) returns (ok: bool)
    requires rt.Valid()
    modifies rt, batch
    ensures rt.Valid()
    ensures rt.ledger == Give(old(rt.ledger), [vendor] + (Optional(worker) + Remaining(old(batch[..]))), rt.failing)
    ensures ok <==> NoneFail([vendor] + (Optional(worker) + Remaining(old(batch[..]))), rt.failing)
  {
    GiveOptional(rt.ledger, Some(vendor), Optional(worker) + Remaining(batch[..]), rt.failing);
    ok := rt.Release(vendor);
    if !ok {
      return;
    }
    GiveOptional(rt.ledger, worker, Remaining(batch[..]), rt.failing);
    if worker.Some? {
      ok := rt.Release(worker.value);
      if !ok {
        return;
      }
    }
    ok := ReleaseRemaining(rt, batch);
  }

  /** Everything a plan reserves, on top of a ledger. */
  function Reserved(l: Ledger, plan: Plan, first: nat): Ledger {
    l.(live := l.live + Elements(GroupIds(plan, first)))
  }

  /** The admission and the two takes: vendor, worker, and the rest in the batch. */
  method TakeGroups(rt: Runtime, plan: Plan) returns (vendor: nat, worker: Option<nat>, batch: array<Option<nat>>)
    requires rt.Valid()
    modifies rt
    ensures rt.Valid() && fresh(batch) && worker.Some? == plan.worker
    ensures Elements(GroupIds(plan, old(rt.next))) !! old(rt.ledger).live
    ensures rt.ledger == Reserved(old(rt.ledger), plan, old(rt.next))
    ensures [vendor] + (Optional(worker) + Remaining(batch[..])) == GroupIds(plan, old(rt.next))
  {
    var ids := rt.Reserve(1 + One(plan.worker) + plan.coexistence);
    batch := new Option<nat>[|ids|](i requires 0 <= i < |ids| => Some(ids[i]));
    vendor, worker := ids[0], None;
    batch[0] := None;
    if plan.worker {
      worker := Some(ids[1]);
      batch[1] := None;
      VendorAndWorkerTaken(ids, batch[..]);
    } else {
      VendorTaken(ids, batch[..]);
    }
  }

  method ClaimProfileStorage(rt: Runtime, storage: Storage, plan: Plan)
    returns (ok: bool, vendor: nat, worker: Option<nat>, batch: array<Option<nat>>)
    requires rt.Valid()
    modifies rt, storage
    ensures rt.Valid() && fresh(batch)
    ensures ok <==> plan.prepared && plan.admitted && !old(storage.claimed) && plan.installs
    ensures storage.claimed == (old(storage.claimed) || (plan.prepared && plan.admitted))
    ensures !(plan.prepared && plan.admitted) ==> rt.ledger == old(rt.ledger)
    ensures plan.prepared && plan.admitted ==> Elements(GroupIds(plan, old(rt.next))) !! old(rt.ledger).live
    ensures plan.prepared && plan.admitted && !ok ==>
              rt.ledger == Give(Reserved(old(rt.ledger), plan, old(rt.next)), GroupIds(plan, old(rt.next)), rt.failing)
    ensures ok ==>
              && rt.ledger == Reserved(old(rt.ledger), plan, old(rt.next))
              && [vendor] + (Optional(worker) + Remaining(batch[..])) == GroupIds(plan, old(rt.next))
              && storage.vendor == Some(vendor) && storage.worker == worker && worker.Some? == plan.worker
  {
    ok, vendor, worker := false, 0, None;
    if !plan.prepared || !plan.admitted {
      batch := new Option<nat>[0];
      return;
    }
    vendor, worker, batch := TakeGroups(rt, plan);
    if storage.claimed {
      var _ := GiveAllBack(rt, vendor, worker, batch);
      return;
    }
    storage.claimed, storage.vendor, storage.worker := true, Some(vendor), worker;
    if !plan.installs {
      var _ := GiveAllBack(rt, vendor, worker, batch);
      return;
    }
    ok := true;
  }

  lemma {:induction false} RemainingOfAll(ids: seq<nat>, batch: seq<Option<nat>>)
    requires |batch| == |ids| && forall i :: 0 <= i < |ids| ==> batch[i] == Some(ids[i])
    ensures Remaining(batch) == ids
  {
    if ids == [] {
    } else {
      RemainingOfAll(ids[1..], batch[1..]);
    }
  }

  lemma VendorTaken(ids: seq<nat>, batch: seq<Option<nat>>)
    requires |ids| == |batch| > 0 && batch[0] == None
    requires forall i :: 1 <= i < |ids| ==> batch[i] == Some(ids[i])
    ensures [ids[0]] + (Optional(None) + Remaining(batch)) == ids
  {
    RemainingOfAll(ids[1..], batch[1..]);
  }

  lemma VendorAndWorkerTaken(ids: seq<nat>, batch: seq<Option<nat>>)
    requires |ids| == |batch| > 1 && batch[0] == None && batch[1] == None
    requires forall i :: 2 <= i < |ids| ==> batch[i] == Some(ids[i])
    ensures [ids[0]] + (Optional(Some(ids[1])) + Remaining(batch)) == ids
  {
    assert batch[1..][1..] == batch[2..];
    RemainingOfAll(ids[2..], batch[2..]);
    assert Remaining(batch) == ids[2..];
  }

  /** After a late failure nothing stays reserved exactly when no release fails, and
      no group is released twice. */
  lemma FailureReleasesAllIff(plan: Plan, first: nat, before: Ledger, failing: set<nat>)
    requires Elements(GroupIds(plan, first)) !! before.live
    ensures var ids := GroupIds(plan, first);
            var after := Give(Reserved(before, plan, first), ids, failing);
            && (after.live == before.live <==> NoneFail(ids, failing))
            && (NoneFail(ids, failing) ==> after.releases == before.releases + ids)
            && before.releases <= after.releases
            && forall i, j :: |before.releases| <= i < j < |after.releases| ==> after.releases[i] != after.releases[j]
  {
    var ids := GroupIds(plan, first);
    GiveIsPrefix(Reserved(before, plan, first), ids, failing);
    var n := Sound(ids, failing);
    if n < |ids| {
      assert ids[n] in ids && ids[n] in Elements(ids) && ids[n] !in ids[..n];
    } else {
      assert ids[..n] == ids;
    }
  }

  // ----- the worker's reservation -----

  /** Answers of the vendor bootstrap, the conversion to the incremental backend, the
      worker's spawn and the core's own initialisation. */
  datatype Boot = Boot(bootstraps: bool, incremental: bool, starts: bool, core: bool)

  /** `init_incremental_claimed` as far as the worker's reservation is concerned; a
      build without the incremental wait has no worker. */
  method InitIncrementalClaimed(rt: Runtime, wait: bool, worker: Option<nat>, boot: Boot) returns (ok: bool, spawned: bool)
    requires rt.Valid()
    modifies rt
    ensures rt.Valid()
    ensures spawned <==> wait && boot.bootstraps && boot.incremental && worker.Some? && boot.starts
    ensures ok <==> boot.bootstraps && boot.incremental && (wait ==> spawned) && boot.core
    ensures rt.ledger == if spawned || !wait then old(rt.ledger) else Give(old(rt.ledger), Optional(worker), rt.failing)
  {
    ok, spawned := false, false;
    GiveOptional(rt.ledger, worker, [], rt.failing);
    assert Optional(worker) + [] == Optional(worker);
    if !boot.bootstraps || !boot.incremental {
      if wait && worker.Some? {
        var _ := rt.Release(worker.value);
      }
      return;
    }
    if wait {
      if worker.None? {
        return;
      }
      if !boot.starts {
        var _ := rt.Release(worker.value);
        return;
      }
      spawned := true;
    }
    ok := boot.core;
  }

  /** `init_incremental`: whatever fails, the vendor's reservation stays installed
      once claimed, the worker's is consumed by its spawn or released exactly once,
      and a failed claim leaves nothing reserved, unless the driver itself refuses a
      release. */
  method InitIncremental(rt: Runtime, storage: Storage, plan: Plan, boot: Boot)
    returns (ok: bool, claimed: bool, spawned: bool)
    requires rt.Valid()
    modifies rt, storage
    ensures rt.Valid()
    ensures claimed <==> plan.prepared && plan.admitted && !old(storage.claimed) && plan.installs
    ensures spawned <==> claimed && plan.worker && boot.bootstraps && boot.incremental && boot.starts
    ensures ok <==> claimed && boot.bootstraps && boot.incremental && (plan.worker ==> boot.starts) && boot.core
    ensures !(plan.prepared && plan.admitted) ==> rt.ledger == old(rt.ledger)
    ensures plan.prepared && plan.admitted && !claimed ==>
              && rt.ledger == Give(Reserved(old(rt.ledger), plan, old(rt.next)), GroupIds(plan, old(rt.next)), rt.failing)
              && (rt.ledger.live == old(rt.ledger).live <==> NoneFail(GroupIds(plan, old(rt.next)), rt.failing))
    ensures claimed ==>
              var back := plan.worker && !spawned && old(rt.next) + 1 !in rt.failing;
              && rt.ledger.live == old(rt.ledger).live + Elements(GroupIds(plan, old(rt.next)))
                                   - (if back then {old(rt.next) + 1} else {})
              && rt.ledger.releases == old(rt.ledger).releases + (if back then [old(rt.next) + 1] else [])
  {
    var vendor, worker, batch;
    claimed, vendor, worker, batch := ClaimProfileStorage(rt, storage, plan);
    ghost var ids := GroupIds(plan, old(rt.next));
    if !claimed {
      ok, spawned := false, false;
      if plan.prepared && plan.admitted {
        FailureReleasesAllIff(plan, old(rt.next), old(rt.ledger), rt.failing);
      }
      return;
    }
    assert worker.Some? ==> worker == Some(ids[1]) by {
      if worker.Some? {
        assert ([vendor] + (Optional(worker) + Remaining(batch[..])))[1] == worker.value;
      }
    }
    GiveOptional(rt.ledger, worker, [], rt.failing);
    assert Optional(worker) + [] == Optional(worker);
    ok, spawned := InitIncrementalClaimed(rt, plan.worker, worker, boot);
  }
}
