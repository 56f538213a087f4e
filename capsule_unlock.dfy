/**
 * The hourly sweep that unlocks every locked capsule whose unlock date has come. The schedule
 * is not modelled: one run of the job is `Sweep` at an explicit instant `now`.
 */
module CapsuleUnlock {
  import opened Capsules

  /** The rows the sweep selects: `is_locked = true AND unlock_date <= NOW()`. */
  predicate Due(c: Capsule, now: int) {
    c.isLocked && c.unlockDate <= now
  }

  function DueIds(capsules: map<CapsuleId, Capsule>, now: int): (r: set<CapsuleId>)
    ensures forall id :: id in r <==> id in capsules && Due(capsules[id], now)
  {
    set id | id in capsules && Due(capsules[id], now)
  }

  /** `capsules` with every capsule of `ids` unlocked. */
  function UnlockAll(capsules: map<CapsuleId, Capsule>, ids: set<CapsuleId>): map<CapsuleId, Capsule> {
    map id | id in capsules :: if id in ids then capsules[id].(isLocked := false) else capsules[id]
  }

  lemma UnlockOneMore(capsules: map<CapsuleId, Capsule>, ids: set<CapsuleId>, id: CapsuleId)
    requires id in capsules && id !in ids
    ensures id in UnlockAll(capsules, ids) && UnlockAll(capsules, ids)[id] == capsules[id]
    ensures UnlockAll(capsules, ids)[id := capsules[id].(isLocked := false)] == UnlockAll(capsules, ids + {id})
  {
  }

  lemma UnlockAllKeepsRows(capsules: map<CapsuleId, Capsule>, ids: set<CapsuleId>)
    ensures UnlockAll(capsules, ids).Keys == capsules.Keys
    ensures forall id :: id in capsules ==> UnlockAll(capsules, ids)[id].createdBy == capsules[id].createdBy
  {
  }

  /** The table after a sweep at `now`. `queryFails` stands for an error of the selecting
      query, which ends the run; `failing` holds the capsules whose own update fails, which
      is logged and skipped. A capsule ends up unlocked exactly when it was unlocked already
      or it was due and its update went through; nothing but the lock flag ever changes. */
  function Swept(capsules: map<CapsuleId, Capsule>, now: int, queryFails: bool, failing: set<CapsuleId>)
    : (r: map<CapsuleId, Capsule>)
    ensures r.Keys == capsules.Keys
    ensures forall id :: id in r ==>
              (!r[id].isLocked <==> !capsules[id].isLocked || (!queryFails && Due(capsules[id], now) && id !in failing))
    ensures forall id :: id in r ==> r[id].(isLocked := capsules[id].isLocked) == capsules[id]
    ensures queryFails ==> r == capsules
  {
    if queryFails then capsules else UnlockAll(capsules, DueIds(capsules, now) - failing)
  }

  /** The sweep never locks anything. */
  lemma SweepNeverRelocks(capsules: map<CapsuleId, Capsule>, now: int, queryFails: bool, failing: set<CapsuleId>)
    ensures NeverRelocks(capsules, Swept(capsules, now, queryFails, failing))
  {
  }

  /** Capsules that are not due (already unlocked, or with an unlock date after `now`) are
      left exactly as they were. */
  lemma SweepLeavesOthers(capsules: map<CapsuleId, Capsule>, now: int, queryFails: bool, failing: set<CapsuleId>,
                          id: CapsuleId)
    requires id in capsules && !Due(capsules[id], now)
    ensures Swept(capsules, now, queryFails, failing)[id] == capsules[id]
  {
    var r := Swept(capsules, now, queryFails, failing);
    assert r[id].(isLocked := capsules[id].isLocked) == capsules[id];
  }

  /** A second sweep at the same instant only retries the capsules whose update failed the
      first time; after a first sweep without failures it changes nothing. */
  lemma {:induction false} SecondSweepRetriesOnlyFailures(capsules: map<CapsuleId, Capsule>, now: int,
                                                          failing: set<CapsuleId>, queryFails: bool,
                                                          failing2: set<CapsuleId>)
    ensures var once := Swept(capsules, now, false, failing);
            var twice := Swept(once, now, queryFails, failing2);
            && twice.Keys == once.Keys
            && (forall id :: id in once && twice[id] != once[id] ==> id in failing)
    ensures Swept(Swept(capsules, now, false, {}), now, queryFails, failing2) == Swept(capsules, now, false, {})
  {
    var once := Swept(capsules, now, false, failing);
    var twice := Swept(once, now, queryFails, failing2);
    forall id | id in once && id !in failing ensures twice[id] == once[id] {
      assert !Due(once[id], now);
      SweepLeavesOthers(once, now, queryFails, failing2, id);
    }
    var once0 := Swept(capsules, now, false, {});
    var twice0 := Swept(once0, now, queryFails, failing2);
    forall id | id in once0 ensures twice0[id] == once0[id] {
      assert !Due(once0[id], now);
      SweepLeavesOthers(once0, now, queryFails, failing2, id);
    }
  }

  /** One run of the job: select the due capsules and unlock them one at a time, in no
      particular order; a capsule whose update fails is skipped and the loop goes on. */
  method Sweep(store: CapsuleStore, now: int, queryFails: bool, failing: set<CapsuleId>)
    requires store.Valid()
    modifies store
    ensures store.Valid()
    ensures store.capsules == Swept(old(store.capsules), now, queryFails, failing)
    ensures store.contributors == old(store.contributors) && store.contents == old(store.contents)
    ensures store.reactions == old(store.reactions) && store.views == old(store.views)
    ensures store.nextCapsule == old(store.nextCapsule) && store.nextContent == old(store.nextContent)
  {
    if queryFails {
      return;
    }
    var due := DueIds(store.capsules, now);
    if due == {} {
      assert UnlockAll(store.capsules, due - failing) == store.capsules;
      return;
    }
    UnlockEach(store, due, failing);
    UnlockAllKeepsRows(old(store.capsules), due - failing);
  }

  /** The loop of the job over the selected capsules `ids`. */
  method UnlockEach(store: CapsuleStore, ids: set<CapsuleId>, failing: set<CapsuleId>)
    requires ids <= store.capsules.Keys
    modifies store
    ensures store.capsules == UnlockAll(old(store.capsules), ids - failing)
    ensures store.contributors == old(store.contributors) && store.contents == old(store.contents)
    ensures store.reactions == old(store.reactions) && store.views == old(store.views)
    ensures store.nextCapsule == old(store.nextCapsule) && store.nextContent == old(store.nextContent)
  {
    ghost var start := store.capsules;
    var todo := ids;
    ghost var done: set<CapsuleId> := {};
    while todo != {}
      invariant todo <= ids && done == ids - todo
      invariant store.capsules == UnlockAll(start, done - failing)
      invariant store.contributors == old(store.contributors) && store.contents == old(store.contents)
      invariant store.reactions == old(store.reactions) && store.views == old(store.views)
      invariant store.nextCapsule == old(store.nextCapsule) && store.nextContent == old(store.nextContent)
      decreases |todo|
    {
      var id :| id in todo;
      if id !in failing {
        UnlockOneMore(start, done - failing, id);
        store.capsules := store.capsules[id := store.capsules[id].(isLocked := false)];
        assert (done - failing) + {id} == (done + {id}) - failing;
      } else {
        assert done - failing == (done + {id}) - failing;
      }
      todo := todo - {id};
      done := done + {id};
    }
    assert done == ids;
  }
}
