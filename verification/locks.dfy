/**
 * The in-process lock table behind `RedisService`: a map from key to the
 * pending expiry timer that will delete it.
 */
module Locks {

  /** A `setTimeout` handle: a unique id and the delay it was armed with. */
  datatype Timer = Timer(id: nat, delayMs: int)

  /** Held keys with their expiry timers, and the next timer id to hand out. */
  datatype LockTable = LockTable(timers: map<string, Timer>, nextTimer: nat)

  const Empty: LockTable := LockTable(map[], 0)

  function Held(t: LockTable): set<string> {
    t.timers.Keys
  }

  /** Every armed timer was handed out before `nextTimer`. */
  predicate Valid(t: LockTable) {
    forall k :: k in t.timers ==> t.timers[k].id < t.nextTimer
  }

  datatype Acquired = Acquired(ok: bool, table: LockTable)

  /** `acquireLock(key, ttlSeconds)`: take the key if it is free and arm its expiry. */
  function Acquire(t: LockTable, key: string, ttlSeconds: int): (r: Acquired)
    ensures r.ok <==> key !in Held(t)
    ensures !r.ok ==> r.table == t
    ensures r.ok ==> Held(r.table) == Held(t) + {key}
    ensures r.ok ==> r.table.timers[key] == Timer(t.nextTimer, ttlSeconds * 1000)
    ensures forall k :: k != key ==> (k in Held(r.table) <==> k in Held(t))
    ensures forall k :: k != key && k in t.timers ==> r.table.timers[k] == t.timers[k]
    ensures Valid(t) ==> Valid(r.table)
  {
    if key in t.timers then Acquired(false, t)
    else Acquired(true, LockTable(t.timers[key := Timer(t.nextTimer, ttlSeconds * 1000)], t.nextTimer + 1))
  }

  /** `releaseLock(key)`: clear the key's timer, if any, and drop the key. */
  function Release(t: LockTable, key: string): (r: LockTable)
    ensures key !in Held(r)
    ensures Held(r) == Held(t) - {key}
    ensures forall k :: k != key && k in t.timers ==> r.timers[k] == t.timers[k]
    ensures key !in Held(t) ==> r == t
    ensures Valid(t) ==> Valid(r)
  {
    LockTable(t.timers - {key}, t.nextTimer)
  }

  /**
   * The expiry callback of timer `timerId` armed for `key`. It runs only if the
   * timer was never cleared, i.e. it is still the key's current timer; it then
   * deletes the key.
   */
  function Fire(t: LockTable, key: string, timerId: nat): (r: LockTable)
    ensures key in t.timers && t.timers[key].id == timerId ==> Held(r) == Held(t) - {key}
    ensures !(key in t.timers && t.timers[key].id == timerId) ==> r == t
    ensures forall k :: k != key && k in t.timers ==> k in r.timers && r.timers[k] == t.timers[k]
  {
    if key in t.timers && t.timers[key].id == timerId then LockTable(t.timers - {key}, t.nextTimer)
    else t
  }

  /** Two acquires of one key with no release between: the second fails. */
  lemma SecondAcquireFails(t: LockTable, key: string, ttl1: int, ttl2: int)
    ensures var a := Acquire(t, key, ttl1);
      a.ok ==> !Acquire(a.table, key, ttl2).ok
  {
  }

  /** Releasing twice is releasing once. */
  lemma ReleaseIdempotent(t: LockTable, key: string)
    ensures Release(Release(t, key), key) == Release(t, key)
  {
  }

  /** Acquire followed by release restores the held keys and their timers. */
  lemma AcquireReleaseRestores(t: LockTable, key: string, ttl: int)
    requires key !in Held(t)
    ensures Release(Acquire(t, key, ttl).table, key).timers == t.timers
  {
  }

  /**
   * A timer cleared by release cannot drop a later re-acquisition of the same
   * key: after acquire, release and acquire again, the first timer firing
   * leaves the key held.
   */
  lemma StaleTimerHarmless(t: LockTable, key: string, ttl: int)
    requires Valid(t) && key !in Held(t)
    ensures var a1 := Acquire(t, key, ttl);
      var first := a1.table.timers[key].id;
      var a2 := Acquire(Release(a1.table, key), key, ttl);
      a2.ok && key in Held(Fire(a2.table, key, first))
  {
  }
}
