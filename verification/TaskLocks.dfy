/** Task locks in redis: a lock key holds the ID of a task, and a reverse key made from that ID holds the lock key. */
module TaskLocks {
  import opened Options

  const KEY_PREFIX := "esdc:"

  /** A redis value and the seconds after which redis drops it, if any. */
  datatype Entry = Entry(value: string, ttl: Option<int>)

  type Store = map<string, Entry>

  function Get(s: Store, key: string): (r: Option<string>) {
    if key in s then Some(s[key].value) else None
  }

  /** The key that leads from a lock value back to the lock. */
  function ReverseKey(value: string): (r: string) {
    KEY_PREFIX + value + ":lock"
  }

  /** A lock object keeps the reverse key that it computed first. */
  function Reverse(reverseKey: Option<string>, value: string): (r: string) {
    if reverseKey.Some? then reverseKey.value else ReverseKey(value)
  }

  lemma ReverseKeyInjective(a: string, b: string)
    requires ReverseKey(a) == ReverseKey(b)
    ensures a == b
  {
    assert |a| == |b|;
    assert a == ReverseKey(a)[|KEY_PREFIX|..|KEY_PREFIX| + |a|];
    assert b == ReverseKey(b)[|KEY_PREFIX|..|KEY_PREFIX| + |b|];
  }

  // ---- redis commands -----------------------------------------------------------------------------------

  function AfterExpire(s: Store, key: string, timeout: Option<int>): (r: Store) {
    if timeout.Some? && timeout.value != 0 && key in s then s[key := s[key].(ttl := timeout)] else s
  }

  /** `redis_set`: set or setnx, then expire in the same transaction whether the key was set or not. */
  function AfterSet(s: Store, key: string, value: string, timeout: Option<int>, nx: bool): (r: Store) {
    AfterExpire(if nx && key in s then s else s[key := Entry(value, None)], key, timeout)
  }

  function AfterPersist(s: Store, key: string): (r: Store) {
    if key in s then s[key := s[key].(ttl := None)] else s
  }

  /** What acquire does to the store, and whether it gets the lock. */
  function AfterAcquire(s: Store, key: string, reverseKey: Option<string>, value: string, timeout: Option<int>, saveReverse: bool): (r: Store) {
    var s1 := AfterSet(s, key, value, timeout, true);
    if key !in s && saveReverse then AfterSet(s1, Reverse(reverseKey, value), key, timeout, false) else s1
  }

  function AfterDelete(s: Store, key: string, reverseKey: Option<string>, checkValue: Option<string>, deleteReverse: bool): (r: Store) {
    if key !in s || (checkValue.Some? && checkValue != Get(s, key)) then s
    else if deleteReverse then s - {key} - {Reverse(reverseKey, s[key].value)}
    else s - {key}
  }

  // ---- laws ------------------------------------------------------------------------------------------------

  /** Releasing undoes acquiring, exactly if the lock is not named like the reverse key of its value; otherwise the
      reverse entry overwrites the lock and the value check does not let go of it. */
  lemma DeleteUndoesAcquire(s: Store, key: string, value: string, timeout: Option<int>)
    requires key !in s && ReverseKey(value) !in s
    ensures AfterDelete(AfterAcquire(s, key, None, value, timeout, true), key, None, Some(value), true) == s <==> ReverseKey(value) != key
  {
    var s1 := AfterAcquire(s, key, None, value, timeout, true);
    var s2 := AfterDelete(s1, key, None, Some(value), true);
    if ReverseKey(value) == key {
      assert s1[key].value == key && |key| > |value|;
      assert key in s2;
    } else {
      assert s1.Keys == s.Keys + {key, ReverseKey(value)};
      assert s2 == s;
    }
  }

  /** A lock that is taken stays with its holder; only its expiry changes. */
  lemma AcquireRefused(s: Store, key: string, value: string, timeout: Option<int>, saveReverse: bool)
    requires key in s
    ensures var r := AfterAcquire(s, key, None, value, timeout, saveReverse);
            && (forall k :: Get(r, k) == Get(s, k)) && (forall k :: k in s && k != key ==> r[k] == s[k])
            && r[key].ttl == if timeout.Some? && timeout.value != 0 then timeout else s[key].ttl
  {
  }

  /** The failed attempt of another task makes a lock expire that task_check had made permanent: exactly those attempts
      that carry a timeout. */
  lemma RefusalRearms(s: Store, key: string, other: string, timeout: Option<int>)
    requires key in s
    ensures var held := AfterPersist(s, key);
            held[key].ttl == None
            && (AfterAcquire(held, key, None, other, timeout, true)[key].ttl != None <==> timeout.Some? && timeout.value != 0)
  {
    AcquireRefused(AfterPersist(s, key), key, other, timeout, true);
  }

  /** With a value check, only the holder's own lock is released. */
  lemma CheckedDelete(s: Store, key: string, reverseKey: Option<string>, value: string)
    ensures AfterDelete(s, key, reverseKey, Some(value), true) != s ==> Get(s, key) == Some(value)
    ensures Get(s, key) == Some(value) ==> key !in AfterDelete(s, key, reverseKey, Some(value), true)
  {
  }

  /** The value, the expiry and the rest of the store after `redis_set` say all about it. */
  lemma SetIs(s: Store, r: Store, key: string, value: string, timeout: Option<int>, nx: bool)
    requires var res := !nx || key !in s;
             && Get(r, key) == (if res then Some(value) else Get(s, key))
             && key in r && r[key].ttl == (if timeout.Some? && timeout.value != 0 then timeout else if res then None else s[key].ttl)
    requires forall k :: k != key ==> (k in r <==> k in s) && (k in r ==> r[k] == s[k])
    ensures r == AfterSet(s, key, value, timeout, nx)
  {
    var t := AfterSet(s, key, value, timeout, nx);
    assert r.Keys == t.Keys;
    assert r[key] == Entry(r[key].value, r[key].ttl) && t[key] == Entry(t[key].value, t[key].ttl);
  }

  // ---- the objects -------------------------------------------------------------------------------------------

  class Redis {
    var store: Store

    constructor ()
      ensures store == map[]
    {
      store := map[];
    }

    /** `redis_set`. */
    method Set(key: string, value: string, timeout: Option<int>, nx: bool) returns (res: bool)
      modifies this
      // a key that is there is not overwritten with nx
      ensures res <==> !nx || key !in old(store)
      ensures Get(store, key) == if res then Some(value) else Get(old(store), key)
      // the expiry is armed whether or not the key was set; setting without a timeout disarms it
      ensures key in store && store[key].ttl ==
                if timeout.Some? && timeout.value != 0 then timeout else if res then None else old(store)[key].ttl
      ensures forall k :: k != key ==> (k in store <==> k in old(store)) && (k in store ==> store[k] == old(store)[k])
    {
      res := true;
      if nx {
        if key in store {
          res := false;
        } else {
          store := store[key := Entry(value, None)];
        }
      } else {
        store := store[key := Entry(value, None)];
      }
      if timeout.Some? && timeout.value != 0 {
        store := store[key := store[key].(ttl := timeout)];
      }
    }

    method Delete(key: string) returns (res: bool)
      modifies this
      ensures store == old(store) - {key} && res == (key in old(store))
    {
      res := key in store;
      store := store - {key};
    }

    method Persist(key: string)
      modifies this
      ensures store == AfterPersist(old(store), key)
    {
      if key in store {
        store := store[key := store[key].(ttl := None)];
      }
    }
  }

  class TaskLock {
    const redis: Redis
    const key: string
    var reverseKey: Option<string>

    constructor (redis: Redis, name: string, reverse: Option<string>)
      ensures this.redis == redis && key == name
      ensures reverseKey == if reverse.Some? then Some(ReverseKey(reverse.value)) else None
    {
      this.redis, key := redis, name;
      reverseKey := if reverse.Some? then Some(ReverseKey(reverse.value)) else None;
    }

    /** The reverse key for a value: computed once, then kept. */
    method RememberReverse(value: string) returns (r: string)
      modifies `reverseKey
      ensures reverseKey == Some(r)
      ensures r == Reverse(old(reverseKey), value)
    {
      if reverseKey.None? {
        reverseKey := Some(ReverseKey(value));
      }
      r := reverseKey.value;
    }

    method Acquire(value: string, timeout: Option<int>, saveReverse: bool) returns (res: bool)
      modifies `reverseKey, redis
      ensures redis.store == AfterAcquire(old(redis.store), key, old(reverseKey), value, timeout, saveReverse)
      ensures res == (key !in old(redis.store))
      ensures reverseKey == if res && saveReverse then Some(Reverse(old(reverseKey), value)) else old(reverseKey)
    {
      res := redis.Set(key, value, timeout, true);
      SetIs(old(redis.store), redis.store, key, value, timeout, true);
      if res && saveReverse {
        var r := RememberReverse(value);
        ghost var before := redis.store;
        var saved := redis.Set(r, key, timeout, false);
        SetIs(before, redis.store, r, key, timeout, false);
      }
    }

    method Delete(checkValue: Option<string>, deleteReverse: bool) returns (res: bool)
      modifies `reverseKey, redis
      ensures redis.store == AfterDelete(old(redis.store), key, old(reverseKey), checkValue, deleteReverse)
      ensures res == (key in old(redis.store) && (checkValue.Some? ==> checkValue == Get(old(redis.store), key)))
    {
      var value := Get(redis.store, key);
      if checkValue.Some? && checkValue != value {
        return false;
      }
      res := redis.Delete(key);
      if res && deleteReverse {
        var r := RememberReverse(value.value);
        var removed := redis.Delete(r);
      }
    }

    /** The check of a worker that has started on the task: the lock must be there, and from now on it does not expire. */
    method TaskCheck() returns (ok: bool)
      modifies redis
      ensures ok == (key in old(redis.store))
      ensures !ok ==> redis.store == old(redis.store)
      ensures ok ==> forall k :: Get(redis.store, k) == Get(old(redis.store), k)
      ensures ok ==> key in redis.store && redis.store[key].ttl == None
      ensures ok && reverseKey.Some? && reverseKey.value in redis.store ==> redis.store[reverseKey.value].ttl == None
      ensures forall k :: k in redis.store && k != key && reverseKey != Some(k) ==> k in old(redis.store) && redis.store[k] == old(redis.store)[k]
    {
      ok := key in redis.store;
      if ok {
        redis.Persist(key);
        if reverseKey.Some? {
          redis.Persist(reverseKey.value);
        }
      }
    }
  }
}
