/** The sliding-window request throttle: it remembers the times of admitted requests, newest first, in a cache entry
    that expires. */
module Throttle {
  import opened Options

  /** Newest first. */
  ghost predicate Sorted(a: seq<real>) {
    forall i, j :: 0 <= i <= j < |a| ==> a[i] >= a[j]
  }

  /** How many of the times lie after `lo` and not after `hi`. */
  ghost function Count(a: seq<real>, lo: real, hi: real): (n: nat) {
    if a == [] then 0 else Count(a[1..], lo, hi) + if lo < a[0] <= hi then 1 else 0
  }

  /** The newest `k` times are exactly those within the bounds. */
  lemma {:induction false} CountPrefix(a: seq<real>, k: nat, lo: real, hi: real)
    requires k <= |a|
    requires forall i :: 0 <= i < k ==> lo < a[i] <= hi
    requires forall i :: k <= i < |a| ==> a[i] <= lo
    ensures Count(a, lo, hi) == k
  {
    if a != [] {
      CountPrefix(a[1..], if k == 0 then 0 else k - 1, lo, hi);
    }
  }

  /** Newer times first, then times in the window, then older ones. */
  lemma {:induction false} CountMiddle(a: seq<real>, j: nat, k: nat, lo: real, hi: real)
    requires j <= k <= |a|
    requires forall i :: 0 <= i < j ==> a[i] > hi
    requires forall i :: j <= i < k ==> lo < a[i] <= hi
    requires forall i :: k <= i < |a| ==> a[i] <= lo
    ensures Count(a, lo, hi) == k - j
  {
    if j == 0 {
      CountPrefix(a, k, lo, hi);
    } else {
      CountMiddle(a[1..], j - 1, k - 1, lo, hi);
    }
  }

  /** Admissions that are `num` or more admissions apart are at least `duration` apart. */
  ghost predicate Spaced(a: seq<real>, num: int, duration: real) {
    forall i, j :: 0 <= i < j < |a| && j - i >= num ==> a[j] <= a[i] - duration
  }

  /** How many requests were admitted in the last `duration` before `time`. */
  ghost function Within(a: seq<real>, time: real, duration: real): (n: nat) {
    Count(a, time - duration, time)
  }

  /** Where a sorted list falls to the bound or below. */
  lemma {:induction false} Boundary(a: seq<real>, bound: real) returns (k: nat)
    requires Sorted(a)
    ensures k <= |a| && (forall i :: 0 <= i < k ==> a[i] > bound) && forall i :: k <= i < |a| ==> a[i] <= bound
  {
    if a == [] || a[0] <= bound {
      k := 0;
    } else {
      k := Boundary(a[1..], bound);
      forall i | 0 <= i < k + 1 ensures a[i] > bound {
        assert i > 0 ==> a[i] == a[1..][i - 1];
      }
      forall i | k + 1 <= i < |a| ensures a[i] <= bound {
        assert a[i] == a[1..][i - 1];
      }
      k := k + 1;
    }
  }

  /** No window of length `duration`, wherever it ends, contains more than `num` admissions. */
  lemma NoWindowOverflows(a: seq<real>, num: int, duration: real, end: real)
    requires Sorted(a) && duration > 0.0 && Spaced(a, num, duration) && (a != [] ==> num >= 1)
    ensures Within(a, end, duration) <= if num >= 0 then num else 0
  {
    if a != [] {
      var j := Boundary(a, end);
      var k := Boundary(a, end - duration);
      Ordered(a, j, k, end, end - duration);
      CountMiddle(a, j, k, end - duration, end);
      var first := if j < |a| then a[j] else end;
      var next := if j + num < |a| then a[j + num] else end;
    }
  }

  lemma Ordered(a: seq<real>, j: nat, k: nat, hi: real, lo: real)
    requires j <= |a| && k <= |a| && lo <= hi && (forall i :: 0 <= i < j ==> a[i] > hi) && forall i :: k <= i < |a| ==> a[i] <= lo
    ensures j <= k
  {
    assert k < |a| ==> a[k] <= lo;
  }

  /** A request admitted into a window that is not full keeps the spacing. */
  lemma SpacedMore(a: seq<real>, n: nat, time: real, num: int, duration: real)
    requires Sorted(a) && Spaced(a, num, duration) && n <= |a| && n < num
    requires forall i :: n <= i < |a| ==> a[i] <= time - duration
    ensures Spaced([time] + a, num, duration)
  {
    var more := [time] + a;
    forall i, j | 0 <= i < j < |more| && j - i >= num ensures more[j] <= more[i] - duration {
      if i > 0 {
        assert more[i] == a[i - 1] && more[j] == a[j - 1];
      }
    }
  }

  lemma SortedMore(a: seq<real>, time: real)
    requires Sorted(a) && forall i :: 0 <= i < |a| ==> a[i] <= time
    ensures Sorted([time] + a)
  {
  }

  /** A full window has no more than `num` admissions. */
  lemma NotOverfull(a: seq<real>, n: nat, num: int, now: real, duration: real)
    requires Spaced(a, num, duration) && n <= |a| && num >= 1
    requires forall i :: 0 <= i < n ==> now - duration < a[i] <= now
    ensures n <= num
  {
    var first := if n > 0 then a[0] else now;
    var next := if num < |a| then a[num] else now;
  }

  /** What is left of a list after its old end is cut off lies in the window. */
  lemma Pruned(a: seq<real>, n: nat, time: real, duration: real)
    requires Sorted(a) && n <= |a| && (n > 0 ==> a[n - 1] > time - duration)
    requires forall i :: n <= i < |a| ==> a[i] <= time - duration
    requires forall i :: 0 <= i < |a| ==> a[i] <= time
    ensures forall i :: 0 <= i < n ==> time - duration < a[i] <= time
    ensures Within(a, time, duration) == n
  {
    forall i | 0 <= i < n ensures time - duration < a[i] <= time {
      assert a[i] >= a[n - 1];
    }
    CountPrefix(a, n, time - duration, time);
  }

  /** The entry of one client: the times and when it was stored. */
  datatype Entry = Entry(history: seq<real>, stored: real)

  /** What the throttle knows at a time: the cached times are the newest admissions, and what is not cached has left the
      window for good. */
  ghost predicate Remembers(cache: Option<Entry>, admitted: seq<real>, clock: real, num: int, duration: real) {
    && duration > 0.0 && Sorted(admitted) && Spaced(admitted, num, duration) && (admitted != [] ==> num >= 1)
    && (forall i :: 0 <= i < |admitted| ==> admitted[i] <= clock)
    && match cache
       case None => forall i :: 0 <= i < |admitted| ==> admitted[i] <= clock - duration
       case Some(e) =>
         && e.stored <= clock && e.history <= admitted
         && (forall i :: 0 <= i < |admitted| ==> admitted[i] <= e.stored)
         && (forall i :: |e.history| <= i < |admitted| ==> admitted[i] <= clock - duration)
  }

  /** The times in `h` are the newest admissions, and the others lie before the window that ends at `time`. */
  ghost predicate Covers(h: seq<real>, admitted: seq<real>, time: real, duration: real) {
    h <= admitted && forall i :: |h| <= i < |admitted| ==> admitted[i] <= time - duration
  }

  lemma RemembersLater(cache: Option<Entry>, admitted: seq<real>, clock: real, time: real, num: int, duration: real)
    requires Remembers(cache, admitted, clock, num, duration) && clock <= time
    ensures Remembers(cache, admitted, time, num, duration)
    ensures cache.None? ==> Covers([], admitted, time, duration)
    ensures cache.Some? ==> Covers(cache.value.history, admitted, time, duration)
    ensures cache.Some? && cache.value.stored + duration <= time ==> Covers([], admitted, time, duration)
  {
  }

  lemma CoversLater(h: seq<real>, admitted: seq<real>, time: real, later: real, duration: real)
    requires Covers(h, admitted, time, duration) && time <= later
    ensures Covers(h, admitted, later, duration)
  {
  }

  lemma CoversLess(h: seq<real>, admitted: seq<real>, time: real, duration: real)
    requires Covers(h, admitted, time, duration) && h != [] && h[|h| - 1] <= time - duration
    ensures Covers(h[..|h| - 1], admitted, time, duration)
  {
  }

  /** The pruned history is the window. */
  ghost predicate Window(h: seq<real>, admitted: seq<real>, time: real, duration: real) {
    Covers(h, admitted, time, duration) && forall i :: 0 <= i < |h| ==> time - duration < h[i] <= time
  }

  lemma CoversWindow(cache: Option<Entry>, h: seq<real>, admitted: seq<real>, clock: real, time: real, num: int, duration: real)
    requires Remembers(cache, admitted, clock, num, duration) && clock <= time && Covers(h, admitted, time, duration)
    requires h == [] || h[|h| - 1] > time - duration
    ensures Window(h, admitted, time, duration) && Within(admitted, time, duration) == |h|
  {
    Pruned(admitted, |h|, time, duration);
  }

  lemma Admitted(cache: Option<Entry>, h: seq<real>, admitted: seq<real>, clock: real, time: real, stored: real, num: int, duration: real)
    requires Remembers(cache, admitted, clock, num, duration) && clock <= time <= stored
    requires Window(h, admitted, time, duration) && |h| < num
    ensures Remembers(Some(Entry([time] + h, stored)), [time] + admitted, stored, num, duration)
  {
    SpacedMore(admitted, |h|, time, num, duration);
    SortedMore(admitted, time);
  }

  class SimpleRateThrottle {
    const numRequests: int
    const duration: real
    var cache: Option<Entry>
    var history: seq<real>
    var now: real
    /** When the last cache operation took place. */
    ghost var clock: real
    /** The time of every admitted request, newest first. */
    ghost var admitted: seq<real>

    ghost predicate Valid()
      reads this
    {
      Remembers(cache, admitted, clock, numRequests, duration)
    }

    /** The last request was refused. */
    ghost predicate Refused()
      reads this
    {
      Valid() && Window(history, admitted, now, duration) && |history| >= numRequests
    }

    constructor (numRequests: int, duration: real, clock: real)
      requires duration > 0.0
      ensures Valid() && this.numRequests == numRequests && this.duration == duration && this.clock == clock && admitted == []
    {
      this.numRequests, this.duration, this.clock, now := numRequests, duration, clock, clock;
      cache, history, admitted := None, [], [];
    }

    /** `cache.get`: an entry is gone only after its timeout, but need not be. */
    method CacheGet(time: real) returns (h: seq<real>)
      requires Valid() && clock <= time
      modifies `clock
      ensures clock == time && Valid() && Covers(h, admitted, time, duration)
    {
      hide Remembers, Covers;
      RemembersLater(cache, admitted, clock, time, numRequests, duration);
      clock := time;
      if cache.None? {
        return [];
      }
      h := cache.value.history;
      var dropped: bool := *;
      if dropped && cache.value.stored + duration <= time {
        h := [];
      }
    }

    /** One request: the cache is read at `got`, the clock at `time`, and the cache is written at `stored`. */
    method AllowRequest(got: real, time: real, stored: real) returns (allowed: bool)
      requires Valid() && clock <= got <= time <= stored
      modifies this
      ensures Valid() && now == time && clock == stored
      ensures allowed <==> Within(old(admitted), time, duration) < numRequests
      ensures admitted == if allowed then [time] + old(admitted) else old(admitted)
      ensures !allowed ==> Refused()
    {
      hide Remembers, Covers, Window, Within;
      history := CacheGet(got);
      now := time;
      CoversLater(history, admitted, got, time, duration);
      while history != [] && history[|history| - 1] <= now - duration
        modifies `history
        invariant Covers(history, admitted, time, duration)
      {
        CoversLess(history, admitted, time, duration);
        history := history[..|history| - 1];
      }
      CoversWindow(cache, history, admitted, got, time, numRequests, duration);
      RemembersLater(cache, admitted, clock, stored, numRequests, duration);
      clock := stored;
      if |history| >= numRequests {
        allowed := false;
      } else {
        allowed := true;
        Admitted(cache, history, admitted, got, time, stored, numRequests, duration);
        history := [now] + history;
        cache := Some(Entry(history, stored));
        admitted := [now] + admitted;
      }
    }

    /** After a refusal: a positive delay, at most `duration`, before which the next request is refused and at which it
        is admitted, whenever it may come. */
    method Wait() returns (delay: Option<real>)
      requires Refused() && numRequests >= 1
      ensures delay.Some? && 0.0 < delay.value <= duration
      ensures forall later :: now <= later ==> (Within(admitted, later, duration) >= numRequests <==> later < now + delay.value)
    {
      hide Within;
      var remaining;
      if history != [] {
        remaining := duration - (now - history[|history| - 1]);
      } else {
        remaining := duration;
      }
      NotOverfull(admitted, |history|, numRequests, now, duration);
      var available := numRequests - |history| + 1;
      assert available == 1;
      if available <= 0 {
        return None;
      }
      delay := Some(remaining / available as real);
      assert delay.value == remaining;
      forall later | now <= later ensures Within(admitted, later, duration) >= numRequests <==> later < now + delay.value {
        WithinLater(admitted, |history|, now, later, duration);
      }
    }
  }

  /** The window is full until its oldest admission has left it. */
  lemma WithinLater(a: seq<real>, n: nat, now: real, later: real, duration: real)
    requires Sorted(a) && 0 < n <= |a| && now <= later && forall i :: 0 <= i < n ==> now - duration < a[i] <= now
    requires forall i :: n <= i < |a| ==> a[i] <= now - duration
    ensures Within(a, later, duration) >= n <==> later < a[n - 1] + duration
  {
    var k := Boundary(a, later - duration);
    CountPrefix(a, k, later - duration, later);
  }

  /** The times at which a request touches the cache, the clock, and the cache again. */
  datatype Request = Request(got: real, time: real, stored: real)

  ghost predicate InOrder(requests: seq<Request>, start: real) {
    && (forall i :: 0 <= i < |requests| ==> start <= requests[i].got <= requests[i].time <= requests[i].stored)
    && forall i, j :: 0 <= i < j < |requests| ==> requests[i].stored <= requests[j].got
  }

  /** A throttle that remembers every admitted request forever: the times it has admitted, newest first. */
  ghost function Ideal(requests: seq<Request>, num: int, duration: real): (r: seq<real>) {
    if requests == [] then []
    else
      var before := Ideal(requests[..|requests| - 1], num, duration);
      var time := requests[|requests| - 1].time;
      if Within(before, time, duration) < num then [time] + before else before
  }

  /** The decisions on the first requests are those of the throttle that forgets nothing. */
  ghost predicate Decided(requests: seq<Request>, decisions: seq<bool>, num: int, duration: real) {
    |decisions| <= |requests| &&
    forall i :: 0 <= i < |decisions| ==>
      (decisions[i] <==> Within(Ideal(requests[..i], num, duration), requests[i].time, duration) < num)
  }

  lemma DecidedNone(requests: seq<Request>, num: int, duration: real)
    ensures Decided(requests, [], num, duration) && Ideal(requests[..0], num, duration) == []
  {
  }

  lemma DecidedMore(requests: seq<Request>, decisions: seq<bool>, num: int, duration: real, allowed: bool)
    requires Decided(requests, decisions, num, duration) && |decisions| < |requests|
    requires allowed <==> Within(Ideal(requests[..|decisions|], num, duration), requests[|decisions|].time, duration) < num
    ensures Decided(requests, decisions + [allowed], num, duration)
    ensures var before := Ideal(requests[..|decisions|], num, duration);
            Ideal(requests[..|decisions| + 1], num, duration) == if allowed then [requests[|decisions|].time] + before else before
  {
    hide Within;
    var i := |decisions|;
    assert requests[..i + 1][..i] == requests[..i];
  }

  lemma OrderAt(requests: seq<Request>, start: real, i: nat)
    requires InOrder(requests, start) && i < |requests|
    ensures (if i == 0 then start else requests[i - 1].stored) <= requests[i].got <= requests[i].time <= requests[i].stored
  {
  }

  ghost predicate NeverOverfull(admitted: seq<real>, num: int, duration: real) {
    forall end :: Within(admitted, end, duration) <= if num >= 0 then num else 0
  }

  lemma NoneOverfull(cache: Option<Entry>, admitted: seq<real>, clock: real, num: int, duration: real)
    requires Remembers(cache, admitted, clock, num, duration)
    ensures NeverOverfull(admitted, num, duration)
  {
    forall end ensures Within(admitted, end, duration) <= if num >= 0 then num else 0 {
      NoWindowOverflows(admitted, num, duration, end);
    }
  }

  /** Any run of requests, with the cache dropping its entry at any time after its timeout: the decisions are those of the
      throttle that forgets nothing, and no window is ever overfull. */
  method Serve(requests: seq<Request>, num: int, duration: real, start: real) returns (decisions: seq<bool>, ghost admitted: seq<real>)
    requires duration > 0.0 && InOrder(requests, start)
    ensures |decisions| == |requests| && Decided(requests, decisions, num, duration)
    ensures admitted == Ideal(requests, num, duration) && NeverOverfull(admitted, num, duration)
  {
    hide Within, Remembers, Window, InOrder, Decided, Ideal, NeverOverfull;
    var throttle := new SimpleRateThrottle(num, duration, start);
    decisions := [];
    DecidedNone(requests, num, duration);
    var i := 0;
    while i < |requests|
      invariant 0 <= i == |decisions| <= |requests| && Decided(requests, decisions, num, duration)
      invariant throttle.Valid() && throttle.numRequests == num && throttle.duration == duration
      invariant throttle.clock == if i == 0 then start else requests[i - 1].stored
      invariant throttle.admitted == Ideal(requests[..i], num, duration)
    {
      OrderAt(requests, start, i);
      var allowed := throttle.AllowRequest(requests[i].got, requests[i].time, requests[i].stored);
      DecidedMore(requests, decisions, num, duration, allowed);
      decisions := decisions + [allowed];
      i := i + 1;
    }
    assert requests[..i] == requests;
    admitted := throttle.admitted;
    NoneOverfull(throttle.cache, admitted, throttle.clock, num, duration);
  }
}
