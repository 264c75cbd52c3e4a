/** A per-key fixed-window rate limiter that remembers only the most recently called keys. */
module RateLimiting {
  import opened Wrappers
  import opened Lists

  datatype Window = Window(count: int, expiry: real)
  datatype Bucket = Bucket(key: string, window: Window)
  datatype Call = Call(key: string, now: real)
  /** Evicting from an empty dictionary raises, so a limiter holds at least one key. */
  type Capacity = n: int | n >= 1 witness 1

  datatype Limits = Limits(limit: int, seconds: int, capacity: Capacity)

  // ----- the fixed window of one key -----

  /** One call against a key's window: the window afterwards, and whether the call is admitted. */
  function Decide(l: Limits, current: Option<Window>, now: real): (Window, bool) {
    if current.Some? && current.value.expiry > now then
      if current.value.count >= l.limit then (current.value, false)
      else (Window(current.value.count + 1, current.value.expiry), true)
    else (Window(1, now + l.seconds as real), true)
  }

  // ----- the ordered dictionary, oldest entry first -----

  function Keys(buckets: seq<Bucket>): seq<string> {
    seq(|buckets|, i requires 0 <= i < |buckets| => buckets[i].key)
  }

  function Lookup(buckets: seq<Bucket>, key: string): Option<Window> {
    if buckets == [] then None
    else if buckets[0].key == key then Some(buckets[0].window)
    else Lookup(buckets[1..], key)
  }

  function Without(buckets: seq<Bucket>, key: string): seq<Bucket> {
    Filter(buckets, (b: Bucket) => b.key != key)
  }

  function Remove(keys: seq<string>, key: string): seq<string> {
    Filter(keys, k => k != key)
  }

  function Last<T>(n: nat, s: seq<T>): seq<T> {
    if |s| <= n then s else s[|s| - n..]
  }

  // ----- the limiter -----

  function Step(l: Limits, buckets: seq<Bucket>, call: Call): (seq<Bucket>, bool) {
    var rest := Without(buckets, call.key);
    var (window, ok) := Decide(l, Lookup(buckets, call.key), call.now);
    ((if ok && |rest| >= l.capacity then rest[1..] else rest) + [Bucket(call.key, window)], ok)
  }

  /** The buckets after a history of calls. */
  function After(l: Limits, calls: seq<Call>): seq<Bucket> {
    if calls == [] then [] else Step(l, After(l, calls[..|calls| - 1]), calls[|calls| - 1]).0
  }

  function Answer(l: Limits, calls: seq<Call>, call: Call): bool {
    Step(l, After(l, calls), call).1
  }

  class RateLimiter {
    const limits: Limits
    var buckets: seq<Bucket>
    ghost var calls: seq<Call>

    constructor (limit: int, seconds: int, capacity: Capacity)
      ensures limits == Limits(limit, seconds, capacity) && calls == [] && Valid()
    {
      limits := Limits(limit, seconds, capacity);
      buckets := [];
      calls := [];
    }

    ghost predicate Valid()
      reads this
    {
      buckets == After(limits, calls)
    }

    method Allow(key: string, now: real) returns (ok: bool)
      requires Valid()
      modifies this
      ensures Valid() && calls == old(calls) + [Call(key, now)]
      ensures ok == Answer(limits, old(calls), Call(key, now))
    {
      assert (calls + [Call(key, now)])[..|calls|] == calls;
      calls := calls + [Call(key, now)];
      var current := Lookup(buckets, key);
      buckets := Without(buckets, key);
      var window;
      if current.Some? && current.value.expiry > now {
        if current.value.count >= limits.limit {
          buckets := buckets + [Bucket(key, current.value)];
          return false;
        }
        window := Window(current.value.count + 1, current.value.expiry);
      } else {
        window := Window(1, now + limits.seconds as real);
      }
      if |buckets| >= limits.capacity {
        buckets := buckets[1..];
      }
      buckets := buckets + [Bucket(key, window)];
      return true;
    }
  }

  // ----- which keys are remembered -----

  /** The keys of a history in the order of their last calls. */
  function Recency(calls: seq<Call>): seq<string> {
    if calls == [] then []
    else Remove(Recency(calls[..|calls| - 1]), calls[|calls| - 1].key) + [calls[|calls| - 1].key]
  }

  ghost predicate Called(calls: seq<Call>, key: string) {
    exists c :: c in calls && c.key == key
  }

  lemma CalledStep(calls: seq<Call>, key: string)
    requires calls != []
    ensures Called(calls, key) <==> Called(calls[..|calls| - 1], key) || calls[|calls| - 1].key == key
  {
    assert calls == calls[..|calls| - 1] + [calls[|calls| - 1]];
  }

  lemma {:induction false} RecencyDistinct(calls: seq<Call>)
    ensures NoRepeats(Recency(calls))
    ensures forall k :: k in Recency(calls) <==> Called(calls, k)
  {
    if calls != [] {
      var n := |calls| - 1;
      var before := Recency(calls[..n]);
      RecencyDistinct(calls[..n]);
      FilterNoRepeats(before, k => k != calls[n].key);
      NoRepeatsSnoc(Remove(before, calls[n].key), calls[n].key);
      forall k ensures k in Recency(calls) <==> Called(calls, k) {
        CalledStep(calls, k);
      }
    }
  }

  lemma {:induction false} WithoutKeys(buckets: seq<Bucket>, key: string)
    ensures Keys(Without(buckets, key)) == Remove(Keys(buckets), key)
  {
    if buckets != [] {
      WithoutKeys(buckets[1..], key);
      assert Keys(buckets) == [buckets[0].key] + Keys(buckets[1..]);
      KeysAppend([buckets[0]], Without(buckets[1..], key));
    }
  }

  lemma KeysAppend(a: seq<Bucket>, b: seq<Bucket>)
    ensures Keys(a + b) == Keys(a) + Keys(b)
  {
  }

  lemma {:induction false} LookupIffKey(buckets: seq<Bucket>, key: string)
    ensures Lookup(buckets, key).Some? <==> key in Keys(buckets)
  {
    if buckets != [] {
      LookupIffKey(buckets[1..], key);
      assert Keys(buckets) == [buckets[0].key] + Keys(buckets[1..]);
    }
  }

  lemma RemoveSize(keys: seq<string>, key: string)
    requires NoRepeats(keys)
    ensures |Remove(keys, key)| == |keys| - if key in keys then 1 else 0
  {
    FilterNoRepeats(keys, k => k != key);
    SizeOfList(keys);
    SizeOfList(Remove(keys, key));
    assert Elements(Remove(keys, key)) == Elements(keys) - {key};
    if key in keys {
      assert key in Elements(keys);
    }
  }

  /** Moving a key to the end of the order, and of its remembered part. */
  lemma LastStep(order: seq<string>, n: nat, key: string)
    requires NoRepeats(order) && n >= 1
    ensures var rest := Remove(Last(n, order), key);
      (if |rest| >= n then rest[1..] else rest) + [key] == Last(n, Remove(order, key) + [key])
    ensures key in Last(n, order) ==> |Remove(Last(n, order), key)| < n
  {
    var back := Last(n, order);
    var front := order[..|order| - |back|];
    assert order == front + back && (front == [] || |back| == n);
    MoveToEnd(front, back, n, key);
  }

  lemma MoveToEnd(front: seq<string>, back: seq<string>, n: nat, key: string)
    requires NoRepeats(front + back) && 1 <= n && |back| <= n && (front == [] || |back| == n)
    ensures var rest := Remove(back, key);
      (if |rest| >= n then rest[1..] else rest) + [key] == Last(n, Remove(front + back, key) + [key])
    ensures key in back ==> |Remove(back, key)| < n
  {
    var kept, rest := Remove(front, key), Remove(back, key);
    BackDistinct(front, back);
    RemoveSize(back, key);
    FilterAppend(front, back, k => k != key);
    assert Remove(front + back, key) + [key] == kept + (rest + [key]);
    if key in back {
      FrontWithout(front, back, key);
      FilterAll(front, k => k != key);
    }
    LastOfJoin(kept, rest + [key], n);
  }

  lemma FrontWithout(front: seq<string>, back: seq<string>, key: string)
    requires NoRepeats(front + back) && key in back
    ensures forall k :: k in front ==> k != key
  {
    var j :| 0 <= j < |back| && back[j] == key;
    forall i | 0 <= i < |front| ensures front[i] != key {
      assert (front + back)[i] == front[i] && (front + back)[|front| + j] == key;
    }
  }

  lemma BackDistinct<T(!new)>(a: seq<T>, b: seq<T>)
    requires NoRepeats(a + b)
    ensures NoRepeats(b)
  {
    assert forall i :: 0 <= i < |b| ==> b[i] == (a + b)[|a| + i];
  }

  lemma LastOfJoin<T>(a: seq<T>, b: seq<T>, n: nat)
    ensures |b| >= n ==> Last(n, a + b) == b[|b| - n..]
    ensures a == [] ==> Last(n, a + b) == Last(n, b)
  {
    assert a == [] ==> a + b == b;
  }

  lemma KeysStep(l: Limits, buckets: seq<Bucket>, call: Call)
    requires |buckets| <= l.capacity && NoRepeats(Keys(buckets))
    ensures var rest := Remove(Keys(buckets), call.key);
      Keys(Step(l, buckets, call).0) == (if |rest| >= l.capacity then rest[1..] else rest) + [call.key]
  {
    var rest := Without(buckets, call.key);
    WithoutKeys(buckets, call.key);
    LookupIffKey(buckets, call.key);
    RemoveSize(Keys(buckets), call.key);
    assert |rest| == |Keys(rest)| && |buckets| == |Keys(buckets)|;
  }

  /** The dictionary holds exactly the most recently called keys, in order. */
  lemma {:induction false} RemembersMostRecent(l: Limits, calls: seq<Call>)
    ensures Keys(After(l, calls)) == Last(l.capacity, Recency(calls))
    ensures NoRepeats(Keys(After(l, calls)))
  {
    RecencyDistinct(calls);
    if calls != [] {
      var n := |calls| - 1;
      RemembersMostRecent(l, calls[..n]);
      RecencyDistinct(calls[..n]);
      assert |After(l, calls[..n])| == |Keys(After(l, calls[..n]))|;
      KeysStep(l, After(l, calls[..n]), calls[n]);
      LastStep(Recency(calls[..n]), l.capacity, calls[n].key);
    }
  }

  lemma CapacityKept(l: Limits, calls: seq<Call>)
    ensures |After(l, calls)| <= l.capacity
  {
    RemembersMostRecent(l, calls);
    assert |Keys(After(l, calls))| == |After(l, calls)|;
  }

  // ----- when a key is forgotten -----

  /** The other keys called since the last call of `key`. */
  ghost function CalledSince(calls: seq<Call>, key: string): set<string> {
    if calls == [] || calls[|calls| - 1].key == key then {}
    else CalledSince(calls[..|calls| - 1], key) + {calls[|calls| - 1].key}
  }

  /** In the order of last calls, exactly the keys called since come after a key. */
  lemma {:induction false} RecencySplit(calls: seq<Call>, key: string) returns (front: seq<string>, back: seq<string>)
    requires Called(calls, key)
    ensures Recency(calls) == front + [key] + back
    ensures Elements(back) == CalledSince(calls, key)
  {
    var n := |calls| - 1;
    var next := calls[n].key;
    var order := Recency(calls[..n]);
    if next == key {
      front, back := Remove(order, key), [];
    } else {
      CalledStep(calls, key);
      var f, b := RecencySplit(calls[..n], key);
      FilterAppend(f + [key], b, k => k != next);
      FilterAppend(f, [key], k => k != next);
      FilterAll([key], k => k != next);
      front, back := Remove(f, next), Remove(b, next) + [next];
      assert Elements(back) == (Elements(b) - {next}) + {next};
    }
  }

  lemma InLast(front: seq<string>, key: string, back: seq<string>, n: nat)
    requires NoRepeats(front + [key] + back)
    ensures key in Last(n, front + [key] + back) <==> |back| < n
  {
    var all := front + [key] + back;
    assert all[|front|] == key;
    if |all| > n {
      var kept := all[|all| - n..];
      if |back| < n {
        assert kept[|front| - (|all| - n)] == key;
      } else {
        assert forall i :: 0 <= i < |kept| ==> kept[i] == all[i + |all| - n];
      }
    }
  }

  /** A called key is forgotten exactly when `capacity` other keys have been called since. */
  lemma ForgottenIff(l: Limits, calls: seq<Call>, key: string)
    requires Called(calls, key)
    ensures Lookup(After(l, calls), key).None? <==> |CalledSince(calls, key)| >= l.capacity
  {
    RemembersMostRecent(l, calls);
    LookupIffKey(After(l, calls), key);
    RecencyDistinct(calls);
    var front, back := RecencySplit(calls, key);
    InLast(front, key, back, l.capacity);
    BackDistinct(front + [key], back);
    SizeOfList(back);
  }

  // ----- agreement with a limiter that forgets nothing -----

  /** The window of `key` in a limiter without a capacity. */
  function FreeWindow(l: Limits, calls: seq<Call>, key: string): Option<Window> {
    if calls == [] then None
    else
      var n := |calls| - 1;
      var before := FreeWindow(l, calls[..n], key);
      if calls[n].key == key then Some(Decide(l, before, calls[n].now).0) else before
  }

  function FreeAnswer(l: Limits, calls: seq<Call>, call: Call): bool {
    Decide(l, FreeWindow(l, calls, call.key), call.now).1
  }

  /** At no point of the history have `capacity` other keys been called since `key` was. */
  ghost predicate NeverForgotten(l: Limits, calls: seq<Call>, key: string) {
    forall n :: 0 <= n <= |calls| && Called(calls[..n], key) ==> |CalledSince(calls[..n], key)| < l.capacity
  }

  lemma {:induction false} LookupWithout(buckets: seq<Bucket>, key: string, other: string)
    ensures Lookup(Without(buckets, key), other) == if other == key then None else Lookup(buckets, other)
  {
    if buckets != [] {
      LookupWithout(buckets[1..], key, other);
    }
  }

  lemma {:induction false} LookupAppend(buckets: seq<Bucket>, b: Bucket, key: string)
    ensures Lookup(buckets + [b], key) ==
      if Lookup(buckets, key).Some? then Lookup(buckets, key) else if b.key == key then Some(b.window) else None
  {
    if buckets != [] {
      assert (buckets + [b])[1..] == buckets[1..] + [b];
      LookupAppend(buckets[1..], b, key);
    }
  }

  /** Evicting the oldest bucket forgets its key and nothing else. */
  lemma LookupEvict(buckets: seq<Bucket>, key: string)
    requires buckets != [] && NoRepeats(Keys(buckets))
    ensures Lookup(buckets[1..], key) == if key == buckets[0].key then None else Lookup(buckets, key)
  {
    assert Keys(buckets) == [buckets[0].key] + Keys(buckets[1..]);
    HeadOnce(buckets[0].key, Keys(buckets[1..]));
    LookupIffKey(buckets[1..], buckets[0].key);
  }

  /** One call leaves every window that it does not forget, except the called one. */
  lemma LookupStep(l: Limits, buckets: seq<Bucket>, call: Call, key: string)
    requires NoRepeats(Keys(buckets))
    ensures var next := Step(l, buckets, call).0;
      Lookup(next, key) in {
        None,
        if key == call.key then Some(Decide(l, Lookup(buckets, key), call.now).0) else Lookup(buckets, key)}
  {
    var rest := Without(buckets, call.key);
    var window := Decide(l, Lookup(buckets, call.key), call.now).0;
    LookupWithout(buckets, call.key, key);
    LookupAppend(rest, Bucket(call.key, window), key);
    if rest != [] {
      WithoutKeys(buckets, call.key);
      FilterNoRepeats(Keys(buckets), k => k != call.key);
      LookupEvict(rest, key);
      LookupAppend(rest[1..], Bucket(call.key, window), key);
    }
  }

  lemma {:induction false} NeverCalled(l: Limits, calls: seq<Call>, key: string)
    requires !Called(calls, key)
    ensures FreeWindow(l, calls, key).None?
  {
    if calls != [] {
      CalledStep(calls, key);
      NeverCalled(l, calls[..|calls| - 1], key);
    }
  }

  lemma NeverRemembered(l: Limits, calls: seq<Call>, key: string)
    requires !Called(calls, key)
    ensures Lookup(After(l, calls), key).None?
  {
    LookupIffKey(After(l, calls), key);
    RemembersMostRecent(l, calls);
    RecencyDistinct(calls);
    var order := Recency(calls);
    assert forall k :: k in Last(l.capacity, order) ==> k in order;
  }

  /** A key that is never forgotten has the window, and so gets the answers, of the limiter
      that forgets nothing. */
  lemma {:induction false} AgreesWithFree(l: Limits, calls: seq<Call>, key: string, now: real)
    requires NeverForgotten(l, calls, key)
    ensures Lookup(After(l, calls), key) == FreeWindow(l, calls, key)
    ensures Answer(l, calls, Call(key, now)) == FreeAnswer(l, calls, Call(key, now))
  {
    if !Called(calls, key) {
      NeverCalled(l, calls, key);
      NeverRemembered(l, calls, key);
    } else {
      var n := |calls| - 1;
      var before := calls[..n];
      assert calls[..|calls|] == calls;
      assert forall i :: 0 <= i <= n ==> before[..i] == calls[..i];
      AgreesWithFree(l, before, key, now);
      RemembersMostRecent(l, before);
      LookupStep(l, After(l, before), calls[n], key);
      ForgottenIff(l, calls, key);
    }
  }

  ghost function CalledKeys(calls: seq<Call>): set<string> {
    set c | c in calls :: c.key
  }

  lemma {:induction false} CalledSinceBound(calls: seq<Call>, key: string)
    requires Called(calls, key)
    ensures CalledSince(calls, key) <= CalledKeys(calls) - {key}
  {
    var n := |calls| - 1;
    assert calls == calls[..n] + [calls[n]];
    if calls[n].key != key {
      CalledSinceBound(calls[..n], key);
      assert CalledKeys(calls[..n]) <= CalledKeys(calls);
      assert calls[n] in calls;
    }
  }

  /** With at most `capacity` keys in play the capacity is invisible. */
  lemma FewKeysAgree(l: Limits, calls: seq<Call>, call: Call)
    requires |CalledKeys(calls)| <= l.capacity
    ensures Answer(l, calls, call) == FreeAnswer(l, calls, call)
  {
    forall n | 0 <= n <= |calls| && Called(calls[..n], call.key)
      ensures |CalledSince(calls[..n], call.key)| < l.capacity
    {
      CalledSinceBound(calls[..n], call.key);
      assert CalledKeys(calls[..n]) <= CalledKeys(calls);
      var c :| c in calls[..n] && c.key == call.key;
      assert call.key in CalledKeys(calls);
      Subset(CalledSince(calls[..n], call.key), CalledKeys(calls) - {call.key});
    }
    AgreesWithFree(l, calls, call.key, call.now);
  }

  // ----- what a call is answered, told by times and answers alone -----

  /** The call that opened the current window of `key`: its first call, and then each first one at or
      after the end of the window before. */
  function Opening(l: Limits, calls: seq<Call>, key: string): (o: Option<nat>)
    ensures o.Some? ==> o.value < |calls| && calls[o.value].key == key
  {
    if calls == [] then None
    else
      var n := |calls| - 1;
      var before := Opening(l, calls[..n], key);
      if calls[n].key == key && (before.None? || calls[n].now >= calls[before.value].now + l.seconds as real)
      then Some(n) else before
  }

  /** The admitted calls of `key` from position `from` on. */
  function AdmittedFrom(l: Limits, calls: seq<Call>, key: string, from: nat): nat {
    if |calls| <= from then 0
    else
      var n := |calls| - 1;
      AdmittedFrom(l, calls[..n], key, from) + if calls[n].key == key && Answer(l, calls[..n], calls[n]) then 1 else 0
  }

  /** The window is that of its opening, and counts the calls admitted since. */
  ghost predicate Told(l: Limits, calls: seq<Call>, key: string) {
    var o, window := Opening(l, calls, key), FreeWindow(l, calls, key);
    && (o.None? <==> window.None?)
    && (o.Some? ==>
          && window.value == Window(AdmittedFrom(l, calls, key, o.value), calls[o.value].now + l.seconds as real)
          && AdmittedFrom(l, calls, key, o.value) >= 1
          && Answer(l, calls[..o.value], calls[o.value]))
  }

  lemma ToldStep(l: Limits, calls: seq<Call>, key: string)
    requires calls != [] && Told(l, calls[..|calls| - 1], key)
    requires calls[|calls| - 1].key == key ==>
      Answer(l, calls[..|calls| - 1], calls[|calls| - 1]) == FreeAnswer(l, calls[..|calls| - 1], calls[|calls| - 1])
    ensures Told(l, calls, key)
  {
    var before, o := calls[..|calls| - 1], Opening(l, calls, key);
    if o.Some? && o.value < |before| {
      assert before[..o.value] == calls[..o.value];
    }
  }

  lemma {:induction false} WindowTold(l: Limits, calls: seq<Call>, key: string)
    requires NeverForgotten(l, calls, key)
    ensures Told(l, calls, key)
  {
    if calls != [] {
      var n := |calls| - 1;
      assert forall i :: 0 <= i <= n ==> calls[..n][..i] == calls[..i];
      WindowTold(l, calls[..n], key);
      AgreesWithFree(l, calls[..n], key, calls[n].now);
      ToldStep(l, calls, key);
    }
  }

  /** A call is refused exactly when the current window, opened by an admitted call, is not over and the
      whole allowance has been admitted since it opened. Refused calls count for nothing. */
  lemma RefusedIff(l: Limits, calls: seq<Call>, key: string, now: real)
    requires NeverForgotten(l, calls, key)
    ensures !Answer(l, calls, Call(key, now)) <==>
      var o := Opening(l, calls, key);
      && o.Some? && Answer(l, calls[..o.value], calls[o.value])
      && now < calls[o.value].now + l.seconds as real
      && AdmittedFrom(l, calls, key, o.value) >= if l.limit < 1 then 1 else l.limit
  {
    WindowTold(l, calls, key);
    AgreesWithFree(l, calls, key, now);
  }

  lemma {:induction false} SameWindowLater(l: Limits, a: seq<Call>, b: seq<Call>, more: seq<Call>, key: string)
    requires FreeWindow(l, a, key) == FreeWindow(l, b, key)
    ensures FreeWindow(l, a + more, key) == FreeWindow(l, b + more, key)
  {
    if more == [] {
      assert a + more == a && b + more == b;
    } else {
      var n := |more| - 1;
      SameWindowLater(l, a, b, more[..n], key);
      assert (a + more)[..|a + more| - 1] == a + more[..n] && (b + more)[..|b + more| - 1] == b + more[..n];
    }
  }

  /** Leaving a refused call out of the history changes no later answer of its key. */
  lemma RefusedCallLeavesNoTrace(l: Limits, before: seq<Call>, refused: Call, more: seq<Call>, now: real)
    requires NeverForgotten(l, before, refused.key) && !Answer(l, before, refused)
    requires NeverForgotten(l, before + [refused] + more, refused.key)
    requires NeverForgotten(l, before + more, refused.key)
    ensures Answer(l, before + [refused] + more, Call(refused.key, now)) ==
      Answer(l, before + more, Call(refused.key, now))
  {
    var key := refused.key;
    AgreesWithFree(l, before, key, refused.now);
    assert (before + [refused])[..|before|] == before;
    SameWindowLater(l, before + [refused], before, more, key);
    AgreesWithFree(l, before + [refused] + more, key, now);
    AgreesWithFree(l, before + more, key, now);
  }

  // ----- how many calls an interval admits -----

  ghost predicate Monotone(calls: seq<Call>) {
    forall i, j :: 0 <= i < j < |calls| ==> calls[i].now <= calls[j].now
  }

  predicate Within(l: Limits, start: real, now: real) {
    start <= now < start + l.seconds as real
  }

  /** Admitted calls of `key` in the half-open interval of one window length from `start`. */
  function Admitted(l: Limits, calls: seq<Call>, key: string, start: real): nat {
    if calls == [] then 0
    else
      var n := |calls| - 1;
      Admitted(l, calls[..n], key, start) +
      (if calls[n].key == key && Within(l, start, calls[n].now) && Answer(l, calls[..n], calls[n]) then 1 else 0)
  }

  function Allowance(l: Limits): int { if l.limit < 1 then 1 else l.limit }

  ghost predicate Sound(l: Limits, window: Option<Window>, last: real) {
    window.Some? ==>
      1 <= window.value.count <= Allowance(l) && window.value.expiry - l.seconds as real <= last
  }

  /** How much an interval can have admitted, by where it lies relative to the current window. */
  function Bound(l: Limits, window: Option<Window>, start: real, last: real): int {
    if window.None? || last < start then 0
    else
      var since := window.value.expiry - l.seconds as real;
      if since < start then window.value.count - 1
      else if since < start + l.seconds as real then Allowance(l) - 1 + window.value.count
      else 2 * Allowance(l) - 1
  }

  /** A call of the key itself raises the bound by what it adds. */
  lemma BoundStep(l: Limits, window: Option<Window>, start: real, last: real, now: real)
    requires l.seconds > 0 && last <= now && Sound(l, window, last)
    ensures var (next, ok) := Decide(l, window, now);
      && Sound(l, Some(next), now)
      && Bound(l, window, start, last) + (if ok && Within(l, start, now) then 1 else 0)
         <= Bound(l, Some(next), start, now)
      && Bound(l, Some(next), start, now) <= 2 * Allowance(l) - 1
  {
  }

  lemma {:induction false} AdmittedBelowBound(l: Limits, calls: seq<Call>, key: string, start: real)
    requires l.seconds > 0 && Monotone(calls) && NeverForgotten(l, calls, key) && calls != []
    ensures var window := FreeWindow(l, calls, key);
      && Sound(l, window, calls[|calls| - 1].now)
      && Admitted(l, calls, key, start) <= Bound(l, window, start, calls[|calls| - 1].now) <= 2 * Allowance(l) - 1
  {
    var n := |calls| - 1;
    var before := calls[..n];
    assert forall i :: 0 <= i <= n ==> before[..i] == calls[..i];
    var last := if n == 0 then calls[0].now else calls[n - 1].now;
    if n > 0 {
      AdmittedBelowBound(l, before, key, start);
    }
    if calls[n].key == key {
      AgreesWithFree(l, before, key, calls[n].now);
      BoundStep(l, FreeWindow(l, before, key), start, last, calls[n].now);
    }
  }

  /** A key that is never forgotten is admitted at most twice its limit less one in any
      half-open interval as long as the window. */
  lemma IntervalBound(l: Limits, calls: seq<Call>, key: string, start: real)
    requires l.seconds > 0 && Monotone(calls) && NeverForgotten(l, calls, key)
    ensures Admitted(l, calls, key, start) <= 2 * Allowance(l) - 1
  {
    if calls != [] {
      AdmittedBelowBound(l, calls, key, start);
    }
  }

  // ----- the bound is reached -----

  /** Where a limiter serving one key stands after some calls up to the time `last`. */
  ghost predicate Standing(l: Limits, calls: seq<Call>, key: string, last: real, window: Option<Window>,
                           start: real, admitted: nat) {
    && Monotone(calls)
    && (forall c :: c in calls ==> c.key == key && c.now <= last)
    && FreeWindow(l, calls, key) == window
    && Admitted(l, calls, key, start) == admitted
  }

  lemma OneKeyAgrees(l: Limits, calls: seq<Call>, key: string, now: real)
    requires forall c :: c in calls ==> c.key == key
    ensures Answer(l, calls, Call(key, now)) == FreeAnswer(l, calls, Call(key, now))
  {
    assert CalledKeys(calls) <= {key};
    Subset(CalledKeys(calls), {key});
    FewKeysAgree(l, calls, Call(key, now));
  }

  lemma CallAppended(l: Limits, calls: seq<Call>, key: string, start: real, now: real)
    requires forall c :: c in calls ==> c.key == key
    ensures var more := calls + [Call(key, now)];
      var (next, ok) := Decide(l, FreeWindow(l, calls, key), now);
      && FreeWindow(l, more, key) == Some(next)
      && Admitted(l, more, key, start) == Admitted(l, calls, key, start) + if Within(l, start, now) && ok then 1 else 0
  {
    assert (calls + [Call(key, now)])[..|calls|] == calls;
    OneKeyAgrees(l, calls, key, now);
  }

  lemma MonotoneAppended(calls: seq<Call>, key: string, last: real, now: real)
    requires Monotone(calls) && last <= now && forall c :: c in calls ==> c.key == key && c.now <= last
    ensures var more := calls + [Call(key, now)];
      Monotone(more) && forall c :: c in more ==> c.key == key && c.now <= now
  {
    forall i | 0 <= i < |calls| ensures calls[i].now <= now {
      assert calls[i] in calls;
    }
  }

  lemma OneMore(l: Limits, calls: seq<Call>, key: string, last: real, window: Option<Window>,
                start: real, admitted: nat, now: real)
    requires Standing(l, calls, key, last, window, start, admitted) && last <= now
    ensures var (next, ok) := Decide(l, window, now);
      Standing(l, calls + [Call(key, now)], key, now, Some(next), start,
               admitted + if Within(l, start, now) && ok then 1 else 0)
  {
    CallAppended(l, calls, key, start, now);
    MonotoneAppended(calls, key, last, now);
  }

  /** A burst inside a window with room for it is admitted whole. */
  lemma {:induction false} Burst(l: Limits, calls: seq<Call>, key: string, last: real, w: Window,
                                 start: real, admitted: nat, now: real, n: nat) returns (more: seq<Call>)
    requires Standing(l, calls, key, last, Some(w), start, admitted) && last <= now
    requires Within(l, start, now) && w.expiry > now && w.count + n <= l.limit
    ensures Standing(l, more, key, now, Some(Window(w.count + n, w.expiry)), start, admitted + n)
  {
    if n == 0 {
      more := calls;
    } else {
      var before := Burst(l, calls, key, last, w, start, admitted, now, n - 1);
      OneMore(l, before, key, now, Some(Window(w.count + n - 1, w.expiry)), start, admitted + n - 1, now);
      more := before + [Call(key, now)];
    }
  }

  /** One call opens a window, and a burst in its middle fills it. */
  lemma FilledLate(l: Limits, key: string) returns (calls: seq<Call>)
    requires l.limit >= 1 && l.seconds > 0
    ensures var width := l.seconds as real;
      Standing(l, calls, key, width / 2.0, Some(Window(l.limit, width)), width / 2.0, l.limit - 1)
  {
    var width := l.seconds as real;
    OneMore(l, [], key, 0.0, None, width / 2.0, 0, 0.0);
    calls := Burst(l, [] + [Call(key, 0.0)], key, 0.0, Window(1, width), width / 2.0, 0, width / 2.0, l.limit - 1);
  }

  /** Filling a window late and the next one early reaches the bound. */
  lemma BoundReached(l: Limits, key: string) returns (calls: seq<Call>, start: real)
    requires l.limit >= 1 && l.seconds > 0
    ensures Monotone(calls) && forall c :: c in calls ==> c.key == key
    ensures Admitted(l, calls, key, start) == 2 * Allowance(l) - 1
  {
    var width := l.seconds as real;
    start := width / 2.0;
    var filled := FilledLate(l, key);
    OneMore(l, filled, key, start, Some(Window(l.limit, width)), start, l.limit - 1, width);
    var next := Window(1, width + width);
    calls := Burst(l, filled + [Call(key, width)], key, width, next, start, l.limit, width, l.limit - 1);
  }
}
