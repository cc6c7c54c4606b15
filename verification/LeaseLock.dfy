/**
 * The namespace mutation lease over a Redis-like store (persistence/locks.py). Every reading of
 * the clock is a parameter; within one operation the readings may differ but never go back.
 */
module LeaseLock {
  import opened Options

  datatype Stored = Stored(value: string, expiresAt: Option<int>)

  type Values = map<string, Stored>

  datatype Lock = Lock(targetNamespace: string, ownerId: string, leaseToken: string, leaseSeconds: int)

  function LockKey(targetNamespace: string): string {
    "mop-exec:lock:namespace:" + targetNamespace
  }

  function HeartbeatKey(workerId: string): string {
    "mop-exec:worker:" + workerId + ":heartbeat"
  }

  function LockValue(ownerId: string, leaseToken: string): string {
    ownerId + ":" + leaseToken
  }

  // ----- The store -----

  predicate Expired(stored: Stored, now: int) {
    stored.expiresAt.Some? && stored.expiresAt.value <= now
  }

  /** What a reader sees under a name at a time. */
  function Live(values: Values, name: string, now: int): Option<string> {
    if name in values && !Expired(values[name], now) then Some(values[name].value) else None
  }

  function Purged(values: Values, name: string, now: int): Values {
    if name in values && Expired(values[name], now) then values - {name} else values
  }

  /** The Redis-like client, updated in place. */
  class Client {
    var values: Values

    constructor ()
      ensures values == map[]
    {
      values := map[];
    }

    method PurgeIfExpired(name: string, now: int)
      modifies this
      ensures values == Purged(old(values), name, now)
    {
      if name in values && Expired(values[name], now) {
        values := values - {name};
      }
    }

    /** An absent or zero ex means that the value never expires. */
    method Set(name: string, value: string, nx: bool, xx: bool, ex: Option<int>, t0: int, t1: int)
        returns (stored: bool)
      modifies this
      ensures stored <==> !(nx && Live(old(values), name, t0).Some?) && !(xx && Live(old(values), name, t0).None?)
      ensures values == if stored then SetIn(Purged(old(values), name, t0), name, value, ex, t1)
                        else Purged(old(values), name, t0)
    {
      PurgeIfExpired(name, t0);
      var present := name in values;
      if nx && present {
        return false;
      }
      if xx && !present {
        return false;
      }
      var expiresAt := if ex.Some? && ex.value != 0 then Some(t1 + ex.value) else None;
      values := values[name := Stored(value, expiresAt)];
      stored := true;
    }

    method Get(name: string, now: int) returns (value: Option<string>)
      modifies this
      ensures value == Live(old(values), name, now)
      ensures values == Purged(old(values), name, now)
    {
      PurgeIfExpired(name, now);
      value := if name in values then Some(values[name].value) else None;
    }

    method Delete(name: string) returns (count: nat)
      modifies this
      ensures count == if name in old(values) then 1 else 0
      ensures values == old(values) - {name}
    {
      count := if name in values then 1 else 0;
      values := values - {name};
    }

    method Expire(name: string, seconds: int, t0: int, t1: int) returns (found: bool)
      modifies this
      ensures found <==> Live(old(values), name, t0).Some?
      ensures values == if found then old(values)[name := old(values)[name].(expiresAt := Some(t1 + seconds))]
                        else Purged(old(values), name, t0)
    {
      PurgeIfExpired(name, t0);
      if name !in values {
        return false;
      }
      values := values[name := Stored(values[name].value, Some(t1 + seconds))];
      found := true;
    }
  }

  function SetIn(values: Values, name: string, value: string, ex: Option<int>, now: int): Values {
    values[name := Stored(value, if ex.Some? && ex.value != 0 then Some(now + ex.value) else None)]
  }

  // ----- What the service's operations do -----

  datatype Op =
    | Acquire(lock: Lock, t0: int, t1: int)
    | Renew(lock: Lock, t0: int, t1: int, t2: int)
    | Release(lock: Lock, t0: int)
    | Heartbeat(workerId: string, payload: string, ttl: int, t0: int, t1: int)

  function KeyOf(lock: Lock): string {
    LockKey(lock.targetNamespace)
  }

  function ValueOf(lock: Lock): string {
    LockValue(lock.ownerId, lock.leaseToken)
  }

  /** The lock is the one stored and unexpired: its next renewal would be let in. */
  predicate Holds(values: Values, lock: Lock, now: int) {
    Live(values, KeyOf(lock), now) == Some(ValueOf(lock))
  }

  function Extended(values: Values, lock: Lock, t1: int, t2: int): Values {
    var key := KeyOf(lock);
    if Live(values, key, t1).Some? then values[key := values[key].(expiresAt := Some(t2 + lock.leaseSeconds))]
    else Purged(values, key, t1)
  }

  /** The store after an operation, and whether the operation succeeded. */
  function Step(values: Values, op: Op): (Values, bool) {
    match op
    case Acquire(lock, t0, t1) =>
      var free := Live(values, KeyOf(lock), t0).None?;
      var purged := Purged(values, KeyOf(lock), t0);
      (if free then SetIn(purged, KeyOf(lock), ValueOf(lock), Some(lock.leaseSeconds), t1) else purged, free)
    case Renew(lock, t0, t1, t2) =>
      var purged := Purged(values, KeyOf(lock), t0);
      if Holds(values, lock, t0) then (Extended(purged, lock, t1, t2), Live(purged, KeyOf(lock), t1).Some?)
      else (purged, false)
    case Release(lock, t0) =>
      var purged := Purged(values, KeyOf(lock), t0);
      if Holds(values, lock, t0) then (purged - {KeyOf(lock)}, true) else (purged, false)
    case Heartbeat(workerId, payload, ttl, t0, t1) =>
      var key := HeartbeatKey(workerId);
      (SetIn(Purged(values, key, t0), key, payload, Some(ttl), t1), true)
  }

  class NamespaceLockService {
    const client: Client
    const leaseSeconds: int

    constructor (c: Client, lease: int)
      ensures client == c && leaseSeconds == lease
    {
      client, leaseSeconds := c, lease;
    }

    /** token stands for the fresh identifier the service draws. */
    method Acquire(targetNamespace: string, ownerId: string, token: string, t0: int, t1: int)
        returns (lock: Option<Lock>)
      modifies client
      ensures var wanted := Lock(targetNamespace, ownerId, token, leaseSeconds);
              && client.values == Step(old(client.values), Op.Acquire(wanted, t0, t1)).0
              && lock == if Step(old(client.values), Op.Acquire(wanted, t0, t1)).1 then Some(wanted) else None
    {
      var wanted := Lock(targetNamespace, ownerId, token, leaseSeconds);
      var stored := client.Set(LockKey(targetNamespace), LockValue(ownerId, token), true, false, Some(leaseSeconds),
          t0, t1);
      lock := if stored then Some(wanted) else None;
    }

    method Renew(lock: Lock, t0: int, t1: int, t2: int) returns (ok: bool)
      modifies client
      ensures (client.values, ok) == Step(old(client.values), Op.Renew(lock, t0, t1, t2))
    {
      var value := client.Get(LockKey(lock.targetNamespace), t0);
      if value != Some(LockValue(lock.ownerId, lock.leaseToken)) {
        return false;
      }
      ok := client.Expire(LockKey(lock.targetNamespace), lock.leaseSeconds, t1, t2);
    }

    method Release(lock: Lock, t0: int) returns (ok: bool)
      modifies client
      ensures (client.values, ok) == Step(old(client.values), Op.Release(lock, t0))
    {
      var value := client.Get(LockKey(lock.targetNamespace), t0);
      if value != Some(LockValue(lock.ownerId, lock.leaseToken)) {
        return false;
      }
      var count := client.Delete(LockKey(lock.targetNamespace));
      ok := count == 1;
    }
  }

  // ----- Runs -----

  // The store, the locks handed out so far, and the latest reading of the clock.
  datatype World = World(values: Values, issued: set<Lock>, clock: int)

  predicate TimesInOrder(op: Op, clock: int) {
    match op
    case Acquire(_, t0, t1) => clock <= t0 <= t1
    case Renew(_, t0, t1, t2) => clock <= t0 <= t1 <= t2
    case Release(_, t0) => clock <= t0
    case Heartbeat(_, _, _, t0, t1) => clock <= t0 <= t1
  }

  function LastTime(op: Op): int {
    match op
    case Acquire(_, _, t1) => t1
    case Renew(_, _, _, t2) => t2
    case Release(_, t0) => t0
    case Heartbeat(_, _, _, _, t1) => t1
  }

  /** Tokens are fresh and hold no colon; only issued locks are renewed or released. */
  predicate Admissible(w: World, op: Op) {
    && TimesInOrder(op, w.clock)
    && (op.Acquire? ==> ':' !in op.lock.leaseToken && forall l :: l in w.issued ==> l.leaseToken != op.lock.leaseToken)
    && (op.Renew? || op.Release? ==> op.lock in w.issued)
  }

  function Next(w: World, op: Op): World {
    var (values, ok) := Step(w.values, op);
    World(values, w.issued + if op.Acquire? && ok then {op.lock} else {}, LastTime(op))
  }

  ghost predicate AdmissibleRun(w: World, ops: seq<Op>)
  {
    ops == [] || (AdmissibleRun(w, ops[..|ops| - 1]) && Admissible(After(w, ops[..|ops| - 1]), ops[|ops| - 1]))
  }

  function After(w: World, ops: seq<Op>): World {
    if ops == [] then w else Next(After(w, ops[..|ops| - 1]), ops[|ops| - 1])
  }

  function Start(clock: int): World {
    World(map[], {}, clock)
  }

  /** Issued locks carry different tokens. */
  ghost predicate WellIssued(w: World) {
    && (forall l :: l in w.issued ==> ':' !in l.leaseToken)
    && (forall a, b :: a in w.issued && b in w.issued && a.leaseToken == b.leaseToken ==> a == b)
  }

  lemma {:induction false} RunIsWellIssued(w: World, ops: seq<Op>)
    requires WellIssued(w) && AdmissibleRun(w, ops)
    ensures WellIssued(After(w, ops)) && w.clock <= After(w, ops).clock && w.issued <= After(w, ops).issued
  {
    if ops != [] {
      RunIsWellIssued(w, ops[..|ops| - 1]);
    }
  }

  lemma LockValueIsInjective(o1: string, t1: string, o2: string, t2: string)
    requires ':' !in t1 && ':' !in t2 && LockValue(o1, t1) == LockValue(o2, t2)
    ensures o1 == o2 && t1 == t2
  {
    LastColon(o1, t1);
    LastColon(o2, t2);
    var v := LockValue(o1, t1);
    assert |o1| == |o2|;
    assert v[..|o1|] == o1 && v[..|o2|] == o2;
    assert v[|o1| + 1..] == t1 && v[|o2| + 1..] == t2;
  }

  lemma LastColon(owner: string, token: string)
    requires ':' !in token
    ensures var v := LockValue(owner, token);
            |owner| < |v| && v[|owner|] == ':' && forall k :: |owner| < k < |v| ==> v[k] != ':'
  {
    var v := LockValue(owner, token);
    assert forall k :: |owner| < k < |v| ==> v[k] == token[k - |owner| - 1];
  }

  lemma KeysAreApart(a: string, b: string)
    ensures LockKey(a) != HeartbeatKey(b)
    ensures LockKey(a) == LockKey(b) ==> a == b
  {
    assert LockKey(a)[9] == 'l' && HeartbeatKey(b)[9] == 'w';
    assert LockKey(a)[24..] == a && LockKey(b)[24..] == b;
  }

  /**
   * Mutual exclusion: in every reachable state and at every later time, at most one of the issued
   * locks of a namespace can still renew.
   */
  lemma MutualExclusion(start: int, ops: seq<Op>, a: Lock, b: Lock, now: int)
    requires AdmissibleRun(Start(start), ops)
    requires var w := After(Start(start), ops);
             a in w.issued && b in w.issued && Holds(w.values, a, now) && Holds(w.values, b, now)
    requires a.targetNamespace == b.targetNamespace
    ensures a == b
  {
    hide AdmissibleRun, After, LockValue;
    RunIsWellIssued(Start(start), ops);
    LockValueIsInjective(a.ownerId, a.leaseToken, b.ownerId, b.leaseToken);
  }

  /** Acquiring succeeds exactly when nobody's lease on the namespace is unexpired. */
  lemma AcquireIffFree(values: Values, lock: Lock, t0: int, t1: int)
    ensures Step(values, Acquire(lock, t0, t1)).1 <==>
              !(KeyOf(lock) in values && (values[KeyOf(lock)].expiresAt.Some?
                  ==> t0 < values[KeyOf(lock)].expiresAt.value))
    ensures Step(values, Acquire(lock, t0, t1)).1 ==>
              forall now :: Holds(Step(values, Acquire(lock, t0, t1)).0, lock, now) <==>
                              (lock.leaseSeconds == 0 || now < t1 + lock.leaseSeconds)
  {}

  /** Other namespaces and heartbeats read as before. */
  ghost predicate OnlyTouches(before: Values, after: Values, key: string) {
    forall name, now :: name != key ==> Live(after, name, now) == Live(before, name, now)
  }

  /** Releasing an own live lease frees the namespace at once. */
  lemma HolderReleases(values: Values, lock: Lock, t0: int)
    requires Holds(values, lock, t0)
    ensures var (after, ok) := Step(values, Release(lock, t0));
            ok && KeyOf(lock) !in after && OnlyTouches(values, after, KeyOf(lock))
  {}

  /** Renewing an own lease that is still live when it is extended keeps it for another full term. */
  lemma HolderRenews(values: Values, lock: Lock, t0: int, t1: int, t2: int)
    requires Holds(values, lock, t0) && Holds(values, lock, t1)
    ensures var (after, ok) := Step(values, Renew(lock, t0, t1, t2));
            && ok && OnlyTouches(values, after, KeyOf(lock))
            && forall now :: Holds(after, lock, now) <==> now < t2 + lock.leaseSeconds
  {}

  /** Two stores that no reader can tell apart from a time on. */
  ghost predicate SameFrom(a: Values, b: Values, time: int) {
    forall name, now :: time <= now ==> Live(a, name, now) == Live(b, name, now)
  }

  /** A holder whose lease is gone changes nothing anyone can see by renewing or releasing. */
  lemma StaleHolderIsHarmless(values: Values, lock: Lock, t0: int, t1: int, t2: int)
    requires !Holds(values, lock, t0)
    ensures !Step(values, Renew(lock, t0, t1, t2)).1 && SameFrom(values, Step(values, Renew(lock, t0, t1, t2)).0, t0)
    ensures !Step(values, Release(lock, t0)).1 && SameFrom(values, Step(values, Release(lock, t0)).0, t0)
  {}

  /** No operation gives a lost lease back: only its own acquisition ever wrote its value. */
  lemma LostStaysLostStep(w: World, op: Op, lock: Lock, now: int)
    requires WellIssued(w) && Admissible(w, op) && lock in w.issued
    requires forall t :: w.clock <= t ==> !Holds(w.values, lock, t)
    requires LastTime(op) <= now
    ensures !Holds(Next(w, op).values, lock, now)
  {
    hide LockValue, LockKey, HeartbeatKey;
    assert !Holds(w.values, lock, now);
    match op
    case Acquire(other, t0, t1) =>
      KeysAreApart(lock.targetNamespace, other.targetNamespace);
      if ValueOf(other) == ValueOf(lock) {
        LockValueIsInjective(other.ownerId, other.leaseToken, lock.ownerId, lock.leaseToken);
        assert false;
      }
    case Renew(other, t0, t1, t2) =>
      KeysAreApart(lock.targetNamespace, other.targetNamespace);
      if ValueOf(other) == ValueOf(lock) {
        LockValueIsInjective(other.ownerId, other.leaseToken, lock.ownerId, lock.leaseToken);
        assert !Holds(w.values, lock, t0);
      }
    case Release(other, t0) =>
    case Heartbeat(workerId, payload, ttl, t0, t1) =>
      KeysAreApart(lock.targetNamespace, workerId);
  }

  /** A lease that has run out stays lost through every later run. */
  lemma {:induction false} LostStaysLost(w: World, ops: seq<Op>, lock: Lock, now: int)
    requires WellIssued(w) && AdmissibleRun(w, ops) && lock in w.issued
    requires !Holds(w.values, lock, w.clock)
    requires After(w, ops).clock <= now
    ensures !Holds(After(w, ops).values, lock, now)
  {
    hide LockValue, LockKey, Admissible;
    if ops != [] {
      var init := ops[..|ops| - 1];
      var before := After(w, init);
      RunIsWellIssued(w, init);
      forall t | before.clock <= t ensures !Holds(before.values, lock, t) {
        LostStaysLost(w, init, lock, t);
      }
      LostStaysLostStep(before, ops[|ops| - 1], lock, now);
    }
  }

  /**
   * Once a namespace has been acquired anew, no earlier lock of it is ever renewed again, in any
   * continuation of the run.
   */
  lemma NewHolderEndsTheOld(start: int, ops: seq<Op>, op: Op, later: seq<Op>, earlier: Lock, now: int)
    requires AdmissibleRun(Start(start), ops)
    requires var w := After(Start(start), ops);
             && Admissible(w, op) && op.Acquire? && Step(w.values, op).1
             && earlier in w.issued && earlier.targetNamespace == op.lock.targetNamespace
             && AdmissibleRun(Next(w, op), later)
    requires After(Next(After(Start(start), ops), op), later).clock <= now
    ensures !Holds(After(Start(start), ops).values, earlier, op.t0)
    ensures !Holds(After(Next(After(Start(start), ops), op), later).values, earlier, now)
  {
    hide AdmissibleRun, After, LockValue;
    var w := After(Start(start), ops);
    RunIsWellIssued(Start(start), ops);
    var next := Next(w, op);
    if Holds(next.values, earlier, next.clock) {
      LockValueIsInjective(earlier.ownerId, earlier.leaseToken, op.lock.ownerId, op.lock.leaseToken);
      assert false;
    }
    assert WellIssued(next);
    LostStaysLost(next, later, earlier, now);
  }
}
