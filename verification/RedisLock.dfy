/** The Redis lease lock (pkg/redis_lock/redis_lock.go). Redis runs each script atomically, so what the lock
    key goes through is determined by the scripts in the order Redis executes them. */
module RedisLock {
  import opened Strconv

  const TOLERANCE: int := 500           // milliseconds
  const MILLIS_PER_SECOND: int := 1000

  /** One script execution, at a time in milliseconds on the server's clock. */
  datatype Script =
    | LockScript(id: string, px: int, at: int)
    | DelScript(id: string, at: int)

  /** The lock key: absent, or held by owner with a time of expiry. */
  datatype Key = Free | Held(owner: string, expireAt: int)

  /** Redis drops a key once its expiry time has come. */
  function At(k: Key, now: int): Key { if k.Held? && now >= k.expireAt then Free else k }

  /** lockCommand replies OK. */
  predicate Grants(k: Key, s: Script)
    requires s.LockScript?
  {
    var now := At(k, s.at);
    now.Free? || now.owner == s.id
  }

  /** delCommand replies 1. */
  predicate Deletes(k: Key, s: Script)
    requires s.DelScript?
  {
    var now := At(k, s.at);
    now.Held? && now.owner == s.id
  }

  /** What a script leaves. */
  function Do(k: Key, s: Script): Key {
    match s
    case LockScript(id, px, at) => if Grants(k, s) then Held(id, at + px) else At(k, at)
    case DelScript(_, at) => if Deletes(k, s) then Free else At(k, at)
  }

  function After(log: seq<Script>): Key { if log == [] then Free else Do(After(log[..|log| - 1]), log[|log| - 1]) }

  /** The server's clock does not go back. */
  ghost predicate InOrder(log: seq<Script>) { forall i, j | 0 <= i < j < |log| :: log[i].at <= log[j].at }

  /** The i-th script is a lock that was granted. */
  ghost predicate Granted(log: seq<Script>, i: nat)
    requires i < |log|
  {
    log[i].LockScript? && Grants(After(log[..i]), log[i])
  }

  /** No script between i and j is from id. */
  ghost predicate NoneOf(id: string, log: seq<Script>, i: nat, j: nat)
    requires j <= |log|
  {
    forall m | i < m < j :: log[m].id != id
  }

  lemma AfterNext(log: seq<Script>, j: nat)
    requires 0 < j <= |log|
    ensures After(log[..j]) == Do(After(log[..j - 1]), log[j - 1])
  {
    assert log[..j][..j - 1] == log[..j - 1];
  }

  /** The lease of a grant lasts its full time, whatever other clients do. */
  lemma {:induction false} LeaseHolds(log: seq<Script>, i: nat, j: nat)
    requires InOrder(log) && i < j <= |log| && Granted(log, i) && NoneOf(log[i].id, log, i, j)
    ensures forall now | (forall m | i <= m < j :: log[m].at <= now) && now < log[i].at + log[i].px ::
              At(After(log[..j]), now) == Held(log[i].id, log[i].at + log[i].px)
  {
    AfterNext(log, j);
    if j > i + 1 {
      LeaseHolds(log, i, j - 1);
      var now := log[j - 1].at;
      assert forall m | i <= m < j - 1 :: log[m].at <= now;
    }
  }

  /** Mutual exclusion: after A's last grant or refresh, at time t with a lease of px, no other id is granted the
      lock before t + px; except if A has unlocked. */
  lemma Exclusion(log: seq<Script>, i: nat, j: nat)
    requires InOrder(log) && i < j < |log| && Granted(log, i) && NoneOf(log[i].id, log, i, j)
    requires Granted(log, j) && log[j].id != log[i].id
    ensures log[j].at >= log[i].at + log[i].px
  {
    LeaseHolds(log, i, j);
  }

  /** And it ends there: once that time has come anyone is granted the lock. */
  lemma LeaseEnds(k: Key, s: Script, other: string, px: int, at: int)
    requires s.LockScript? && Grants(k, s) && at >= s.at + s.px
    ensures At(Do(k, s), at) == Free && Grants(Do(k, s), LockScript(other, px, at))
  {
  }

  /** A script of another id neither deletes, extends nor takes over a running lease. */
  lemma OthersChangeNothing(k: Key, s: Script)
    requires At(k, s.at).Held? && s.id != k.owner
    ensures Do(k, s) == k && (s.LockScript? ==> !Grants(k, s)) && (s.DelScript? ==> !Deletes(k, s))
  {
  }

  /** The owner's unlock frees the key at once, and only a running lease can be unlocked. */
  lemma UnlockExact(k: Key, id: string, at: int, other: string, px: int)
    ensures Deletes(k, DelScript(id, at)) <==> k.Held? && k.owner == id && at < k.expireAt
    ensures Deletes(k, DelScript(id, at)) ==> Grants(Do(k, DelScript(id, at)), LockScript(other, px, at))
  {
  }

  /** Ids must differ: while a lease is running, a second client is granted the lock exactly if it has the same id. */
  lemma SameIdBothGranted(id: string, other: string, px: int, at: int, at': int)
    requires at <= at' < at + px
    ensures Granted([LockScript(id, px, at), LockScript(other, px, at')], 0)
    ensures Granted([LockScript(id, px, at), LockScript(other, px, at')], 1) <==> other == id
  {
    var log := [LockScript(id, px, at), LockScript(other, px, at')];
    assert log[..0] == [];
    assert log[..1] == [log[0]] && log[..1][..0] == [];
  }

  /** The scripts of log, all executed by now, have left key. */
  ghost predicate IsHistory(log: seq<Script>, key: Key, now: int) {
    InOrder(log) && key == After(log) && forall i | 0 <= i < |log| :: log[i].at <= now
  }

  lemma HistorySnoc(log: seq<Script>, key: Key, s: Script)
    requires IsHistory(log, key, s.at)
    ensures IsHistory(log + [s], Do(key, s), s.at)
  {
    assert (log + [s])[..|log|] == log;
  }

  // ----------------------------------------------------------------- clients

  class Redis {
    const reliable: bool  // every call gets its reply
    var key: Key
    var now: int
    ghost var log: seq<Script>  // every script executed so far

    ghost predicate Valid()
      reads this
    {
      IsHistory(log, key, now)
    }

    constructor (reliable: bool)
      ensures Valid() && log == [] && this.reliable == reliable
    {
      this.reliable, key, now, log := reliable, Free, 0, [];
    }

    method Run(s: Script)
      requires Valid() && s.at == now
      modifies this
      ensures Valid() && log == old(log) + [s] && key == Do(old(key), s) && now == old(now)
    {
      ghost var longer := log + [s];
      HistorySnoc(log, key, s);
      key := Do(key, s);
      log := longer;
    }

    /** Time passes and other clients run scripts, before a script of id. */
    method Others(id: string)
      requires Valid()
      modifies this
      ensures Valid() && |log| >= |old(log)| && log[..|old(log)|] == old(log)
      ensures forall i | |old(log)| <= i < |log| :: log[i].id != id
      ensures now >= old(now)
    {
      var steps: nat :| true;
      ghost var before := log;
      for n := 0 to steps
        invariant Valid() && |log| >= |before| && log[..|before|] == before && now >= old(now)
        invariant forall i | |before| <= i < |log| :: log[i].id != id
      {
        var wait: nat :| true;
        now := now + wait;
        assert DelScript(id, now).at == now;
        var s: Script :| s.at == now;
        if s.id != id { Run(s); }
      }
    }
  }

  /** What a call returns; Error stands for err != nil, after which the script may have run or not. */
  datatype Reply = Yes | No | Error

  /** go's time.Duration and time.Time, in nanoseconds; the zero Time is 1 January of year 1. */
  newtype Duration = d: int | -0x8000_0000_0000_0000 <= d < 0x8000_0000_0000_0000

  const ZERO_TIME: int := -62135596800 * 1_000_000_000

  class Clock {
    const advances: bool  // every call on Redis takes at least a nanosecond
    var now: int

    constructor (advances: bool)
      ensures now >= 0 && this.advances == advances
    {
      this.advances, now := advances, 0;
    }

    /** Time passes during a call on Redis. */
    method Pass()
      modifies this
      ensures now >= old(now) && (advances ==> now > old(now))
    {
      var wait: nat :| true;
      now := now + wait + if advances then 1 else 0;
    }

    /** time.Sleep returns after at least d. */
    method Sleep(d: Duration)
      modifies this
      ensures now >= old(now) && now >= old(now) + d as int
    {
      var wait: nat :| true;
      now := now + wait + if d > 0 then d as int else 0;
    }
  }

  /** One failed attempt of TryLock that is not the last: when it tests the deadline and when it wakes up. */
  datatype Attempt = Attempt(testedAt: int, wokenAt: int)

  function BegunAt(start: int, attempts: seq<Attempt>, i: nat): int
    requires i <= |attempts|
  {
    if i == 0 then start else attempts[i - 1].wokenAt
  }

  /** After attempt number i there was time for another one. */
  predicate LeavesTime(start: int, timeout: int, retry: int, attempts: seq<Attempt>, i: nat)
    requires i < |attempts|
  {
    var a := attempts[i];
    BegunAt(start, attempts, i) <= a.testedAt <= start + timeout - retry && a.wokenAt >= a.testedAt
    && a.wokenAt >= a.testedAt + retry
  }

  /** TryLock, begun at start, can make these attempts and go on. */
  ghost predicate GoesOn(start: int, timeout: int, retry: int, attempts: seq<Attempt>) {
    forall i: nat | i < |attempts| :: LeavesTime(start, timeout, retry, attempts, i)
  }

  ghost predicate AtMost(start: int, timeout: int, retry: int, bound: nat) {
    forall attempts | GoesOn(start, timeout, retry, attempts) :: |attempts| <= bound
  }

  lemma {:induction false} EachTakesRetry(start: int, timeout: int, retry: int, attempts: seq<Attempt>, n: nat)
    requires GoesOn(start, timeout, retry, attempts) && n <= |attempts| && retry > 0
    ensures BegunAt(start, attempts, n) >= start + n * retry && (n > 0 ==> n * retry <= timeout)
  {
    if n > 0 {
      EachTakesRetry(start, timeout, retry, attempts, n - 1);
      assert LeavesTime(start, timeout, retry, attempts, n - 1);
      OneMore(n - 1, retry);
    }
  }

  lemma OneMore(n: nat, retry: int)
    ensures (n + 1) * retry == n * retry + retry
  {
  }

  /** With a timeout, the number of attempts is bounded exactly if WaitRetry is positive; otherwise TryLock can
      go round any number of times at one and the same clock reading. */
  lemma AttemptsBoundedExactly(start: int, timeout: int, retry: int)
    requires timeout > 0
    ensures (exists bound: nat :: AtMost(start, timeout, retry, bound)) <==> retry > 0
  {
    if retry > 0 {
      forall attempts | GoesOn(start, timeout, retry, attempts) ensures |attempts| <= timeout {
        EachTakesRetry(start, timeout, retry, attempts, |attempts|);
        assert |attempts| * retry >= |attempts|;
      }
      assert AtMost(start, timeout, retry, timeout);
    } else {
      forall bound: nat ensures !AtMost(start, timeout, retry, bound) {
        var attempts := seq(bound + 1, _ => Attempt(start, start));
        assert GoesOn(start, timeout, retry, attempts);
      }
    }
  }

  /** The last script is an unlock that deleted the key. */
  ghost predicate Deleted(log: seq<Script>) {
    log != [] && log[|log| - 1].DelScript? && Deletes(After(log[..|log| - 1]), log[|log| - 1])
  }

  datatype Options = Options(lockSeconds: nat, waitTimeout: Duration, waitRetry: Duration)

  const MILLISECOND: Duration := 1_000_000

  class Lock {
    const redis: Redis
    const clock: Clock
    const id: string
    const lockSeconds: nat
    const waitTimeout: Duration
    const waitRetry: Duration

    /** NewRedisLock: options that are missing or zero get defaults. */
    constructor (redis: Redis, clock: Clock, id: string, opt: Option<Options>)
      ensures this.redis == redis && this.clock == clock && this.id == id
      ensures lockSeconds > 0 && waitRetry != 0
      ensures opt.None? ==> lockSeconds == 3 && waitTimeout == 0 && waitRetry == 100_000_000
      ensures opt.Some? ==> waitTimeout == opt.value.waitTimeout
      ensures opt.Some? ==> lockSeconds == if opt.value.lockSeconds > 0 then opt.value.lockSeconds else 10
      ensures opt.Some? ==> waitRetry == if opt.value.waitRetry != 0 then opt.value.waitRetry else 100_000_000
    {
      var o := if opt.None? then Options(3, 0, 100 * MILLISECOND) else opt.value;
      this.redis, this.clock, this.id := redis, clock, id;
      lockSeconds := if o.lockSeconds == 0 then 10 else o.lockSeconds;
      waitTimeout := o.waitTimeout;
      waitRetry := if o.waitRetry == 0 then 100 * MILLISECOND else o.waitRetry;
    }

    function Px(): int { lockSeconds * MILLIS_PER_SECOND + TOLERANCE }

    /** Lock: Yes means that the lease began with the last script Redis ran. */
    method Acquire() returns (r: Reply)
      requires redis.Valid()
      modifies redis
      ensures redis.Valid() && (redis.reliable ==> !r.Error?)
      ensures r.Yes? ==> var log := redis.log;
                && log != [] && Granted(log, |log| - 1)
                && log[|log| - 1] == LockScript(id, lockSeconds * 1000 + 500, redis.now)
                && redis.key == Held(id, redis.now + lockSeconds * 1000 + 500)
      ensures r.No? ==>
                redis.log != [] && !Granted(redis.log, |redis.log| - 1) && redis.key.Held? && redis.key.owner != id
    {
      redis.Others(id);
      r := Error;
      var reached := *;
      if reached || redis.reliable {
        var s := LockScript(id, Px(), redis.now);
        var granted := Grants(redis.key, s);
        ghost var before := redis.log;
        redis.Run(s);
        assert redis.log[..|redis.log| - 1] == before;
        var replied := *;
        if replied || redis.reliable { r := if granted then Yes else No; }
      }
    }

    /** UnLock: Yes exactly if this id's lease was still running, and then the key is gone. */
    method Release() returns (r: Reply)
      requires redis.Valid()
      modifies redis
      ensures redis.Valid() && (redis.reliable ==> !r.Error?)
      ensures r.Yes? ==> redis.key == Free && Deleted(redis.log)
      ensures r.No? ==> !Deleted(redis.log) && (redis.key.Held? ==> redis.key.owner != id)
    {
      redis.Others(id);
      r := Error;
      var reached := *;
      if reached || redis.reliable {
        var s := DelScript(id, redis.now);
        var deleted := Deletes(redis.key, s);
        ghost var before := redis.log;
        redis.Run(s);
        assert redis.log[..|redis.log| - 1] == before;
        var replied := *;
        if replied || redis.reliable { r := if deleted then Yes else No; }
      }
    }

    /** TryLock gives up only when there is no time for another attempt; without a timeout it makes exactly one
        attempt, with one at most timeout / retry + 1. If WaitRetry is negative it still ends if the clock
        advances with every attempt. */
    method TryLock() returns (ok: bool, attempts: nat)
      requires redis.Valid() && clock.now >= 0
      requires waitTimeout > 0 ==> waitRetry > 0 || clock.advances
      modifies redis, clock
      ensures redis.Valid() && attempts >= 1
      ensures ok ==> redis.log != [] && Granted(redis.log, |redis.log| - 1) && redis.log[|redis.log| - 1].id == id
      ensures !ok && redis.reliable ==> redis.log != [] && !Granted(redis.log, |redis.log| - 1)
      ensures waitTimeout <= 0 ==> attempts == 1
      ensures waitTimeout > 0 && waitRetry > 0 ==> (attempts - 1) * waitRetry as int <= waitTimeout as int
      ensures waitTimeout > 0 && clock.advances ==>
                attempts - 1 <= waitTimeout as int - waitRetry as int || attempts == 1
      ensures !ok && waitTimeout > 0 ==> clock.now + waitRetry as int > old(clock.now) + waitTimeout as int
    {
      var stop := ZERO_TIME;
      ghost var start := clock.now;
      if waitTimeout > 0 {
        stop := clock.now + waitTimeout as int;
      }
      attempts := 0;
      ghost var used: int := 0;
      while true
        invariant redis.Valid() && clock.now >= start
        invariant waitTimeout <= 0 ==> attempts == 0 && stop == ZERO_TIME
        invariant waitTimeout > 0 ==> stop == start + waitTimeout as int
        invariant used == attempts * waitRetry as int
        invariant waitTimeout > 0 && waitRetry > 0 ==> used <= clock.now - start && used <= waitTimeout as int
        invariant waitTimeout > 0 && clock.advances ==>
                    attempts <= clock.now - start
                    && (attempts == 0 || attempts <= waitTimeout as int - waitRetry as int)
        decreases if waitRetry > 0 then stop - clock.now else stop - waitRetry as int - clock.now
      {
        var r := Acquire();
        clock.Pass();
        attempts := attempts + 1;
        if r.Yes? {
          return true, attempts;
        }
        if waitTimeout == 0 {
          break;
        }
        if clock.now + waitRetry as int > stop {
          break;
        }
        clock.Sleep(waitRetry);
        OneMore(attempts - 1, waitRetry as int);
        used := used + waitRetry as int;
      }
      ok := false;
    }
  }
}
