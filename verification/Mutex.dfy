/** The cluster-wide lock kept in Redis with a time to live (lib/util/mutex.ts). Times are in milliseconds. */
module Mutex {
  import opened Wrappers

  /* ---------- one call: how many attempts, how much sleep ---------- */

  /** The loop goes on after `done` failed attempts. */
  predicate GoesOn(timeout: int, delay: nat, done: nat)
  {
    timeout == -1 || done * delay <= timeout
  }

  /** The first `n` attempts fail, and the loop goes on after each of them. */
  predicate Fails(timeout: int, delay: nat, succeeds: nat -> bool, n: nat)
  {
    n == 0 || (Fails(timeout, delay, succeeds, n - 1) && !succeeds(n - 1) && GoesOn(timeout, delay, n))
  }

  /** Attempt number `k`, counted from 0, takes place and is the last one. */
  predicate LastAttempt(timeout: int, delay: nat, succeeds: nat -> bool, k: nat)
  {
    Fails(timeout, delay, succeeds, k) && (succeeds(k) || !GoesOn(timeout, delay, k + 1))
  }

  lemma {:induction false} FailsBefore(timeout: int, delay: nat, succeeds: nat -> bool, n: nat, j: nat)
    requires Fails(timeout, delay, succeeds, n) && j < n
    ensures !succeeds(j) && GoesOn(timeout, delay, j + 1)
  {
    if j < n - 1 {
      FailsBefore(timeout, delay, succeeds, n - 1, j);
    }
  }

  /**
   * The outcome of the loop is determined by the attempts: the last one is the first that succeeds or exhausts the
   * time.
   */
  lemma LastAttemptIsUnique(timeout: int, delay: nat, succeeds: nat -> bool, k: nat, l: nat)
    requires LastAttempt(timeout, delay, succeeds, k) && LastAttempt(timeout, delay, succeeds, l)
    ensures k == l
  {
    if k < l {
      FailsBefore(timeout, delay, succeeds, l, k);
    } else if l < k {
      FailsBefore(timeout, delay, succeeds, k, l);
    }
  }

  lemma Quotient(a: nat, d: nat, k: nat)
    requires d > 0
    ensures k * d <= a <==> k <= a / d
  {
    if k <= a / d {
      assert k * d <= (a / d) * d;
    } else {
      assert k * d >= (a / d + 1) * d;
    }
  }

  /** With a timeout T ≥ 0 and a delay d > 0, at most ⌊T/d⌋ + 1 attempts, all of them when none succeeds. */
  lemma AttemptsAreBounded(timeout: nat, delay: nat, succeeds: nat -> bool, k: nat)
    requires delay > 0 && LastAttempt(timeout, delay, succeeds, k)
    ensures k + 1 <= timeout / delay + 1
    ensures !succeeds(k) ==> k + 1 == timeout / delay + 1
    ensures k * delay <= timeout
  {
    Quotient(timeout, delay, k);
    Quotient(timeout, delay, k + 1);
    assert k > 0 ==> GoesOn(timeout, delay, k);
  }

  ghost predicate NeverEnds(timeout: int, delay: nat, succeeds: nat -> bool)
  {
    forall n: nat :: Fails(timeout, delay, succeeds, n)
  }

  /** No attempt succeeds, and there is no timeout to exhaust. */
  ghost predicate Hopeless(timeout: int, delay: nat, succeeds: nat -> bool)
  {
    (forall j: nat :: !succeeds(j)) && (timeout == -1 || (timeout >= 0 && delay == 0))
  }

  lemma NeverEndsIff(timeout: int, delay: nat, succeeds: nat -> bool)
    ensures NeverEnds(timeout, delay, succeeds) <==> Hopeless(timeout, delay, succeeds)
  {
    if NeverEnds(timeout, delay, succeeds) {
      forall j: nat ensures !succeeds(j) {
        assert Fails(timeout, delay, succeeds, j + 1);
        FailsBefore(timeout, delay, succeeds, j + 1, j);
      }
      assert Fails(timeout, delay, succeeds, 1) && GoesOn(timeout, delay, 1);
      if timeout >= 0 && delay > 0 {
        assert Fails(timeout, delay, succeeds, timeout / delay + 1);
        Quotient(timeout, delay, timeout / delay + 1);
      }
    }
    if Hopeless(timeout, delay, succeeds) {
      forall n: nat ensures Fails(timeout, delay, succeeds, n) {
        FailsAll(timeout, delay, succeeds, n);
      }
    }
  }

  lemma {:induction false} FailsAll(timeout: int, delay: nat, succeeds: nat -> bool, n: nat)
    requires Hopeless(timeout, delay, succeeds)
    ensures Fails(timeout, delay, succeeds, n)
  {
    if n > 0 {
      FailsAll(timeout, delay, succeeds, n - 1);
    }
  }

  datatype Answer = AlreadyLocked | Acquired | TimedOut | StillTrying

  class Mutex {
    const attemptDelay: nat
    const timeout: int
    var locked: bool

    constructor (attemptDelay: nat, timeout: int)
      ensures this.attemptDelay == attemptDelay && this.timeout == timeout && !locked
    {
      this.attemptDelay := attemptDelay;
      this.timeout := timeout;
      locked := false;
    }

    /**
     * `stores(k)` tells whether attempt `k` finds the resource free. The call is followed for at most
     * `patience` attempts: if it has not returned by then, the answer is `StillTrying`.
     */
    method Lock(stores: nat -> bool, patience: nat) returns (answer: Answer, attempts: nat, slept: nat)
      modifies this`locked
      ensures answer == AlreadyLocked <==> old(locked)
      ensures locked <==> answer == AlreadyLocked || answer == Acquired
      ensures answer == AlreadyLocked ==> attempts == 0 && slept == 0
      ensures answer == StillTrying ==>
                attempts == patience && Fails(timeout, attemptDelay, stores, patience)
                  && slept == attempts * attemptDelay
      ensures answer == Acquired || answer == TimedOut ==>
                && 0 < attempts <= patience && LastAttempt(timeout, attemptDelay, stores, attempts - 1)
                && (answer == Acquired <==> stores(attempts - 1))
                && slept == (attempts - 1) * attemptDelay
    {
      attempts, slept := 0, 0;
      if locked {
        return AlreadyLocked, 0, 0;
      }
      var duration := 0;
      var again := true;
      while again && attempts < patience
        invariant duration == attempts * attemptDelay
        invariant attempts <= patience && (attempts == 0 ==> again)
        invariant again ==>
                  !locked && slept == attempts * attemptDelay && Fails(timeout, attemptDelay, stores, attempts)
        invariant !again ==> attempts > 0 && LastAttempt(timeout, attemptDelay, stores, attempts - 1)
        invariant !again ==> slept == (attempts - 1) * attemptDelay && (locked <==> stores(attempts - 1))
        decreases patience - attempts
      {
        locked := stores(attempts);
        attempts := attempts + 1;
        duration := duration + attemptDelay;
        again := !locked && (timeout == -1 || duration <= timeout);
        assert again <==> !stores(attempts - 1) && GoesOn(timeout, attemptDelay, attempts);
        if again {
          slept := slept + attemptDelay;
        }
      }
      answer := if again then StillTrying else if locked then Acquired else TimedOut;
    }

    /** The same loop on whether the resource is free, followed as long; it takes no lock. */
    method Wait(isFree: nat -> bool, patience: nat) returns (unlocked: Option<bool>, checks: nat)
      ensures unlocked.None? ==> checks == patience && Fails(timeout, attemptDelay, isFree, patience)
      ensures unlocked.Some? ==>
                && 0 < checks <= patience && LastAttempt(timeout, attemptDelay, isFree, checks - 1)
                && (unlocked.value <==> isFree(checks - 1))
    {
      checks := 0;
      var free := false;
      var duration := 0;
      var again := true;
      while again && checks < patience
        invariant duration == checks * attemptDelay
        invariant checks <= patience && (checks == 0 ==> again)
        invariant again ==> Fails(timeout, attemptDelay, isFree, checks)
        invariant !again ==> checks > 0 && LastAttempt(timeout, attemptDelay, isFree, checks - 1)
        invariant !again ==> (free <==> isFree(checks - 1))
        decreases patience - checks
      {
        free := isFree(checks);
        checks := checks + 1;
        duration := duration + attemptDelay;
        again := !free && (timeout == -1 || duration <= timeout);
        assert again <==> !isFree(checks - 1) && GoesOn(timeout, attemptDelay, checks);
      }
      unlocked := if again then None else Some(free);
    }
  }

  /* ---------- all interleavings ---------- */

  /** What Redis holds for the resource: the id of the mutex that stored it, until when. */
  datatype Lease = Lease(owner: string, until: real)

  /** A critical section: from the moment the lock was stored to the moment it was released. */
  datatype Section = Section(owner: string, start: real, end: Option<real>)

  /** `sections` lists every critical section so far, in the order of their starts. */
  datatype World = World(now: real, lease: Option<Lease>, sections: seq<Section>)

  datatype Action = Attempt(id: string) | Unlock(id: string) | Pass(time: real)

  predicate Held(w: World)
  {
    w.lease.Some? && w.now < w.lease.value.until
  }

  /** The mutex believes it holds the lock. */
  predicate Locked(w: World, id: string)
  {
    exists i :: 0 <= i < |w.sections| && w.sections[i].owner == id && w.sections[i].end.None?
  }

  function Close(sections: seq<Section>, id: string, now: real): (r: seq<Section>)
    ensures |r| == |sections|
    ensures forall i :: 0 <= i < |r| ==>
              r[i] == if sections[i].owner == id && sections[i].end.None? then sections[i].(end := Some(now))
                      else sections[i]
  {
    if sections == [] then []
    else
      var s := sections[0];
      [if s.owner == id && s.end.None? then s.(end := Some(now)) else s] + Close(sections[1..], id, now)
  }

  /**
   * Locking twice and unlocking without a lock throw: nothing changes. Unlocking deletes the lease only if it is the
   * mutex's own.
   */
  function Act(w: World, a: Action, ttl: real): World
  {
    match a
    case Attempt(id) =>
      if Locked(w, id) || Held(w) then w
      else w.(lease := Some(Lease(id, w.now + ttl)), sections := w.sections + [Section(id, w.now, None)])
    case Unlock(id) =>
      if !Locked(w, id) then w
      else w.(lease := if w.lease.Some? && w.lease.value.owner == id then None else w.lease,
              sections := Close(w.sections, id, w.now))
    case Pass(time) => if time <= 0.0 then w else w.(now := w.now + time)
  }

  function Exec(actions: seq<Action>, ttl: real): World
  {
    if actions == [] then World(0.0, None, [])
    else Act(Exec(actions[..|actions| - 1], ttl), actions[|actions| - 1], ttl)
  }

  /** The end of a section, or the current time while it lasts. */
  function EndOf(w: World, s: Section): real
  {
    s.end.GetOr(w.now)
  }

  /** A section begins after the earlier ones were released or had lasted for the time to live. */
  predicate Ordered(a: Section, b: Section, ttl: real)
  {
    a.start <= b.start && (b.start >= a.start + ttl || (a.end.Some? && a.end.value <= b.start))
  }

  ghost predicate InOrder(sections: seq<Section>, ttl: real)
  {
    forall i, j :: 0 <= i < j < |sections| ==> Ordered(sections[i], sections[j], ttl)
  }

  /** Past times, and the lease of an open section as long as its time to live. */
  predicate Backed(w: World, s: Section, ttl: real)
  {
    && s.start <= EndOf(w, s) <= w.now
    && (s.end.None? && w.now < s.start + ttl ==> w.lease == Some(Lease(s.owner, s.start + ttl)))
  }

  ghost predicate Inv(w: World, ttl: real)
  {
    && InOrder(w.sections, ttl)
    && (forall i :: 0 <= i < |w.sections| ==> Backed(w, w.sections[i], ttl))
    && (Held(w) ==>
        exists i :: 0 <= i < |w.sections|
          && w.sections[i] == Section(w.lease.value.owner, w.lease.value.until - ttl, None))
  }

  lemma ActKeepsInv(w: World, a: Action, ttl: real)
    requires Inv(w, ttl) && ttl > 0.0
    ensures Inv(Act(w, a, ttl), ttl)
  {
    match a
    case Attempt(id) => AttemptKeepsInv(w, id, ttl);
    case Unlock(id) => UnlockKeepsInv(w, id, ttl);
    case Pass(time) =>
  }

  lemma AttemptKeepsInv(w: World, id: string, ttl: real)
    requires Inv(w, ttl) && ttl > 0.0
    ensures Inv(Act(w, Attempt(id), ttl), ttl)
  {
    if !Locked(w, id) && !Held(w) {
      var t := Act(w, Attempt(id), ttl);
      forall i | 0 <= i < |w.sections| ensures Ordered(w.sections[i], Section(id, w.now, None), ttl) {
        assert Backed(w, w.sections[i], ttl);
      }
      assert t.sections[|w.sections|] == Section(id, w.now, None);
    }
  }

  lemma UnlockKeepsInv(w: World, id: string, ttl: real)
    requires Inv(w, ttl) && ttl > 0.0
    ensures Inv(Act(w, Unlock(id), ttl), ttl)
  {
    if Locked(w, id) {
      var t := Act(w, Unlock(id), ttl);
      CloseKeepsOrder(w.sections, id, w.now, ttl);
      forall i | 0 <= i < |t.sections| ensures Backed(t, t.sections[i], ttl) {
        assert Backed(w, w.sections[i], ttl);
      }
      if Held(t) {
        var i :| 0 <= i < |w.sections|
          && w.sections[i] == Section(w.lease.value.owner, w.lease.value.until - ttl, None);
        assert t.sections[i] == w.sections[i];
      }
    }
  }

  lemma CloseKeepsOrder(sections: seq<Section>, id: string, now: real, ttl: real)
    requires InOrder(sections, ttl)
    ensures InOrder(Close(sections, id, now), ttl)
  {
    var r := Close(sections, id, now);
    forall i, j | 0 <= i < j < |r| ensures Ordered(r[i], r[j], ttl) {
      assert Ordered(sections[i], sections[j], ttl);
    }
  }

  lemma {:induction false} RunsKeepInv(actions: seq<Action>, ttl: real)
    requires ttl > 0.0
    ensures Inv(Exec(actions, ttl), ttl)
  {
    if actions != [] {
      RunsKeepInv(actions[..|actions| - 1], ttl);
      ActKeepsInv(Exec(actions[..|actions| - 1], ttl), actions[|actions| - 1], ttl);
    }
  }

  /** In every run, a critical section shorter than the time to live is over before any later one starts. */
  lemma SectionsDoNotOverlap(actions: seq<Action>, ttl: real, i: nat, j: nat)
    requires ttl > 0.0 && i < j < |Exec(actions, ttl).sections|
    ensures var w := Exec(actions, ttl);
            var a, b := w.sections[i], w.sections[j];
            EndOf(w, a) - a.start < ttl ==> EndOf(w, a) <= b.start
  {
    RunsKeepInv(actions, ttl);
    var w := Exec(actions, ttl);
    assert Backed(w, w.sections[j], ttl) && Ordered(w.sections[i], w.sections[j], ttl);
  }

  /** Once the first section has outlived the time to live, another mutex can be in its own: the bound is needed. */
  lemma LateUnlockOverlaps(ttl: real)
    requires ttl > 0.0
    ensures var w := Exec([Attempt("a"), Pass(ttl), Attempt("b")], ttl);
            w.sections == [Section("a", 0.0, None), Section("b", ttl, None)]
  {
    var run := [Attempt("a"), Pass(ttl), Attempt("b")];
    assert run[..2] == [Attempt("a"), Pass(ttl)] && run[..2][..1] == [Attempt("a")] && run[..2][..1][..0] == [];
    var first := Exec(run[..2][..1], ttl);
    assert Exec([], ttl) == World(0.0, None, []);
    assert first == World(0.0, Some(Lease("a", ttl)), [Section("a", 0.0, None)]);
    assert Exec(run[..2], ttl) == first.(now := ttl);
    assert "a"[0] != "b"[0];
    assert !Locked(first.(now := ttl), "b");
  }

  /** Unlocking never takes away the lock of another mutex, and afterwards the mutex holds nothing. */
  lemma UnlockIsOwn(w: World, id: string, ttl: real)
    ensures var t := Act(w, Unlock(id), ttl);
            && (w.lease.Some? && w.lease.value.owner != id ==> t.lease == w.lease)
            && !Locked(t, id)
            && (Locked(w, id) ==> !(t.lease.Some? && t.lease.value.owner == id))
            && (forall other :: other != id ==> Locked(t, other) == Locked(w, other))
  {
    var t := Act(w, Unlock(id), ttl);
    forall other | other != id ensures Locked(t, other) == Locked(w, other) {
      if Locked(w, other) {
        var i :| 0 <= i < |w.sections| && w.sections[i].owner == other && w.sections[i].end.None?;
        assert t.sections[i] == w.sections[i];
      }
    }
  }

  /** An attempt by a mutex that has no lock succeeds exactly when no section younger than the time to live is open. */
  lemma AttemptSucceedsIff(actions: seq<Action>, ttl: real, id: string)
    requires ttl > 0.0 && !Locked(Exec(actions, ttl), id)
    ensures var w := Exec(actions, ttl);
            Locked(Act(w, Attempt(id), ttl), id) <==> 
              forall i :: 0 <= i < |w.sections| ==> w.sections[i].end.Some? || w.now >= w.sections[i].start + ttl
  {
    RunsKeepInv(actions, ttl);
    var w := Exec(actions, ttl);
    if !Held(w) {
      var t := Act(w, Attempt(id), ttl);
      assert t.sections[|w.sections|] == Section(id, w.now, None);
    }
  }
}
