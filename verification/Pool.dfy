/** The bounded connection pool of antipool.py as a step system: every section a thread runs
    while it owns the pool lock is one step, and threads interleave between steps. */
module PoolSpec {
  import opened Text

  type Thread = nat
  type Conn = nat

  datatype Config = Config(maxconn: nat, minconn: int, minkeepsecs: int)

  /** A pooled connection with the time it was last released. */
  datatype Item = Item(conn: Conn, released: int)

  /** `pool` and `nbconn` are the pool's own fields. `waiting` is the condition variable's FIFO
      list of sleeping threads; `notified` are threads signalled but not yet running again.
      The other components are bookkeeping for the proofs: who holds what, which connections
      were dropped by a hosed release or closed, how many were ever created, and how many
      signalled threads left because creating a connection failed. */
  datatype State = State(
    pool: seq<Item>, nbconn: int,
    waiting: seq<Thread>, notified: set<Thread>,
    held: map<Conn, Thread>, ditched: set<Conn>, closed: set<Conn>,
    created: nat, failedWakes: nat)
  {
    predicate Blocked(t: Thread) { t in waiting || t in notified }

    /** How many more connections can be had right now. */
    function Available(cfg: Config): int { |pool| + cfg.maxconn - nbconn }
  }

  const Initial := State([], 0, [], {}, map[], {}, {}, 0, 0)

  datatype Step =
    | Acquire(t: Thread, createOk: bool)
    | Resume(t: Thread, createOk: bool)
    | Release(conn: Conn, rollbackOk: bool, released: int, now: int)
    | Finalize

  // ---------------------------------------------------------------- scaledown

  /** What the filtering loop keeps when it may close `n` connections last released before `limit`. */
  function Kept(pool: seq<Item>, n: int, limit: int): (r: seq<Item>)
    ensures |r| <= |pool|
  {
    if pool == [] then []
    else if n > 0 && pool[0].released < limit then Kept(pool[1..], n - 1, limit)
    else [pool[0]] + Kept(pool[1..], n, limit)
  }

  function Conns(pool: seq<Item>): set<Conn> {
    set x | x in pool :: x.conn
  }

  ghost predicate DistinctConns(pool: seq<Item>) {
    forall i, j :: 0 <= i < j < |pool| ==> pool[i].conn != pool[j].conn
  }

  /** The closed connections after everything in `pool` but not in `kept` was closed. */
  function ClosedAfter(closed: set<Conn>, pool: seq<Item>, kept: seq<Item>): set<Conn> {
    closed + (Conns(pool) - Conns(kept))
  }

  function Scaledown(cfg: Config, s: State, now: int): State {
    var kept := Kept(s.pool, |s.pool| - cfg.minconn, now - cfg.minkeepsecs);
    s.(pool := kept, nbconn := s.nbconn - (|s.pool| - |kept|),
       closed := ClosedAfter(s.closed, s.pool, kept))
  }

  // ---------------------------------------------------------------- steps

  /** The wait loop's test and what follows it, from the moment a thread owns the lock. */
  function Take(cfg: Config, s: State, t: Thread, createOk: bool): State {
    if s.pool != [] then
      var last := |s.pool| - 1;
      s.(pool := s.pool[..last], held := s.held[s.pool[last].conn := t])
    else if s.nbconn == cfg.maxconn then s.(waiting := s.waiting + [t])
    else if createOk then
      s.(nbconn := s.nbconn + 1, created := s.created + 1, held := s.held[s.created := t])
    else s
  }

  function Notify(s: State): State {
    if s.waiting == [] then s
    else s.(waiting := s.waiting[1..], notified := s.notified + {s.waiting[0]})
  }

  function PutBack(cfg: Config, s: State, step: Step): State
    requires step.Release?
  {
    if step.rollbackOk then
      var back := s.(held := s.held - {step.conn}, pool := s.pool + [Item(step.conn, step.released)]);
      Notify(Scaledown(cfg, back, step.now))
    else s.(held := s.held - {step.conn}, ditched := s.ditched + {step.conn})
  }

  /** The assertions of `finalize` when there is no read-only connection. */
  predicate FinalizePasses(s: State) {
    if s.pool == [] then s.nbconn == 0 else |s.pool| == s.nbconn
  }

  predicate FailedWake(cfg: Config, s: State, step: Step) {
    step.Resume? && !step.createOk && s.pool == [] && s.nbconn != cfg.maxconn
  }

  function Awaken(s: State, t: Thread, fails: bool): State {
    s.(notified := s.notified - {t}, failedWakes := s.failedWakes + if fails then 1 else 0)
  }

  /** A connection may be released by any thread: its wrapper is released by whoever drops it. */
  predicate Enabled(s: State, step: Step) {
    match step
    case Acquire(t, _) => !s.Blocked(t)
    case Resume(t, _) => t in s.notified
    case Release(c, _, _, _) => c in s.held
    case Finalize => true
  }

  function Next(cfg: Config, s: State, step: Step): State {
    match step
    case Acquire(t, ok) => Take(cfg, s, t, ok)
    case Resume(t, ok) => Take(cfg, Awaken(s, t, FailedWake(cfg, s, step)), t, ok)
    case Release(_, _, _, _) => PutBack(cfg, s, step)
    case Finalize =>
      if FinalizePasses(s) then s.(pool := [], nbconn := 0, closed := s.closed + Conns(s.pool)) else s
  }

  predicate ValidRun(cfg: Config, s: State, steps: seq<Step>)
    decreases |steps|
  {
    steps == [] || (Enabled(s, steps[0]) && ValidRun(cfg, Next(cfg, s, steps[0]), steps[1..]))
  }

  function Run(cfg: Config, s: State, steps: seq<Step>): State
    decreases |steps|
  {
    if steps == [] then s else Run(cfg, Next(cfg, s, steps[0]), steps[1..])
  }

  // ---------------------------------------------------------------- the invariant

  /** Every connection ever created is in at most one place: pooled once, held once, ditched or
      closed. With `Counted` this is a partition, so none is lost either. */
  ghost predicate Ownership(s: State) {
    && DistinctConns(s.pool)
    && (forall x :: x in s.pool ==> x.conn < s.created && x.conn !in s.held && x.conn !in s.ditched && x.conn !in s.closed)
    && (forall c :: c in s.held ==> c < s.created && c !in s.ditched && c !in s.closed)
    && (forall c :: c in s.ditched ==> c < s.created && c !in s.closed)
    && (forall c :: c in s.closed ==> c < s.created)
  }

  ghost predicate Counted(cfg: Config, s: State) {
    && s.nbconn == |s.pool| + |s.held| + |s.ditched|
    && s.created == s.nbconn + |s.closed|
    && s.nbconn <= cfg.maxconn
  }

  ghost predicate Sleepers(s: State) {
    && Distinct(s.waiting)
    && Elements(s.waiting) !! s.notified
  }

  /** Whoever sleeps un-notified does so because every connection that can be had is already
      promised to a notified thread, up to the wake-ups spent on failed creations. */
  ghost predicate Promised(cfg: Config, s: State) {
    s.waiting != [] ==> s.Available(cfg) <= |s.notified| + s.failedWakes
  }

  ghost predicate Inv(cfg: Config, s: State) {
    Ownership(s) && Counted(cfg, s) && Sleepers(s) && Promised(cfg, s)
  }

  ghost predicate NoLostWakeup(cfg: Config, s: State) {
    s.waiting != [] ==> s.Available(cfg) <= |s.notified|
  }
}

module PoolProofs {
  import opened Text
  import opened PoolSpec

  // ---------------------------------------------------------------- scaledown

  lemma {:induction false} KeptFacts(pool: seq<Item>, n: int, limit: int)
    requires DistinctConns(pool)
    ensures DistinctConns(Kept(pool, n, limit))
    ensures forall x :: x in Kept(pool, n, limit) ==> x in pool
    ensures forall x :: x in pool && x.released >= limit ==> x in Kept(pool, n, limit)
  {
    if pool != [] {
      assert pool == [pool[0]] + pool[1..];
      var closes := n > 0 && pool[0].released < limit;
      KeptFacts(pool[1..], if closes then n - 1 else n, limit);
      var rest := Kept(pool[1..], if closes then n - 1 else n, limit);
      forall j | 0 <= j < |rest| ensures rest[j].conn != pool[0].conn { assert rest[j] in pool[1..]; }
    }
  }

  /** At most `n` are closed, and if fewer are then nothing old is left. */
  lemma {:induction false} KeptBudget(pool: seq<Item>, n: int, limit: int)
    ensures |pool| - |Kept(pool, n, limit)| <= if n > 0 then n else 0
    ensures |pool| - |Kept(pool, n, limit)| < n ==> forall x :: x in Kept(pool, n, limit) ==> x.released >= limit
  {
    if pool != [] {
      var closes := n > 0 && pool[0].released < limit;
      KeptBudget(pool[1..], if closes then n - 1 else n, limit);
    }
  }

  /** `_scaledown` closes surplus connections not used lately: it never goes below `minconn`
      pooled connections, keeps everything released recently, and what survives above `minconn`
      was all released recently. Old connections are closed from the front of the pool. Pool places
      and counted connections shrink together. */
  lemma ScaledownTrims(cfg: Config, s: State, now: int)
    requires DistinctConns(s.pool)
    ensures var r, limit := Scaledown(cfg, s, now), now - cfg.minkeepsecs;
      && r.Available(cfg) == s.Available(cfg)
      && (|r.pool| >= cfg.minconn || r.pool == s.pool)
      && (forall x :: x in s.pool && x.released >= limit ==> x in r.pool)
      && (|r.pool| > cfg.minconn ==> forall x :: x in r.pool ==> x.released >= limit)
      && (forall i, j :: 0 <= i < j < |s.pool| && s.pool[i].released < limit && s.pool[j] !in r.pool ==> s.pool[i] !in r.pool)
  {
    hide Kept, ClosedAfter, DistinctConns;
    var n, limit := |s.pool| - cfg.minconn, now - cfg.minkeepsecs;
    KeptFacts(s.pool, n, limit);
    KeptBudget(s.pool, n, limit);
    if n <= 0 { KeptAll(s.pool, n, limit); }
    forall i, j | 0 <= i < j < |s.pool| && s.pool[i].released < limit && s.pool[j] !in Kept(s.pool, n, limit)
      ensures s.pool[i] !in Kept(s.pool, n, limit)
    {
      KeptFront(s.pool, n, limit, i, j);
    }
  }

  /** Old connections are closed from the front of the pool. */
  lemma {:induction false} KeptFront(pool: seq<Item>, n: int, limit: int, i: nat, j: nat)
    requires DistinctConns(pool) && i < j < |pool| && pool[i].released < limit && pool[j] !in Kept(pool, n, limit)
    ensures pool[i] !in Kept(pool, n, limit)
    decreases |pool|
  {
    var closes, rest := n > 0 && pool[0].released < limit, pool[1..];
    assert DistinctConns(rest);
    if n <= 0 {
      KeptAll(pool, n, limit);
    } else {
      KeptFacts(rest, if closes then n - 1 else n, limit);
      if i > 0 {
        KeptFront(rest, if closes then n - 1 else n, limit, i - 1, j - 1);
      } else {
        assert forall x :: x in rest ==> x.conn != pool[0].conn;
      }
    }
  }

  lemma {:induction false} KeptAll(pool: seq<Item>, n: int, limit: int)
    requires n <= 0
    ensures Kept(pool, n, limit) == pool
  {
    if pool != [] { KeptAll(pool[1..], n, limit); }
  }

  lemma {:induction false} ConnsCount(pool: seq<Item>)
    requires DistinctConns(pool)
    ensures |Conns(pool)| == |pool|
  {
    if pool != [] {
      var rest := pool[1..];
      ConnsCount(rest);
      assert pool == [pool[0]] + rest;
      assert Conns(pool) == Conns(rest) + {pool[0].conn};
      assert pool[0].conn !in Conns(rest) by {
        forall x | x in rest ensures x.conn != pool[0].conn { }
      }
    }
  }

  lemma SurplusCount(a: set<Conn>, b: set<Conn>, c: set<Conn>)
    requires b <= a && c !! a
    ensures |c + (a - b)| == |c| + |a| - |b|
  {
    assert a == (a - b) + b;
  }

  lemma PoolApart(s: State)
    requires Ownership(s)
    ensures s.closed !! Conns(s.pool) && DistinctConns(s.pool)
  {
  }

  ghost predicate PartOf(a: seq<Item>, b: seq<Item>) { forall x :: x in a ==> x in b }

  lemma {:induction false} KeptPart(pool: seq<Item>, n: int, limit: int)
    requires DistinctConns(pool)
    ensures DistinctConns(Kept(pool, n, limit)) && PartOf(Kept(pool, n, limit), pool)
  {
    hide DistinctConns, Kept;
    KeptFacts(pool, n, limit);
  }

  lemma ConnsSubset(a: seq<Item>, b: seq<Item>)
    requires PartOf(a, b)
    ensures Conns(a) <= Conns(b)
  {
  }

  lemma ClosedCount(pool: seq<Item>, kept: seq<Item>, closed: set<Conn>)
    requires DistinctConns(pool) && DistinctConns(kept) && PartOf(kept, pool)
    requires closed !! Conns(pool)
    ensures |ClosedAfter(closed, pool, kept)| == |closed| + |pool| - |kept|
  {
    hide DistinctConns;
    ConnsCount(pool);
    ConnsCount(kept);
    ConnsSubset(kept, pool);
    SurplusCount(Conns(pool), Conns(kept), closed);
  }

  lemma ScaledownCounts(cfg: Config, s: State, now: int)
    requires Ownership(s) && Counted(cfg, s)
    ensures Counted(cfg, Scaledown(cfg, s, now))
  {
    hide Ownership, Kept, Conns, DistinctConns, Counted, PartOf, ClosedAfter;
    PoolApart(s);
    var kept := Kept(s.pool, |s.pool| - cfg.minconn, now - cfg.minkeepsecs);
    KeptPart(s.pool, |s.pool| - cfg.minconn, now - cfg.minkeepsecs);
    ClosedCount(s.pool, kept, s.closed);
    CountedAfterClosing(cfg, s, kept, ClosedAfter(s.closed, s.pool, kept));
  }

  lemma CountedAfterClosing(cfg: Config, s: State, kept: seq<Item>, closed: set<Conn>)
    requires Counted(cfg, s) && |kept| <= |s.pool| && |closed| == |s.closed| + |s.pool| - |kept|
    ensures Counted(cfg, s.(pool := kept, nbconn := s.nbconn - (|s.pool| - |kept|), closed := closed))
  {
  }

  lemma ScaledownOwnership(cfg: Config, s: State, now: int)
    requires Ownership(s)
    ensures Ownership(Scaledown(cfg, s, now))
  {
    var r := Scaledown(cfg, s, now);
    KeptFacts(s.pool, |s.pool| - cfg.minconn, now - cfg.minkeepsecs);
    forall x | x in r.pool ensures x.conn !in r.closed {
      assert x in s.pool;
      assert x.conn in Conns(r.pool);
    }
  }

  // ---------------------------------------------------------------- one step

  lemma TakeOwnership(cfg: Config, s: State, t: Thread, createOk: bool)
    requires Ownership(s) && Counted(cfg, s)
    ensures Ownership(Take(cfg, s, t, createOk)) && Counted(cfg, Take(cfg, s, t, createOk))
  {
    if s.pool != [] {
      var c := s.pool[|s.pool| - 1].conn;
      assert s.pool[|s.pool| - 1] in s.pool;
      assert |s.held[c := t]| == |s.held| + 1;
    } else if s.nbconn != cfg.maxconn && createOk {
      assert s.created !in s.held;
      assert |s.held[s.created := t]| == |s.held| + 1;
    }
  }

  lemma AppendSleeper(waiting: seq<Thread>, t: Thread)
    requires Distinct(waiting) && t !in waiting
    ensures Distinct(waiting + [t]) && Elements(waiting + [t]) == Elements(waiting) + {t}
  {
    assert forall x :: x in waiting + [t] <==> x in waiting || x == t;
  }

  function Used(cfg: Config, s: State, createOk: bool): nat {
    if s.pool != [] || s.nbconn == cfg.maxconn || createOk then 1 else 0
  }

  /** Taking from the pool uses up one promise; a thread that finds nothing goes to sleep only
      when nothing can be had. */
  lemma TakeInv(cfg: Config, s: State, t: Thread, createOk: bool)
    requires Ownership(s) && Counted(cfg, s) && Sleepers(s) && !s.Blocked(t)
    requires s.waiting != [] ==>
      s.Available(cfg) <= |s.notified| + s.failedWakes + Used(cfg, s, createOk)
    ensures Inv(cfg, Take(cfg, s, t, createOk))
  {
    TakeOwnership(cfg, s, t, createOk);
    AppendSleeper(s.waiting, t);
  }

  lemma AwakenReady(cfg: Config, s: State, t: Thread, createOk: bool)
    requires Inv(cfg, s) && t in s.notified
    ensures var awake := Awaken(s, t, FailedWake(cfg, s, Resume(t, createOk)));
      && Ownership(awake) && Counted(cfg, awake) && Sleepers(awake) && !awake.Blocked(t)
      && (awake.waiting != [] ==>
            awake.Available(cfg) <= |awake.notified| + awake.failedWakes + Used(cfg, awake, createOk))
  {
    assert t !in Elements(s.waiting);
    assert |s.notified - {t}| == |s.notified| - 1;
  }

  lemma ResumeInv(cfg: Config, s: State, t: Thread, createOk: bool)
    requires Inv(cfg, s) && t in s.notified
    ensures Inv(cfg, Next(cfg, s, Resume(t, createOk)))
  {
    AwakenReady(cfg, s, t, createOk);
    TakeInv(cfg, Awaken(s, t, FailedWake(cfg, s, Resume(t, createOk))), t, createOk);
  }

  lemma NotifyInv(cfg: Config, s: State)
    requires Ownership(s) && Counted(cfg, s) && Sleepers(s)
    requires s.waiting != [] ==> s.Available(cfg) <= |s.notified| + s.failedWakes + 1
    ensures Inv(cfg, Notify(s))
  {
    if s.waiting != [] {
      ElementsTail(s.waiting);
      assert s.waiting[0] in Elements(s.waiting);
      assert |s.notified + {s.waiting[0]}| == |s.notified| + 1;
    }
  }

  lemma ReleaseInv(cfg: Config, s: State, step: Step)
    requires Inv(cfg, s) && step.Release? && Enabled(s, step)
    ensures Inv(cfg, Next(cfg, s, step))
  {
    var c := step.conn;
    assert (s.held - {c}).Keys == s.held.Keys - {c};
    assert |s.held - {c}| == |s.held| - 1;
    if step.rollbackOk {
      var back := s.(held := s.held - {c}, pool := s.pool + [Item(c, step.released)]);
      BackOwnership(s, c, step.released);
      ScaledownCounts(cfg, back, step.now);
      ScaledownOwnership(cfg, back, step.now);
      ScaledownTrims(cfg, back, step.now);
      NotifyInv(cfg, Scaledown(cfg, back, step.now));
    }
  }

  lemma BackOwnership(s: State, c: Conn, released: int)
    requires Ownership(s) && c in s.held
    ensures Ownership(s.(held := s.held - {c}, pool := s.pool + [Item(c, released)]))
  {
    var back := s.(held := s.held - {c}, pool := s.pool + [Item(c, released)]);
    assert forall x :: x in back.pool <==> x in s.pool || x == Item(c, released);
    forall i | 0 <= i < |s.pool| ensures s.pool[i].conn != c {
      assert s.pool[i] in s.pool;
    }
  }

  /** `finalize` gets past its assertions exactly when every connection has come back. */
  lemma FinalizeExact(cfg: Config, s: State)
    requires Inv(cfg, s)
    ensures FinalizePasses(s) <==> s.held == map[] && s.ditched == {}
  {
    if |s.held| + |s.ditched| == 0 { assert s.held == map[]; }
  }

  lemma FinalizeInv(cfg: Config, s: State)
    requires Inv(cfg, s)
    ensures Inv(cfg, Next(cfg, s, Finalize))
  {
    FinalizeExact(cfg, s);
    if FinalizePasses(s) {
      ConnsCount(s.pool);
      assert s.closed !! Conns(s.pool);
    }
  }

  lemma StepInv(cfg: Config, s: State, step: Step)
    requires Inv(cfg, s) && Enabled(s, step)
    ensures Inv(cfg, Next(cfg, s, step))
  {
    match step
    case Acquire(t, ok) => TakeInv(cfg, s, t, ok);
    case Resume(t, ok) => ResumeInv(cfg, s, t, ok);
    case Release(_, _, _, _) => ReleaseInv(cfg, s, step);
    case Finalize => FinalizeInv(cfg, s);
  }

  lemma {:induction false} RunInv(cfg: Config, s: State, steps: seq<Step>)
    requires Inv(cfg, s) && ValidRun(cfg, s, steps)
    ensures Inv(cfg, Run(cfg, s, steps))
    decreases |steps|
  {
    if steps != [] {
      StepInv(cfg, s, steps[0]);
      RunInv(cfg, Next(cfg, s, steps[0]), steps[1..]);
    }
  }

  // ---------------------------------------------------------------- whole runs

  lemma InitialInv(cfg: Config)
    ensures Inv(cfg, Initial)
  {
  }

  /** A hosed release frees no place and wakes nobody. */
  lemma HosedWakesNobody(cfg: Config, s: State, c: Conn, released: int, now: int)
    requires c in s.held
    ensures var r := Next(cfg, s, Release(c, false, released, now));
      && r.pool == s.pool && r.nbconn == s.nbconn && r.waiting == s.waiting && r.notified == s.notified
      && c !in r.held && c in r.ditched
  {
  }

  /** The pool is a stack: a connection given back, unless it is closed at once for being old, goes to
      the next thread that acquires one. */
  lemma LastBackFirstOut(cfg: Config, s: State, c: Conn, released: int, now: int, t: Thread, createOk: bool)
    requires c in s.held && released >= now - cfg.minkeepsecs
    ensures var back := Next(cfg, s, Release(c, true, released, now));
      var r := Next(cfg, back, Acquire(t, createOk)); r.held == back.held[c := t] && r.nbconn == back.nbconn
  {
    hide Kept, PutBack;
    var item := Item(c, released);
    KeptLast(s.pool, item, |s.pool| + 1 - cfg.minconn, now - cfg.minkeepsecs);
    BackPool(cfg, s, c, released, now);
  }

  lemma {:induction false} BackPool(cfg: Config, s: State, c: Conn, released: int, now: int)
    requires c in s.held
    ensures PutBack(cfg, s, Release(c, true, released, now)).pool
      == Kept(s.pool + [Item(c, released)], |s.pool| + 1 - cfg.minconn, now - cfg.minkeepsecs)
  {
    hide Kept, ClosedAfter;
  }

  lemma {:induction false} KeptLast(pool: seq<Item>, item: Item, n: int, limit: int)
    requires item.released >= limit
    ensures var r := Kept(pool + [item], n, limit); r != [] && r[|r| - 1] == item
  {
    if pool == [] {
      assert [] + [item] == [item] && [item][1..] == [];
    } else {
      assert (pool + [item])[1..] == pool[1..] + [item] && (pool + [item])[0] == pool[0];
      KeptLast(pool[1..], item, if n > 0 && pool[0].released < limit then n - 1 else n, limit);
    }
  }

  /** Conservation and exclusive ownership over every interleaving. */
  lemma {:induction false} PoolConserves(cfg: Config, steps: seq<Step>)
    requires ValidRun(cfg, Initial, steps)
    ensures var s := Run(cfg, Initial, steps);
      && s.nbconn == |s.pool| + |s.held| + |s.ditched| <= cfg.maxconn
      && s.created == |s.pool| + |s.held| + |s.ditched| + |s.closed|
      && Ownership(s)
      && (FinalizePasses(s) <==> s.held == map[] && s.ditched == {})
  {
    InitialInv(cfg);
    RunInv(cfg, Initial, steps);
    FinalizeExact(cfg, Run(cfg, Initial, steps));
  }

  /** Over every interleaving, at most one connection per failed wake-up is unpromised while a
      thread sleeps; with no failed wake-up, none is. */
  lemma {:induction false} NoWakeupIsLost(cfg: Config, steps: seq<Step>)
    requires ValidRun(cfg, Initial, steps)
    ensures var s := Run(cfg, Initial, steps);
      && (s.waiting != [] ==> s.Available(cfg) <= |s.notified| + s.failedWakes)
      && (s.failedWakes == 0 ==> NoLostWakeup(cfg, s))
  {
    InitialInv(cfg);
    RunInv(cfg, Initial, steps);
  }

  /** A notified thread is about to fail to create a connection while somebody waits and every
      connection that can be had is promised. */
  predicate Loses(cfg: Config, s: State, step: Step) {
    FailedWake(cfg, s, step) && s.waiting != [] && s.Available(cfg) == |s.notified|
  }

  /** The one way a step can lose a wake-up, as a test on the state before the step. */
  lemma LosesWakeupExactly(cfg: Config, s: State, step: Step)
    requires Inv(cfg, s) && NoLostWakeup(cfg, s) && Enabled(s, step)
    ensures NoLostWakeup(cfg, Next(cfg, s, step)) <==> !Loses(cfg, s, step)
  {
    if FailedWake(cfg, s, step) {
      assert |s.notified - {step.t}| == |s.notified| - 1;
    } else {
      var clean := s.(failedWakes := 0);
      StepInv(cfg, clean, step);
      FailuresAreBookkeeping(cfg, s, step);
    }
  }

  /** No wake-up is lost at any point of the run. */
  ghost predicate NeverLost(cfg: Config, s: State, steps: seq<Step>)
    decreases |steps|
  {
    NoLostWakeup(cfg, s) && (steps != [] ==> NeverLost(cfg, Next(cfg, s, steps[0]), steps[1..]))
  }

  ghost predicate NoStepLoses(cfg: Config, s: State, steps: seq<Step>)
    decreases |steps|
  {
    steps != [] ==> !Loses(cfg, s, steps[0]) && NoStepLoses(cfg, Next(cfg, s, steps[0]), steps[1..])
  }

  /** Over every interleaving: at every point all waiting threads are covered by notified ones, if
      and only if no step is such a failure. */
  lemma {:induction false} RunLosesWakeupExactly(cfg: Config, steps: seq<Step>)
    requires ValidRun(cfg, Initial, steps)
    ensures NeverLost(cfg, Initial, steps) <==> NoStepLoses(cfg, Initial, steps)
  {
    InitialInv(cfg);
    LostExactlyFrom(cfg, Initial, steps);
  }

  lemma {:induction false} LostExactlyFrom(cfg: Config, s: State, steps: seq<Step>)
    requires Inv(cfg, s) && NoLostWakeup(cfg, s) && ValidRun(cfg, s, steps)
    ensures NeverLost(cfg, s, steps) <==> NoStepLoses(cfg, s, steps)
    decreases |steps|
  {
    hide Inv, NoLostWakeup, Loses, Next;
    if steps != [] {
      StepInv(cfg, s, steps[0]);
      LosesWakeupExactly(cfg, s, steps[0]);
      if !Loses(cfg, s, steps[0]) { LostExactlyFrom(cfg, Next(cfg, s, steps[0]), steps[1..]); }
    }
  }

  lemma FailuresAreBookkeeping(cfg: Config, s: State, step: Step)
    requires !FailedWake(cfg, s, step)
    ensures Next(cfg, s.(failedWakes := 0), step) == Next(cfg, s, step).(failedWakes := 0)
  {
  }

  /** A run that does lose one, with room for two connections of which one is kept pooled: both are
      released while three threads wait, the older is closed, a newcomer takes the other, and the
      two woken threads fail to create a new one. The third waiter sleeps on beside a free place
      with nobody notified. */
  lemma {:induction false} FailedCreationLosesWakeup()
    ensures var cfg := Config(2, 1, 5); var steps := LosingRun();
      ValidRun(cfg, Initial, steps) && !NoLostWakeup(cfg, Run(cfg, Initial, steps))
  {
    hide Next, NoLostWakeup, BothHeld;
    var cfg := Config(2, 1, 5);
    var lost := State([], 1, [4], {}, map[1 := 5], {}, {0}, 2, 2);
    ThreeWait();
    TwoFreed();
    BothFail();
    RunSplit(cfg, BothHeld([2, 3, 4]), [Release(0, true, 0, 0), Release(1, true, 100, 100)], [Acquire(5, true), Resume(2, false), Resume(3, false)]);
    RunSplit(cfg, Initial, [Acquire(0, true), Acquire(1, true), Acquire(2, true), Acquire(3, true), Acquire(4, true)],
             [Release(0, true, 0, 0), Release(1, true, 100, 100)] + [Acquire(5, true), Resume(2, false), Resume(3, false)]);
    StillAsleep(lost);
  }

  function LosingRun(): seq<Step> {
    [Acquire(0, true), Acquire(1, true), Acquire(2, true), Acquire(3, true), Acquire(4, true)]
    + ([Release(0, true, 0, 0), Release(1, true, 100, 100)] + [Acquire(5, true), Resume(2, false), Resume(3, false)])
  }

  lemma StillAsleep(s: State)
    requires s.waiting == [4] && s.pool == [] && s.nbconn == 1 && s.notified == {}
    ensures !NoLostWakeup(Config(2, 1, 5), s)
  {
  }

  lemma {:induction false} RunSplit(cfg: Config, s: State, a: seq<Step>, b: seq<Step>)
    requires ValidRun(cfg, s, a) && ValidRun(cfg, Run(cfg, s, a), b)
    ensures ValidRun(cfg, s, a + b) && Run(cfg, s, a + b) == Run(cfg, Run(cfg, s, a), b)
    decreases |a|
  {
    hide Next, Enabled;
    if a == [] {
      assert a + b == b;
    } else {
      RunSplit(cfg, Next(cfg, s, a[0]), a[1..], b);
      assert (a + b)[0] == a[0] && (a + b)[1..] == a[1..] + b;
    }
  }

  /** Two threads hold a connection each and `waiting` are asleep. */
  function BothHeld(waiting: seq<Thread>): State { State([], 2, waiting, {}, map[0 := 0, 1 := 1], {}, {}, 2, 0) }

  lemma TwoTake()
    ensures var cfg := Config(2, 1, 5); var one := Next(cfg, Initial, Acquire(0, true));
      && Enabled(Initial, Acquire(0, true)) && Enabled(one, Acquire(1, true))
      && Next(cfg, one, Acquire(1, true)) == BothHeld([])
  {
  }

  lemma OneMoreWaits(waiting: seq<Thread>, t: Thread)
    requires t !in waiting
    ensures Enabled(BothHeld(waiting), Acquire(t, true))
    ensures Next(Config(2, 1, 5), BothHeld(waiting), Acquire(t, true)) == BothHeld(waiting + [t])
  {
  }

  lemma {:induction false} ThreeWait()
    ensures var cfg := Config(2, 1, 5);
      var steps := [Acquire(0, true), Acquire(1, true), Acquire(2, true), Acquire(3, true), Acquire(4, true)];
      ValidRun(cfg, Initial, steps) && Run(cfg, Initial, steps) == BothHeld([2, 3, 4])
  {
    TwoTake();
    OneMoreWaits([], 2);
    OneMoreWaits([2], 3);
    OneMoreWaits([2, 3], 4);
    assert [] + [2] == [2] && [2] + [3] == [2, 3] && [2, 3] + [4] == [2, 3, 4];
    hide Next, Enabled, BothHeld;
    var cfg := Config(2, 1, 5);
    var one := Next(cfg, Initial, Acquire(0, true));
    RunLast(cfg, BothHeld([2, 3]), [Acquire(4, true)]);
    RunCons(cfg, BothHeld([2]), Acquire(3, true), [Acquire(4, true)]);
    RunCons(cfg, BothHeld([]), Acquire(2, true), [Acquire(3, true), Acquire(4, true)]);
    RunCons(cfg, one, Acquire(1, true), [Acquire(2, true), Acquire(3, true), Acquire(4, true)]);
    RunCons(cfg, Initial, Acquire(0, true), [Acquire(1, true), Acquire(2, true), Acquire(3, true), Acquire(4, true)]);
  }

  lemma FirstFreed()
    ensures Next(Config(2, 1, 5), BothHeld([2, 3, 4]), Release(0, true, 0, 0))
      == State([Item(0, 0)], 2, [3, 4], {2}, map[1 := 1], {}, {}, 2, 0)
  {
    var a := Item(0, 0);
    assert [] + [a] == [a] && [a][1..] == [] && Kept([a], 0, -5) == [a];
  }

  lemma SecondFreed()
    ensures Next(Config(2, 1, 5), State([Item(0, 0)], 2, [3, 4], {2}, map[1 := 1], {}, {}, 2, 0), Release(1, true, 100, 100))
      == State([Item(1, 100)], 1, [4], {2, 3}, map[], {}, {0}, 2, 0)
  {
    var a, b := Item(0, 0), Item(1, 100);
    assert [a] + [b] == [a, b] && [a, b][1..] == [b] && [b][1..] == [];
    assert Kept([b], 0, 95) == [b];
    assert Kept([a, b], 1, 95) == [b];
    assert Conns([a, b]) == {0, 1} && Conns([b]) == {1};
  }

  lemma {:induction false} TwoFreed()
    ensures var cfg, s := Config(2, 1, 5), BothHeld([2, 3, 4]);
      var steps := [Release(0, true, 0, 0), Release(1, true, 100, 100)];
      ValidRun(cfg, s, steps) && Run(cfg, s, steps) == State([Item(1, 100)], 1, [4], {2, 3}, map[], {}, {0}, 2, 0)
  {
    hide Next;
    FirstFreed();
    SecondFreed();
    var cfg := Config(2, 1, 5);
    RunLast(cfg, State([Item(0, 0)], 2, [3, 4], {2}, map[1 := 1], {}, {}, 2, 0), [Release(1, true, 100, 100)]);
    RunCons(cfg, BothHeld([2, 3, 4]), Release(0, true, 0, 0), [Release(1, true, 100, 100)]);
  }

  lemma {:induction false} BothFail()
    ensures var cfg, s := Config(2, 1, 5), State([Item(1, 100)], 1, [4], {2, 3}, map[], {}, {0}, 2, 0);
      var steps := [Acquire(5, true), Resume(2, false), Resume(3, false)];
      ValidRun(cfg, s, steps) && Run(cfg, s, steps) == State([], 1, [4], {}, map[1 := 5], {}, {0}, 2, 2)
  {
    var cfg, s := Config(2, 1, 5), State([Item(1, 100)], 1, [4], {2, 3}, map[], {}, {0}, 2, 0);
    var s1 := Next(cfg, s, Acquire(5, true));
    var s2 := Next(cfg, s1, Resume(2, false));
    assert s2 == State([], 1, [4], {3}, map[1 := 5], {}, {0}, 2, 1);
    RunLast(cfg, s2, [Resume(3, false)]);
    RunCons(cfg, s1, Resume(2, false), [Resume(3, false)]);
    RunCons(cfg, s, Acquire(5, true), [Resume(2, false), Resume(3, false)]);
  }

  lemma {:induction false} RunCons(cfg: Config, s: State, step: Step, rest: seq<Step>)
    requires Enabled(s, step) && ValidRun(cfg, Next(cfg, s, step), rest)
    ensures ValidRun(cfg, s, [step] + rest)
    ensures Run(cfg, s, [step] + rest) == Run(cfg, Next(cfg, s, step), rest)
  {
    assert ([step] + rest)[1..] == rest;
  }

  lemma {:induction false} RunLast(cfg: Config, s: State, one: seq<Step>)
    requires |one| == 1 && Enabled(s, one[0])
    ensures ValidRun(cfg, s, one) && Run(cfg, s, one) == Next(cfg, s, one[0])
  {
    assert one[1..] == [];
  }

  // ---------------------------------------------------------------- who can get through

  /** The run ends with thread `t` resuming and walking away with a connection nobody held. */
  ghost predicate Served(cfg: Config, s: State, steps: seq<Step>, t: Thread)
    decreases |steps|
  {
    if steps == [] then false
    else if |steps| == 1 then Gets(cfg, s, steps[0], t)
    else Served(cfg, Next(cfg, s, steps[0]), steps[1..], t)
  }

  ghost predicate Gets(cfg: Config, s: State, step: Step, t: Thread) {
    step.Resume? && step.t == t && exists c: Conn :: c !in s.held && Next(cfg, s, step).held == s.held[c := t]
  }

  ghost predicate NoNewcomers(steps: seq<Step>) {
    forall i :: 0 <= i < |steps| ==> steps[i].Resume? || steps[i].Release?
  }

  /** Thread `t` gets a connection in this run of releases and resumptions. */
  ghost predicate GetsThrough(cfg: Config, s: State, steps: seq<Step>, t: Thread) {
    ValidRun(cfg, s, steps) && NoNewcomers(steps) && Served(cfg, s, steps, t)
  }

  lemma {:induction false} StepThenThrough(cfg: Config, s: State, step: Step, rest: seq<Step>, t: Thread)
    requires Enabled(s, step) && (step.Resume? || step.Release?) && GetsThrough(cfg, Next(cfg, s, step), rest, t)
    ensures GetsThrough(cfg, s, [step] + rest, t)
  {
    hide Enabled, Next;
    RunCons(cfg, s, step, rest);
    assert ([step] + rest)[1..] == rest;
  }

  ghost predicate Calm(cfg: Config, s: State) {
    Inv(cfg, s) && NoLostWakeup(cfg, s)
  }

  lemma CalmStep(cfg: Config, s: State, step: Step)
    requires Calm(cfg, s) && Enabled(s, step) && !FailedWake(cfg, s, step)
    requires step.Resume? || (step.Release? && step.rollbackOk)
    ensures Calm(cfg, Next(cfg, s, step)) && Next(cfg, s, step).ditched == s.ditched
  {
    StepInv(cfg, s, step);
    LosesWakeupExactly(cfg, s, step);
  }

  /** A thread that resumes while a connection can be had gets one. */
  lemma ResumeTakes(cfg: Config, s: State, t: Thread)
    requires Calm(cfg, s) && t in s.notified && s.Available(cfg) > 0
    ensures var r := Next(cfg, s, Resume(t, true));
      Gets(cfg, s, Resume(t, true), t) && r.waiting == s.waiting && r.held != map[]
  {
    var r := Next(cfg, s, Resume(t, true));
    var c := if s.pool != [] then s.pool[|s.pool| - 1].conn else s.created;
    assert s.pool != [] ==> s.pool[|s.pool| - 1] in s.pool;
    assert c !in s.held && r.held == s.held[c := t];
    assert c in r.held;
  }

  lemma NotifiedGetsThrough(cfg: Config, s: State, t: Thread) returns (steps: seq<Step>)
    requires Calm(cfg, s) && t in s.notified && |s.ditched| < cfg.maxconn
    ensures GetsThrough(cfg, s, steps, t)
  {
    if s.Available(cfg) > 0 {
      steps := TakeNow(cfg, s, t);
    } else {
      SomeoneHolds(cfg, s);
      var c :| c in s.held;
      steps := FreeThenTake(cfg, s, t, c);
    }
  }

  lemma FreeThenTake(cfg: Config, s: State, t: Thread, c: Conn) returns (steps: seq<Step>)
    requires Calm(cfg, s) && t in s.notified && c in s.held && s.Available(cfg) == 0
    ensures GetsThrough(cfg, s, steps, t)
  {
    hide Ownership, Counted, Sleepers, GetsThrough;
    var free := Release(c, true, 0, 0);
    CalmStep(cfg, s, free);
    ReleaseFrees(cfg, s, free);
    var rest := TakeNow(cfg, Next(cfg, s, free), t);
    StepThenThrough(cfg, s, free, rest, t);
    steps := [free] + rest;
  }

  lemma TakeNow(cfg: Config, s: State, t: Thread) returns (steps: seq<Step>)
    requires Calm(cfg, s) && t in s.notified && s.Available(cfg) > 0
    ensures GetsThrough(cfg, s, steps, t)
  {
    hide Calm, Gets;
    steps := [Resume(t, true)];
    ResumeTakes(cfg, s, t);
    RunLast(cfg, s, steps);
  }

  lemma SomeoneHolds(cfg: Config, s: State)
    requires Inv(cfg, s) && s.Available(cfg) <= 0 && |s.ditched| < cfg.maxconn
    ensures exists c :: c in s.held
  {
    assert |s.held.Keys| > 0;
    var c :| c in s.held.Keys;
  }

  lemma ReleaseFrees(cfg: Config, s: State, step: Step)
    requires Inv(cfg, s) && step.Release? && step.rollbackOk && Enabled(s, step)
    ensures var r := Next(cfg, s, step);
      && r.Available(cfg) == s.Available(cfg) + 1
      && s.notified <= r.notified
      && (s.waiting != [] ==> r.waiting == s.waiting[1..] && s.waiting[0] in r.notified)
  {
    var back := s.(held := s.held - {step.conn}, pool := s.pool + [Item(step.conn, step.released)]);
    BackOwnership(s, step.conn, step.released);
    ScaledownTrims(cfg, back, step.now);
  }

  lemma SomeoneNotified(cfg: Config, s: State)
    requires Calm(cfg, s) && s.waiting != [] && s.held == map[] && |s.ditched| < cfg.maxconn
    ensures s.Available(cfg) > 0 && exists u :: u in s.notified
  {
    assert |s.notified| > 0;
    var u :| u in s.notified;
  }

  /** The thread at place `k` of the waiting line gets a connection after finitely many releases
      and resumptions of the threads already there. */
  lemma {:induction false} WaiterGetsThrough(cfg: Config, s: State, k: nat) returns (steps: seq<Step>)
    requires Calm(cfg, s) && k < |s.waiting| && |s.ditched| < cfg.maxconn
    ensures GetsThrough(cfg, s, steps, s.waiting[k])
    decreases k, s.held == map[]
  {
    hide Inv, NoLostWakeup, GetsThrough, Gets;
    if s.held == map[] {
      SomeoneNotified(cfg, s);
      var u :| u in s.notified;
      var step := Resume(u, true);
      CalmStep(cfg, s, step);
      ResumeTakes(cfg, s, u);
      var rest := WaiterGetsThrough(cfg, Next(cfg, s, step), k);
      StepThenThrough(cfg, s, step, rest, s.waiting[k]);
      steps := [step] + rest;
    } else {
      assert s.held.Keys != {};
      var c :| c in s.held;
      var step := Release(c, true, 0, 0);
      var s' := Next(cfg, s, step);
      CalmStep(cfg, s, step);
      ReleaseFrees(cfg, s, step);
      var rest;
      if k == 0 {
        rest := NotifiedGetsThrough(cfg, s', s.waiting[0]);
      } else {
        rest := WaiterGetsThrough(cfg, s', k - 1);
      }
      StepThenThrough(cfg, s, step, rest, s.waiting[k]);
      steps := [step] + rest;
    }
  }

  /** Once every place has been lost to hosed releases, nobody ever holds a connection again. */
  lemma {:induction false} AllDitchedIsForever(cfg: Config, s: State, steps: seq<Step>)
    requires Inv(cfg, s) && |s.ditched| == cfg.maxconn && ValidRun(cfg, s, steps)
    ensures Run(cfg, s, steps).held == map[]
    decreases |steps|
  {
    assert |s.held| == 0;
    assert s.held == map[];
    if steps != [] {
      FinalizeExact(cfg, s);
      StepInv(cfg, s, steps[0]);
      AllDitchedIsForever(cfg, Next(cfg, s, steps[0]), steps[1..]);
    }
  }

  lemma {:induction false} ServedHolds(cfg: Config, s: State, steps: seq<Step>, t: Thread)
    requires Served(cfg, s, steps, t)
    ensures Run(cfg, s, steps).held != map[]
    decreases |steps|
  {
    if |steps| == 1 {
      var c: Conn :| c !in s.held && Next(cfg, s, steps[0]).held == s.held[c := t];
      assert c in Run(cfg, s, steps).held;
    } else {
      ServedHolds(cfg, Next(cfg, s, steps[0]), steps[1..], t);
    }
  }

  /** Exact progress condition: wherever no wake-up has been lost, a waiting thread can still get a
      connection, with no help from new threads, if and only if hosed releases have not used up
      every place. */
  lemma {:induction false} WaiterCanProceedExactly(cfg: Config, s: State, t: Thread)
    requires Calm(cfg, s) && t in s.waiting
    ensures (exists steps :: GetsThrough(cfg, s, steps, t)) <==> |s.ditched| < cfg.maxconn
  {
    if |s.ditched| < cfg.maxconn {
      var k :| 0 <= k < |s.waiting| && s.waiting[k] == t;
      var steps := WaiterGetsThrough(cfg, s, k);
    } else {
      forall steps | ValidRun(cfg, s, steps) ensures !Served(cfg, s, steps, t) {
        AllDitchedIsForever(cfg, s, steps);
        if Served(cfg, s, steps, t) { ServedHolds(cfg, s, steps, t); }
      }
    }
  }
}

/** The pool object itself. Each method is one section run under the pool lock and moves the
    abstract state exactly by the step of `PoolSpec` it stands for. */
module PoolObject {
  import opened Text
  import opened PoolSpec
  import opened PoolProofs

  class ConnectionPool {
    const cfg: Config
    var pool: seq<Item>
    var nbconn: int
    var waiters: seq<Thread>
    ghost var notified: set<Thread>
    ghost var held: map<Conn, Thread>
    ghost var ditched: set<Conn>
    ghost var closed: set<Conn>
    var created: nat
    ghost var failedWakes: nat

    ghost function View(): State
      reads this
    {
      State(pool, nbconn, waiters, notified, held, ditched, closed, created, failedWakes)
    }

    constructor (cfg: Config)
      ensures this.cfg == cfg && View() == Initial && Inv(cfg, View())
    {
      this.cfg := cfg;
      pool, nbconn, waiters, created := [], 0, [], 0;
      notified, held, ditched, closed, failedWakes := {}, map[], {}, {}, 0;
      new;
      InitialInv(cfg);
    }

    /** `_acquire` up to the point where the thread returns or goes to sleep. */
    method Acquire(t: Thread, createOk: bool) returns (got: Option<Conn>)
      requires Inv(cfg, View()) && !View().Blocked(t)
      modifies this
      ensures Inv(cfg, View()) && View() == Next(cfg, old(View()), PoolSpec.Acquire(t, createOk))
      ensures got.Some? ==> got.value !in old(held) && held == old(held)[got.value := t]
      ensures got.Some? <==> old(View()).Available(cfg) > 0 && (old(pool) != [] || createOk)
    {
      hide Inv, Take;
      StepInv(cfg, View(), PoolSpec.Acquire(t, createOk));
      NextIsUnowned(cfg, View());
      got := TakeOrWait(t, createOk);
    }

    /** A signalled thread gets the lock back inside `wait` and tests the loop again. */
    method Resume(t: Thread, createOk: bool) returns (got: Option<Conn>)
      requires Inv(cfg, View()) && t in notified
      modifies this
      ensures Inv(cfg, View()) && View() == Next(cfg, old(View()), PoolSpec.Resume(t, createOk))
      ensures got.Some? ==> got.value !in old(held) && held == old(held)[got.value := t]
      ensures got.Some? <==> old(View()).Available(cfg) > 0 && (old(pool) != [] || createOk)
    {
      hide Inv, Take;
      StepInv(cfg, View(), PoolSpec.Resume(t, createOk));
      NextIsUnowned(cfg, View());
      failedWakes := failedWakes + if FailedWake(cfg, View(), PoolSpec.Resume(t, createOk)) then 1 else 0;
      notified := notified - {t};
      got := TakeOrWait(t, createOk);
    }

    method TakeOrWait(t: Thread, createOk: bool) returns (got: Option<Conn>)
      requires nbconn <= cfg.maxconn && created !in held
      requires pool != [] ==> pool[|pool| - 1].conn !in held
      modifies this
      ensures View() == Take(cfg, old(View()), t, createOk)
      ensures got.Some? ==> got.value !in old(held) && held == old(held)[got.value := t]
      ensures got.Some? <==> old(View()).Available(cfg) > 0 && (old(pool) != [] || createOk)
    {
      assert nbconn <= cfg.maxconn;
      if pool == [] && nbconn == cfg.maxconn {
        waiters := waiters + [t];
        return None;
      }
      if pool != [] {
        var item := pool[|pool| - 1];
        pool := pool[..|pool| - 1];
        got := Some(item.conn);
      } else if createOk {
        assert nbconn < cfg.maxconn;
        got := Some(created);
        created := created + 1;
        nbconn := nbconn + 1;
      } else {
        return None;
      }
      held := held[got.value := t];
    }

    /** `_scaledown`: one pass over the pool with a budget of closings. */
    method ScaleDown(now: int)
      modifies this
      ensures View() == Scaledown(cfg, old(View()), now)
    {
      hide Kept, ClosedAfter;
      var limit := now - cfg.minkeepsecs;
      var n := |pool| - cfg.minconn;
      if n > 0 {
        var kept := CloseOld(n, limit);
        closed := ClosedAfter(closed, pool, kept);
        pool := kept;
      } else {
        KeptAll(pool, n, limit);
        NothingClosed(closed, pool);
      }
    }

    /** The filtering loop: what is kept, with the others no longer counted. */
    method CloseOld(budget: int, limit: int) returns (kept: seq<Item>)
      modifies this`nbconn
      ensures kept == Kept(pool, budget, limit) && nbconn == old(nbconn) - (|pool| - |kept|)
    {
      kept := [];
      var n := budget;
      for i := 0 to |pool|
        invariant kept + Kept(pool[i..], n, limit) == Kept(pool, budget, limit)
        invariant nbconn == old(nbconn) - (i - |kept|)
      {
        assert pool[i..][0] == pool[i] && pool[i..][1..] == pool[i + 1..];
        if n > 0 && pool[i].released < limit {
          nbconn := nbconn - 1;
          n := n - 1;
        } else {
          kept := kept + [pool[i]];
        }
      }
    }

    /** `_release`; a failed rollback ditches the connection and leaves everything else alone. */
    method Release(c: Conn, rollbackOk: bool, released: int, now: int)
      requires Inv(cfg, View()) && c in held
      modifies this
      ensures Inv(cfg, View())
      ensures View() == Next(cfg, old(View()), PoolSpec.Release(c, rollbackOk, released, now))
      ensures rollbackOk ==> pool != [] || nbconn < cfg.maxconn
    {
      if rollbackOk { ReleaseFrees(cfg, View(), PoolSpec.Release(c, rollbackOk, released, now)); }
      StepInv(cfg, View(), PoolSpec.Release(c, rollbackOk, released, now));
      GiveBack(c, rollbackOk, released, now);
    }

    method GiveBack(c: Conn, rollbackOk: bool, released: int, now: int)
      modifies this
      ensures View() == PutBack(cfg, old(View()), PoolSpec.Release(c, rollbackOk, released, now))
    {
      held := held - {c};
      if !rollbackOk {
        ditched := ditched + {c};
        return;
      }
      pool := pool + [Item(c, released)];
      ScaleDown(now);
      if waiters != [] {
        notified := notified + {waiters[0]};
        waiters := waiters[1..];
      }
    }

    /** `finalize` without a read-only connection; `ok` is false when an assertion fails. */
    method FinalizePool() returns (ok: bool)
      requires Inv(cfg, View())
      modifies this
      ensures View() == Next(cfg, old(View()), Finalize) && Inv(cfg, View())
      ensures ok <==> old(held) == map[] && old(ditched) == {}
      ensures ok ==> pool == [] && nbconn == 0
    {
      StepInv(cfg, View(), Finalize);
      FinalizeExact(cfg, View());
      if pool == [] {
        return nbconn == 0;
      }
      if |pool| != nbconn {
        return false;
      }
      closed := closed + Conns(pool);
      pool := [];
      nbconn := 0;
      return true;
    }
  }

  lemma NothingClosed(closed: set<Conn>, pool: seq<Item>)
    ensures ClosedAfter(closed, pool, pool) == closed
  {
  }

  /** Neither the next pooled connection nor the next new one is held by anybody. */
  lemma NextIsUnowned(cfg: Config, s: State)
    requires Inv(cfg, s)
    ensures s.nbconn <= cfg.maxconn && s.created !in s.held
    ensures s.pool != [] ==> s.pool[|s.pool| - 1].conn !in s.held
  {
    assert s.pool != [] ==> s.pool[|s.pool| - 1] in s.pool;
  }

  /** The object handed to clients: releasing it a second time is an error and touches nothing. */
  class ConnectionWrapper {
    var conn: Option<Conn>

    constructor (c: Conn)
      ensures conn == Some(c)
    {
      conn := Some(c);
    }

    method Release(p: ConnectionPool, rollbackOk: bool, released: int, now: int) returns (ok: bool)
      requires Inv(p.cfg, p.View())
      requires conn.Some? ==> conn.value in p.held
      modifies this, p
      ensures ok <==> old(conn).Some?
      ensures conn == None && Inv(p.cfg, p.View())
      ensures ok ==>
        p.View() == Next(p.cfg, old(p.View()), PoolSpec.Release(old(conn).value, rollbackOk, released, now))
      ensures !ok ==> p.View() == old(p.View())
    {
      if conn == None {
        return false;
      }
      p.Release(conn.value, rollbackOk, released, now);
      conn := None;
      return true;
    }
  }
}
