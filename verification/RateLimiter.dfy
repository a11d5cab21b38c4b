/** The clock that repairs jumps of the system time (clock.py). */
module Clock {
  const MAXFORWARD := 100.0
  const FUDGE := 1.0

  datatype State = State(time: real, offset: real)

  /** One reading when the system clock says `raw`. */
  function Read(c: State, raw: real): State {
    var t := raw + c.offset;
    if t < c.time || t > c.time + MAXFORWARD
    then State(c.time + FUDGE, c.offset + (c.time + FUDGE - t))
    else State(t, c.offset)
  }

  function ReadAll(c: State, raws: seq<real>): State {
    if raws == [] then c else Read(ReadAll(c, raws[..|raws| - 1]), raws[|raws| - 1])
  }

  /** Whatever the system clock does, repaired time never goes back and a reading moves it by at
      most 100; once a reading is taken, a system clock that runs on by `d` is followed exactly. */
  lemma {:induction false} RepairedTime(c: State, raws: seq<real>, d: real)
    requires raws != []
    ensures var n := ReadAll(c, raws);
      && c.time <= n.time <= c.time + MAXFORWARD * |raws| as real
      && (0.0 <= d <= MAXFORWARD ==> Read(n, raws[|raws| - 1] + d).time == n.time + d)
  {
    var front := raws[..|raws| - 1];
    if front != [] { RepairedTime(c, front, d); }
  }

  /** One reading, exactly: a system clock that went back, or forward by more than 100 seconds since
      the last reading, moves repaired time by one second; any other moves it by what it moved. */
  lemma ReadingExactly(c: State, last: real, raw: real)
    requires c.time == last + c.offset
    ensures var n, moved := Read(c, raw), raw - last;
      && n.time == c.time + (if moved < 0.0 || moved > 100.0 then 1.0 else moved)
      && n.time == raw + n.offset
  {
  }

  class RelativeTime {
    var time: real
    var offset: real

    constructor (raw: real)
      ensures time == raw && offset == 0.0
    {
      time, offset := raw, 0.0;
    }

    method GetTime(raw: real) returns (t: real)
      modifies this
      ensures State(time, offset) == Read(old(State(time, offset)), raw) && t == time
      ensures old(time) <= time <= old(time) + MAXFORWARD
    {
      t := raw + offset;
      if t < time || t > time + MAXFORWARD {
        time := time + FUDGE;
        offset := offset + (time - t);
        return time;
      }
      time := t;
    }
  }
}

/** The upload limiter's queue and token bucket, with connections as plain values. */
module LimiterSpec {
  import opened Text

  /** One turn of the send loop: what `send_partial` and `backlogged` answered. */
  datatype Turn = Turn(bytes: nat, backlogged: bool)

  /** `queue` is the ring read from the connection to serve next; `sent` is `bytes_sent`;
      `pending` counts scheduled `try_send` callbacks and `delay` is what the last one was asked to
      wait. `start` and `total` record when the rate was set and how many bytes have gone out since. */
  datatype State<C> = State(queue: seq<C>, sent: real, lasttime: real, pending: nat, delay: real, start: real, total: nat)

  datatype Step<C> =
    | Queue(conn: C, t: real, turns: seq<Turn>)
    | Fire(t: real, turns: seq<Turn>)
    | Adjust(bytes: nat)

  predicate Open<C>(s: State<C>) { s.queue != [] && s.sent <= 0.0 }

  /** Serve the head; it goes to the back only if it sent something and is not backlogged. */
  function Serve<C>(s: State<C>, turn: Turn): State<C> {
    if s.queue == [] then s
    else
      var rest := s.queue[1..];
      s.(queue := if turn.bytes == 0 || turn.backlogged then rest else rest + [s.queue[0]],
         sent := s.sent + turn.bytes as real, total := s.total + turn.bytes)
  }

  function ServeAll<C>(s: State<C>, turns: seq<Turn>): State<C> {
    if turns == [] then s else Serve(ServeAll(s, turns[..|turns| - 1]), turns[|turns| - 1])
  }

  /** `turns` is a complete execution of the loop from `s`: it goes on exactly while it may. */
  ghost predicate LoopTrace<C>(s: State<C>, unit: nat, turns: seq<Turn>) {
    Going(s, unit, turns) && !Open(ServeAll(s, turns))
  }

  ghost predicate Going<C>(s: State<C>, unit: nat, turns: seq<Turn>) {
    forall i :: 0 <= i < |turns| ==> Open(ServeAll(s, turns[..i])) && turns[i].bytes <= unit
  }

  /** The bytes a stretch of time is worth. */
  function Accrued(elapsed: real, rate: real): real { elapsed * rate }

  function Refill<C>(s: State<C>, rate: real, t: real, checkTime: bool): State<C> {
    var left := s.sent - Accrued(t - s.lasttime, rate);
    s.(sent := if checkTime && left < 0.0 then 0.0 else left, lasttime := t)
  }

  /** How long until the debt is paid off. */
  function Delay(sent: real, rate: real): real { if rate == 0.0 then 0.0 else sent / rate }

  /** The loop's normal exit schedules the next `try_send`; breaking out on an empty ring does not. */
  function TrySend<C>(s: State<C>, rate: real, t: real, checkTime: bool, turns: seq<Turn>): State<C> {
    var r := ServeAll(Refill(s, rate, t, checkTime), turns);
    if r.queue == [] then r else r.(pending := r.pending + 1, delay := Delay(r.sent, rate))
  }

  ghost predicate Enabled<C>(s: State<C>, rate: real, unit: nat, step: Step<C>) {
    match step
    case Queue(c, t, turns) =>
      && c !in s.queue
      && (s.queue == [] ==> t >= s.lasttime && LoopTrace(Refill(s.(queue := [c]), rate, t, true), unit, turns))
    case Fire(t, turns) =>
      && s.pending > 0 && t >= s.lasttime
      && LoopTrace(Refill(s.(pending := s.pending - 1), rate, t, false), unit, turns)
    case Adjust(_) => true
  }

  function Next<C>(s: State<C>, rate: real, step: Step<C>): State<C> {
    match step
    case Queue(c, t, turns) =>
      if s.queue == [] then TrySend(s.(queue := [c]), rate, t, true, turns) else s.(queue := s.queue + [c])
    case Fire(t, turns) =>
      if s.pending == 0 then s else TrySend(s.(pending := s.pending - 1), rate, t, false, turns)
    case Adjust(bytes) =>
      var more := s.sent + bytes as real;
      s.(sent := if more < rate * 3.0 then more else rate * 3.0)
  }

  ghost predicate ValidRun<C>(s: State<C>, rate: real, unit: nat, steps: seq<Step<C>>)
    decreases |steps|
  {
    steps == [] || (Enabled(s, rate, unit, steps[0]) && ValidRun(Next(s, rate, steps[0]), rate, unit, steps[1..]))
  }

  function Run<C>(s: State<C>, rate: real, steps: seq<Step<C>>): State<C>
    decreases |steps|
  {
    if steps == [] then s else Run(Next(s, rate, steps[0]), rate, steps[1..])
  }

  // ---------------------------------------------------------------- the callback and the ring

  /** One callback is pending exactly when somebody is queued. */
  ghost predicate Scheduled<C>(s: State<C>) {
    && Distinct(s.queue)
    && s.pending == (if s.queue == [] then 0 else 1)
  }

  lemma RotateDistinct<C>(q: seq<C>)
    requires Distinct(q) && q != []
    ensures Distinct(q[1..]) && Distinct(q[1..] + [q[0]])
  {
  }

  lemma {:induction false} ServeAllFrame<C>(s: State<C>, turns: seq<Turn>)
    requires Distinct(s.queue)
    ensures var r := ServeAll(s, turns);
      && Distinct(r.queue) && (forall c :: c in r.queue ==> c in s.queue)
      && r.pending == s.pending && r.delay == s.delay && r.lasttime == s.lasttime && r.start == s.start
  {
    if turns != [] {
      var front := ServeAll(s, turns[..|turns| - 1]);
      ServeAllFrame(s, turns[..|turns| - 1]);
      if front.queue != [] { RotateDistinct(front.queue); }
    }
  }

  lemma StepScheduled<C>(s: State<C>, rate: real, unit: nat, step: Step<C>)
    requires Scheduled(s) && Enabled(s, rate, unit, step)
    ensures Scheduled(Next(s, rate, step))
    ensures step.Fire? ==> s.queue != []
  {
    match step
    case Queue(c, t, turns) =>
      if s.queue == [] { ServeAllFrame(Refill(s.(queue := [c]), rate, t, true), turns); }
    case Fire(t, turns) => ServeAllFrame(Refill(s.(pending := s.pending - 1), rate, t, false), turns);
    case Adjust(_) =>
  }

  // ---------------------------------------------------------------- round robin

  /** What happens to the ring alone: the head takes a turn, or a connection joins at the back. */
  datatype Move<C> = Take(turn: Turn) | Join(conn: C)

  predicate Stays(turn: Turn) { turn.bytes > 0 && !turn.backlogged }

  function Played<C>(q: seq<C>, m: Move<C>): seq<C> {
    match m
    case Join(c) => q + [c]
    case Take(turn) => if q == [] then q else if Stays(turn) then q[1..] + [q[0]] else q[1..]
  }

  function Play<C>(q: seq<C>, moves: seq<Move<C>>): seq<C>
    decreases |moves|
  {
    if moves == [] then q else Play(Played(q, moves[0]), moves[1..])
  }

  /** The connections served, in order. */
  function Heads<C>(q: seq<C>, moves: seq<Move<C>>): seq<C>
    decreases |moves|
  {
    if moves == [] then []
    else (if moves[0].Take? && q != [] then [q[0]] else []) + Heads(Played(q, moves[0]), moves[1..])
  }

  lemma {:induction false} HeadsFirst<C>(q: seq<C>, moves: seq<Move<C>>)
    requires moves != []
    ensures Heads(q, moves) == (if moves[0].Take? && q != [] then [q[0]] else []) + Heads(Played(q, moves[0]), moves[1..])
  {
  }

  /** The ring after a move, seen from a connection `c` that does not move itself. */
  lemma PlayedAround<C>(front: seq<C>, c: C, tail: seq<C>, m: Move<C>)
    ensures m.Join? ==> Played(front + [c] + tail, m) == front + [c] + (tail + [m.conn])
    ensures m.Take? && front != [] ==>
      Played(front + [c] + tail, m) == front[1..] + [c] + if Stays(m.turn) then tail + [front[0]] else tail
  {
    var q := front + [c] + tail;
    if front != [] { assert q[0] == front[0] && q[1..] == front[1..] + [c] + tail; }
  }

  /** Whoever is ahead of `c` is served before it, in order, whatever joins or leaves meanwhile. */
  lemma {:induction false} InTurn<C>(front: seq<C>, c: C, tail: seq<C>, moves: seq<Move<C>>)
    ensures var served := Heads(front + [c] + tail, moves); served <= front + [c] || front + [c] <= served
    decreases |moves|
  {
    var q := front + [c] + tail;
    if moves != [] {
      hide Heads, Played;
      var m := moves[0];
      HeadsFirst(q, moves);
      PlayedAround(front, c, tail, m);
      if m.Join? {
        InTurn(front, c, tail + [m.conn], moves[1..]);
      } else if front != [] {
        InTurn(front[1..], c, if Stays(m.turn) then tail + [front[0]] else tail, moves[1..]);
        assert front + [c] == [front[0]] + (front[1..] + [c]);
      }
    }
  }

  /** Between two turns of a connection that stays queued, exactly the others queued at the first
      turn are served, once each and in queue order. */
  lemma {:induction false} RoundRobin<C>(q: seq<C>, turn: Turn, moves: seq<Move<C>>, j: nat)
    requires Distinct(q) && q != [] && Stays(turn)
    requires var served := Heads(Played(q, Take(turn)), moves);
      j < |served| && served[j] == q[0] && forall k :: 0 <= k < j ==> served[k] != q[0]
    ensures Heads(Played(q, Take(turn)), moves)[..j] == q[1..]
  {
    hide Heads;
    var front, c := q[1..], q[0];
    InTurn(front, c, [], moves);
    assert front + [c] + [] == Played(q, Take(turn));
    assert forall k :: 0 <= k < |front| ==> front[k] == q[k + 1];
    var served := Heads(front + [c] + [], moves);
    assert served[j] == c && (j <= |front| ==> served[j] == (front + [c])[j]);
    assert j >= |front|;
    assert front + [c] <= served ==> served[|front|] == c;
  }

  function Takes<C>(turns: seq<Turn>): seq<Move<C>> {
    if turns == [] then [] else Takes(turns[..|turns| - 1]) + [Take(turns[|turns| - 1])]
  }

  function StepMoves<C>(s: State<C>, step: Step<C>): seq<Move<C>> {
    match step
    case Queue(c, _, turns) => if s.queue == [] then [Join(c)] + Takes(turns) else [Join(c)]
    case Fire(_, turns) => if s.pending == 0 then [] else Takes(turns)
    case Adjust(_) => []
  }

  /** A run of the limiter as moves of its ring. */
  function RunMoves<C>(s: State<C>, rate: real, steps: seq<Step<C>>): seq<Move<C>>
    decreases |steps|
  {
    if steps == [] then [] else StepMoves(s, steps[0]) + RunMoves(Next(s, rate, steps[0]), rate, steps[1..])
  }

  lemma {:induction false} PlayAppend<C>(q: seq<C>, a: seq<Move<C>>, b: seq<Move<C>>)
    ensures Play(q, a + b) == Play(Play(q, a), b)
    decreases |a|
  {
    hide Played;
    if a == [] {
      assert a + b == b;
    } else {
      PlayAppend(Played(q, a[0]), a[1..], b);
      assert (a + b)[0] == a[0] && (a + b)[1..] == a[1..] + b;
    }
  }

  lemma {:induction false} PlayOne<C>(q: seq<C>, m: Move<C>)
    ensures Play(q, [m]) == Played(q, m)
  {
    assert [m][1..] == [];
  }

  lemma {:induction false} TurnsPlay<C>(s: State<C>, turns: seq<Turn>)
    ensures ServeAll(s, turns).queue == Play(s.queue, Takes(turns))
  {
    if turns != [] {
      var front, last := turns[..|turns| - 1], turns[|turns| - 1];
      TurnsPlay(s, front);
      PlayAppend(s.queue, Takes(front), [Take(last)]);
      PlayOne(ServeAll(s, front).queue, Take(last));
    }
  }

  lemma {:induction false} StepPlays<C>(s: State<C>, rate: real, step: Step<C>)
    ensures Next(s, rate, step).queue == Play(s.queue, StepMoves(s, step))
  {
    match step
    case Queue(c, t, turns) =>
      PlayOne(s.queue, Join(c));
      if s.queue == [] {
        TurnsPlay(Refill(s.(queue := [c]), rate, t, true), turns);
        PlayAppend(s.queue, [Join(c)], Takes(turns));
        assert [] + [c] == [c];
      }
    case Fire(t, turns) => TurnsPlay(Refill(s.(pending := if s.pending == 0 then 0 else s.pending - 1), rate, t, false), turns);
    case Adjust(_) =>
  }

  /** The ring of a run is its moves played out. */
  lemma {:induction false} RunPlays<C>(s: State<C>, rate: real, steps: seq<Step<C>>)
    ensures Run(s, rate, steps).queue == Play(s.queue, RunMoves(s, rate, steps))
    decreases |steps|
  {
    hide Next, StepMoves;
    if steps != [] {
      StepPlays(s, rate, steps[0]);
      RunPlays(Next(s, rate, steps[0]), rate, steps[1..]);
      PlayAppend(s.queue, StepMoves(s, steps[0]), RunMoves(Next(s, rate, steps[0]), rate, steps[1..]));
    }
  }

  /** Nobody joins who is queued already. */
  ghost predicate JoinsNew<C>(q: seq<C>, moves: seq<Move<C>>)
    decreases |moves|
  {
    moves == [] || ((moves[0].Join? ==> moves[0].conn !in q) && JoinsNew(Played(q, moves[0]), moves[1..]))
  }

  lemma {:induction false} JoinsNewAppend<C>(q: seq<C>, a: seq<Move<C>>, b: seq<Move<C>>)
    requires JoinsNew(q, a) && JoinsNew(Play(q, a), b)
    ensures JoinsNew(q, a + b)
    decreases |a|
  {
    if a == [] {
      assert a + b == b;
    } else {
      JoinsNewAppend(Played(q, a[0]), a[1..], b);
      assert (a + b)[0] == a[0] && (a + b)[1..] == a[1..] + b;
    }
  }

  lemma {:induction false} TakesJoinNobody<C>(q: seq<C>, turns: seq<Turn>)
    ensures JoinsNew(q, Takes(turns))
  {
    if turns != [] {
      var last: Move<C> := Take(turns[|turns| - 1]);
      TakesJoinNobody(q, turns[..|turns| - 1]);
      assert [last][1..] == [];
      JoinsNewAppend(q, Takes(turns[..|turns| - 1]), [last]);
    }
  }

  lemma {:induction false} StepJoinsNew<C>(s: State<C>, rate: real, unit: nat, step: Step<C>)
    requires Enabled(s, rate, unit, step)
    ensures JoinsNew(s.queue, StepMoves(s, step))
  {
    match step
    case Queue(c, t, turns) =>
      assert [Join(c)][1..] == [];
      assert JoinsNew(s.queue, [Join(c)]);
      if s.queue == [] {
        TakesJoinNobody(Play(s.queue, [Join(c)]), turns);
        JoinsNewAppend(s.queue, [Join(c)], Takes(turns));
      }
    case Fire(t, turns) => TakesJoinNobody(s.queue, turns);
    case Adjust(_) =>
  }

  lemma {:induction false} RunJoinsNew<C>(s: State<C>, rate: real, unit: nat, steps: seq<Step<C>>)
    requires ValidRun(s, rate, unit, steps)
    ensures JoinsNew(s.queue, RunMoves(s, rate, steps))
    decreases |steps|
  {
    hide Next, StepMoves, Enabled;
    if steps != [] {
      StepJoinsNew(s, rate, unit, steps[0]);
      StepPlays(s, rate, steps[0]);
      RunJoinsNew(Next(s, rate, steps[0]), rate, unit, steps[1..]);
      JoinsNewAppend(s.queue, StepMoves(s, steps[0]), RunMoves(Next(s, rate, steps[0]), rate, steps[1..]));
    }
  }

  lemma {:induction false} PlayDistinct<C>(q: seq<C>, moves: seq<Move<C>>, i: nat)
    requires Distinct(q) && JoinsNew(q, moves) && i <= |moves|
    ensures Distinct(Play(q, moves[..i]))
    decreases i
  {
    if i > 0 {
      if moves[0].Take? && q != [] { RotateDistinct(q); }
      PlayDistinct(Played(q, moves[0]), moves[1..], i - 1);
      assert moves[..i][0] == moves[0] && moves[..i][1..] == moves[1..][..i - 1];
    }
  }

  /** The connections served after move `i`. */
  function ServedAfter<C>(q: seq<C>, moves: seq<Move<C>>, i: nat): seq<C>
    requires i < |moves|
  {
    Heads(Play(q, moves[..i + 1]), moves[i + 1..])
  }

  /** Move `i` is a turn after which its connection stays queued, and the connection's next turn is
      the `j`-th one after that. */
  ghost predicate TurnAgain<C>(q: seq<C>, moves: seq<Move<C>>, i: nat, j: nat) {
    && i < |moves| && moves[i].Take? && Stays(moves[i].turn)
    && var ring, served := Play(q, moves[..i]), ServedAfter(q, moves, i);
       ring != [] && j < |served| && served[j] == ring[0] && forall k :: 0 <= k < j ==> served[k] != ring[0]
  }

  /** Over every run of queueing, callbacks and adjustments: from one turn of a connection that goes
      back into the ring to its next, exactly the others in the ring are served, once each and in
      ring order, whoever joins or drops out meanwhile. */
  lemma {:induction false} RunIsFair<C>(s: State<C>, rate: real, unit: nat, steps: seq<Step<C>>)
    requires Distinct(s.queue) && ValidRun(s, rate, unit, steps)
    ensures var moves := RunMoves(s, rate, steps);
      forall i: nat, j: nat :: TurnAgain(s.queue, moves, i, j) ==>
        ServedAfter(s.queue, moves, i)[..j] == Play(s.queue, moves[..i])[1..]
  {
    hide RunMoves, JoinsNew, Play, Heads;
    var moves := RunMoves(s, rate, steps);
    RunJoinsNew(s, rate, unit, steps);
    forall i: nat, j: nat | TurnAgain(s.queue, moves, i, j)
      ensures ServedAfter(s.queue, moves, i)[..j] == Play(s.queue, moves[..i])[1..]
    {
      PlayIsFair(s.queue, moves, i, j);
    }
  }

  lemma {:induction false} PlayIsFair<C>(q: seq<C>, moves: seq<Move<C>>, i: nat, j: nat)
    requires Distinct(q) && JoinsNew(q, moves) && TurnAgain(q, moves, i, j)
    ensures ServedAfter(q, moves, i)[..j] == Play(q, moves[..i])[1..]
  {
    hide Heads, Play, Played, JoinsNew;
    PlayDistinct(q, moves, i);
    PlayAppend(q, moves[..i], [moves[i]]);
    PlayOne(Play(q, moves[..i]), moves[i]);
    assert moves[..i + 1] == moves[..i] + [moves[i]];
    RoundRobin(Play(q, moves[..i]), moves[i].turn, moves[i + 1..], j);
  }

  // ---------------------------------------------------------------- the token bucket

  /** What the rate allows for the time between `start` and the last reading. */
  function Earned<C>(s: State<C>, rate: real): real { rate * (s.lasttime - s.start) }

  /** What has been sent is paid for by elapsed time and the debt still on the books. */
  ghost predicate Paid<C>(s: State<C>, rate: real) {
    && s.total as real <= Earned(s, rate) + s.sent
    && s.sent <= rate * 3.0
  }

  ghost predicate Bounded<C>(s: State<C>, rate: real, unit: nat) {
    s.total as real <= Earned(s, rate) + unit as real
  }

  lemma EarnedBySameTimes<C>(s: State<C>, r: State<C>, rate: real)
    requires s.lasttime == r.lasttime && s.start == r.start
    ensures Earned(s, rate) == Earned(r, rate)
  {
  }

  lemma ServePaid<C>(s: State<C>, rate: real, unit: nat, turn: Turn)
    requires Paid(s, rate) && Open(s) && turn.bytes <= unit && unit as real <= rate * 3.0
    ensures Paid(Serve(s, turn), rate) && Bounded(Serve(s, turn), rate, unit)
  {
    hide Earned;
    EarnedBySameTimes(s, Serve(s, turn), rate);
  }

  lemma {:induction false} ServeAllPaid<C>(s: State<C>, rate: real, unit: nat, turns: seq<Turn>)
    requires Paid(s, rate) && Bounded(s, rate, unit) && unit as real <= rate * 3.0
    requires Going(s, unit, turns)
    ensures Paid(ServeAll(s, turns), rate) && Bounded(ServeAll(s, turns), rate, unit)
  {
    if turns != [] {
      hide Paid, Bounded, Earned;
      var front := turns[..|turns| - 1];
      forall i | 0 <= i < |front| ensures Open(ServeAll(s, front[..i])) && front[i].bytes <= unit {
        assert front[..i] == turns[..i];
      }
      ServeAllPaid(s, rate, unit, front);
      ServePaid(ServeAll(s, front), rate, unit, turns[|turns| - 1]);
    }
  }

  lemma RefillPaid<C>(s: State<C>, rate: real, unit: nat, t: real, checkTime: bool)
    requires Paid(s, rate) && Bounded(s, rate, unit) && rate > 0.0 && t >= s.lasttime
    ensures Paid(Refill(s, rate, t, checkTime), rate) && Bounded(Refill(s, rate, t, checkTime), rate, unit)
  {
    hide Earned, Accrued;
    EarnedLater(s, rate, t);
    EarnedBySameTimes(Refill(s, rate, t, checkTime), s.(lasttime := t), rate);
  }

  lemma EarnedLater<C>(s: State<C>, rate: real, t: real)
    requires rate > 0.0 && s.lasttime <= t
    ensures Accrued(t - s.lasttime, rate) >= 0.0
    ensures Earned(s.(lasttime := t), rate) == Earned(s, rate) + Accrued(t - s.lasttime, rate)
  {
    assert rate * (t - s.start) == rate * ((s.lasttime - s.start) + (t - s.lasttime));
  }

  lemma TrySendPaid<C>(s: State<C>, rate: real, unit: nat, t: real, checkTime: bool, turns: seq<Turn>)
    requires Paid(s, rate) && Bounded(s, rate, unit) && rate > 0.0 && unit as real <= rate * 3.0
    requires t >= s.lasttime && LoopTrace(Refill(s, rate, t, checkTime), unit, turns)
    ensures Paid(TrySend(s, rate, t, checkTime, turns), rate) && Bounded(TrySend(s, rate, t, checkTime, turns), rate, unit)
  {
    hide Earned, Refill;
    RefillPaid(s, rate, unit, t, checkTime);
    ServeAllPaid(Refill(s, rate, t, checkTime), rate, unit, turns);
    EarnedBySameTimes(TrySend(s, rate, t, checkTime, turns), ServeAll(Refill(s, rate, t, checkTime), turns), rate);
  }

  lemma StepPaid<C>(s: State<C>, rate: real, unit: nat, step: Step<C>)
    requires Paid(s, rate) && Bounded(s, rate, unit) && Enabled(s, rate, unit, step)
    requires rate > 0.0 && unit as real <= rate * 3.0
    ensures Paid(Next(s, rate, step), rate) && Bounded(Next(s, rate, step), rate, unit)
  {
    hide Earned, TrySend, LoopTrace;
    match step
    case Queue(c, t, turns) =>
      var one := s.(queue := if s.queue == [] then [c] else s.queue + [c]);
      EarnedBySameTimes(s, one, rate);
      if s.queue == [] { TrySendPaid(one, rate, unit, t, true, turns); }
    case Fire(t, turns) =>
      var due := s.(pending := s.pending - 1);
      EarnedBySameTimes(s, due, rate);
      TrySendPaid(due, rate, unit, t, false, turns);
    case Adjust(_) => EarnedBySameTimes(s, Next(s, rate, step), rate);
  }

  // ---------------------------------------------------------------- what each entry point sends

  function Max(a: real, b: real): real { if a < b then b else a }

  /** Inside the loop every byte sent is charged. */
  lemma {:induction false} ServeAllCharges<C>(s: State<C>, turns: seq<Turn>)
    ensures var r := ServeAll(s, turns); r.sent - r.total as real == s.sent - s.total as real && r.total >= s.total
  {
    if turns != [] { ServeAllCharges(s, turns[..|turns| - 1]); }
  }

  /** A complete loop sends nothing while in debt; otherwise less than its credit and one unit more,
      and more than its credit unless the ring ran empty. */
  lemma {:induction false} LoopSends<C>(s: State<C>, unit: nat, turns: seq<Turn>)
    requires LoopTrace(s, unit, turns)
    ensures var r := ServeAll(s, turns); var out := (r.total - s.total) as real;
      && r.sent == s.sent + out
      && (if turns == [] then out == 0.0 else out <= unit as real - s.sent)
      && (s.sent > 0.0 ==> turns == [])
      && (r.queue != [] ==> out > 0.0 - s.sent)
  {
    hide Serve;
    ServeAllCharges(s, turns);
    if turns != [] {
      assert turns[..0] == [] && ServeAll(s, []) == s;
      assert Open(ServeAll(s, turns[..0]));
      var n := |turns| - 1;
      assert Open(ServeAll(s, turns[..n])) && turns[n].bytes <= unit;
      ServeAllCharges(s, turns[..n]);
      ServeAdds(ServeAll(s, turns[..n]), turns[n]);
    }
  }

  lemma ServeAdds<C>(s: State<C>, turn: Turn)
    requires s.queue != []
    ensures Serve(s, turn).total == s.total + turn.bytes
  {
  }

  /** A callback carries all credit over: what has gone out by then is paid by the time elapsed, and
      if somebody is still queued the credit has been used up. */
  lemma FireSends<C>(s: State<C>, rate: real, unit: nat, t: real, turns: seq<Turn>)
    requires Enabled(s, rate, unit, Fire(t, turns))
    ensures var r := Next(s, rate, Fire(t, turns));
      var out, credit := (r.total - s.total) as real, rate * (t - s.lasttime) - s.sent;
      && r.sent == out - credit && r.lasttime == t
      && (credit < 0.0 ==> out == 0.0) && out <= Max(0.0, credit + unit as real)
      && (r.queue != [] ==> out > credit)
  {
    var due := s.(pending := s.pending - 1);
    RefillKeeps(due, rate, t, false);
    hide Refill, Next, Enabled, Max;
    FireSendsBy(s, rate, unit, t, turns, rate * (t - s.lasttime));
  }

  lemma FireSendsBy<C>(s: State<C>, rate: real, unit: nat, t: real, turns: seq<Turn>, gain: real)
    requires Enabled(s, rate, unit, Fire(t, turns))
    requires var due := Refill(s.(pending := s.pending - 1), rate, t, false);
      due.sent == s.sent - gain && due.total == s.total && due.lasttime == t
    ensures var r := Next(s, rate, Fire(t, turns)); var out, credit := (r.total - s.total) as real, gain - s.sent;
      && r.sent == out - credit && r.lasttime == t
      && (credit < 0.0 ==> out == 0.0) && out <= Max(0.0, credit + unit as real)
      && (r.queue != [] ==> out > credit)
  {
    hide Refill, TrySend, LoopTrace;
    TrySendSends(s.(pending := s.pending - 1), rate, unit, t, false, turns);
  }

  /** What one `try_send` does, from the account after the recharge. */
  lemma TrySendSends<C>(s: State<C>, rate: real, unit: nat, t: real, checkTime: bool, turns: seq<Turn>)
    requires LoopTrace(Refill(s, rate, t, checkTime), unit, turns)
    ensures var start, r := Refill(s, rate, t, checkTime), TrySend(s, rate, t, checkTime, turns);
      var out := (r.total - start.total) as real;
      && r.lasttime == start.lasttime && r.sent == start.sent + out && r.total >= start.total
      && (if turns == [] then out == 0.0 else out <= unit as real - start.sent)
      && (start.sent > 0.0 ==> turns == []) && (r.queue != [] ==> out > 0.0 - start.sent)
  {
    hide Refill, ServeAll, LoopTrace, Delay;
    var start := Refill(s, rate, t, checkTime);
    LoopSends(start, unit, turns);
    ServeAllTime(start, turns);
    ServeAllCharges(start, turns);
  }

  /** A first connection finds no credit, only debt: however long the limiter was idle, at most one
      unit goes out, and none while there is debt. */
  lemma QueueSends<C>(s: State<C>, rate: real, unit: nat, c: C, t: real, turns: seq<Turn>)
    requires s.queue == [] && Enabled(s, rate, unit, Queue(c, t, turns))
    ensures var r := Next(s, rate, Queue(c, t, turns));
      var out, debt := (r.total - s.total) as real, Max(0.0, s.sent - rate * (t - s.lasttime));
      && r.sent == out + debt && r.lasttime == t
      && out <= unit as real && (debt > 0.0 ==> out == 0.0)
      && (r.queue != [] ==> r.sent > 0.0)
  {
    var one := s.(queue := [c]);
    RefillKeeps(one, rate, t, true);
    hide Refill;
    TrySendSends(one, rate, unit, t, true, turns);
  }

  lemma RefillKeeps<C>(s: State<C>, rate: real, t: real, checkTime: bool)
    ensures var r := Refill(s, rate, t, checkTime);
      && r.total == s.total && r.queue == s.queue && r.lasttime == t
      && r.sent == if checkTime then Max(0.0, s.sent - rate * (t - s.lasttime)) else s.sent - rate * (t - s.lasttime)
  {
  }

  lemma {:induction false} ServeAllTime<C>(s: State<C>, turns: seq<Turn>)
    ensures ServeAll(s, turns).lasttime == s.lasttime
  {
    if turns != [] { ServeAllTime(s, turns[..|turns| - 1]); }
  }

  /** The delay is right: unless traffic was charged in between, a callback finds credit if and only
      if it comes no earlier than it was asked to. */
  lemma DelayIsExact<C>(s: State<C>, rate: real, t: real, checkTime: bool, turns: seq<Turn>, later: real)
    requires rate > 0.0 && TrySend(s, rate, t, checkTime, turns).queue != []
    ensures var r := TrySend(s, rate, t, checkTime, turns);
      Open(Refill(r, rate, later, false)) <==> later >= r.lasttime + r.delay
  {
    hide ServeAll;
    var r := TrySend(s, rate, t, checkTime, turns);
    DelayPays(r.sent, rate, later - r.lasttime);
    RefillKeeps(r, rate, later, false);
  }

  lemma DelayPays(sent: real, rate: real, elapsed: real)
    requires rate > 0.0
    ensures sent - rate * elapsed <= 0.0 <==> elapsed >= Delay(sent, rate)
  {
    var d := Delay(sent, rate);
    assert rate * d == sent;
    assert rate * elapsed - rate * d == rate * (elapsed - d);
  }

  // ---------------------------------------------------------------- whole runs

  /** The state right after `set_upload_rate`, with whoever is already queued. */
  ghost predicate JustSet<C>(s: State<C>) {
    Scheduled(s) && s.sent == 0.0 && s.total == 0 && s.start == s.lasttime
  }

  lemma {:induction false} RunKeeps<C>(s: State<C>, rate: real, unit: nat, steps: seq<Step<C>>)
    requires ValidRun(s, rate, unit, steps) && Scheduled(s) && rate > 0.0
    ensures Scheduled(Run(s, rate, steps))
    ensures Paid(s, rate) && Bounded(s, rate, unit) && unit as real <= rate * 3.0 ==>
      Paid(Run(s, rate, steps), rate) && Bounded(Run(s, rate, steps), rate, unit)
    decreases |steps|
  {
    if steps != [] {
      StepScheduled(s, rate, unit, steps[0]);
      if Paid(s, rate) && Bounded(s, rate, unit) && unit as real <= rate * 3.0 {
        StepPaid(s, rate, unit, steps[0]);
      }
      RunKeeps(Next(s, rate, steps[0]), rate, unit, steps[1..]);
    }
  }

  /** Through any mix of queueing, callbacks however late and adjustments, a callback is pending
      exactly when the ring is non-empty, so none ever fires on an empty ring. */
  lemma {:induction false} CallbackNeverMisfires<C>(s: State<C>, rate: real, unit: nat, steps: seq<Step<C>>)
    requires JustSet(s) && rate > 0.0 && ValidRun(s, rate, unit, steps)
    ensures var r := Run(s, rate, steps);
      && r.pending == (if r.queue == [] then 0 else 1)
      && (forall step :: Enabled(r, rate, unit, step) && step.Fire? ==> r.queue != [])
  {
    RunKeeps(s, rate, unit, steps);
  }

  ghost predicate AlwaysBounded(rate: real, unit: nat) {
    forall s: State<nat>, steps :: JustSet(s) && ValidRun(s, rate, unit, steps) ==>
      Bounded(Run(s, rate, steps), rate, unit)
  }

  /** The run that breaks the bound when one unit is worth more than three seconds: `adjust_sent`
      caps the debt of the first unit at three seconds' worth, so the second goes out too soon. */
  lemma EarlySecondUnit(rate: real, unit: nat) returns (s: State<nat>, steps: seq<Step<nat>>)
    requires rate > 0.0 && unit as real > rate * 3.0
    ensures JustSet(s) && ValidRun(s, rate, unit, steps) && !Bounded(Run(s, rate, steps), rate, unit)
  {
    s := State([], 0.0, 0.0, 0, 0.0, 0.0, 0);
    var turn := Turn(unit, false);
    var s1 := State([0], unit as real, 0.0, 1, Delay(unit as real, rate), 0.0, unit);
    var s2 := s1.(sent := rate * 3.0);
    var first := Queue(0, 0.0, [turn]);
    var second: Step<nat> := Fire(3.0, [turn]);
    OneTurn(s.(queue := [0]), rate, unit, 0.0, true, turn);
    OneTurn(s2.(pending := 0), rate, unit, 3.0, false, turn);
    assert Next(s, rate, first) == s1 && Next(s1, rate, Adjust(0)) == s2;
    var s3 := Next(s2, rate, second);
    assert s3.total == unit + unit && s3.lasttime == 3.0 && s3.start == 0.0;
    RunOne(s2, rate, unit, second, []);
    RunOne(s1, rate, unit, Adjust(0), [second]);
    RunOne(s, rate, unit, first, [Adjust(0), second]);
    steps := [first] + [Adjust(0), second];
    assert [Adjust(0)] + [second] == [Adjust(0), second] && [second] + [] == [second];
  }

  lemma OneTurn<C>(s: State<C>, rate: real, unit: nat, t: real, checkTime: bool, turn: Turn)
    requires Open(Refill(s, rate, t, checkTime)) && 0 < turn.bytes <= unit && !turn.backlogged
    requires Refill(s, rate, t, checkTime).sent == 0.0 && |s.queue| == 1
    ensures LoopTrace(Refill(s, rate, t, checkTime), unit, [turn])
    ensures TrySend(s, rate, t, checkTime, [turn]) ==
      State(s.queue, turn.bytes as real, t, s.pending + 1, Delay(turn.bytes as real, rate), s.start, s.total + turn.bytes)
  {
    var r := Refill(s, rate, t, checkTime);
    assert [turn][..0] == [] && ServeAll(r, [turn]) == Serve(r, turn);
    assert s.queue[1..] + [s.queue[0]] == s.queue;
  }

  lemma {:induction false} RunOne<C>(s: State<C>, rate: real, unit: nat, step: Step<C>, rest: seq<Step<C>>)
    requires Enabled(s, rate, unit, step) && ValidRun(Next(s, rate, step), rate, unit, rest)
    ensures ValidRun(s, rate, unit, [step] + rest)
    ensures Run(s, rate, [step] + rest) == Run(Next(s, rate, step), rate, rest)
  {
    assert ([step] + rest)[1..] == rest;
  }

  /** At a fixed rate, no run sends more than rate times elapsed clock time plus one unit, if and
      only if one unit is at most three seconds' worth. */
  lemma BucketBoundExactly(rate: real, unit: nat)
    requires rate > 0.0
    ensures AlwaysBounded(rate, unit) <==> unit as real <= rate * 3.0
  {
    if unit as real <= rate * 3.0 {
      forall s: State<nat>, steps | JustSet(s) && ValidRun(s, rate, unit, steps)
        ensures Bounded(Run(s, rate, steps), rate, unit)
      {
        RunKeeps(s, rate, unit, steps);
      }
    } else {
      var s, steps := EarlySecondUnit(rate, unit);
    }
  }
}

/** The limiter object: a hand-made circular list threaded through the connections. Each entry
    point moves the abstract state of `LimiterSpec` by exactly the step it stands for. */
module LimiterObject {
  import opened Text
  import opened LimiterSpec
  import Clock

  const MAX_RATE := 100000000000.0

  class Connection {
    var next: Connection?

    constructor ()
      ensures next == null
    {
      next := null;
    }

    /** Some amount of data between nothing and one full unit. */
    method SendPartial(unit: nat) returns (bytes: nat)
      ensures bytes <= unit
    {
      bytes :| bytes <= unit;
    }

    method Backlogged() returns (b: bool) {
      b := *;
    }
  }

  /** How many more positive sends the loop can make before the credit is gone. */
  function CreditLeft(sent: real): nat {
    if sent > 0.0 then 0 else (-sent).Floor + 1
  }

  class RateLimiter {
    const unit: nat
    const clock: Clock.RelativeTime
    var last: Connection?
    var rate: real
    var autoadjust: bool
    var lasttime: real
    var sent: real
    var pending: nat
    var delay: real
    ghost var ring: seq<Connection>
    ghost var start: real
    ghost var total: nat

    ghost function View(): State<Connection>
      reads this
    {
      State(ring, sent, lasttime, pending, delay, start, total)
    }

    /** The `next_upload` links form one cycle through the distinct connections of `ring`, which
        ends at `last`. */
    ghost predicate Linked()
      reads this, ring
    {
      && (last == null <==> ring == [])
      && Distinct(ring)
      && (ring != [] ==> last == ring[|ring| - 1] && last.next == ring[0])
      && (forall i :: 0 <= i < |ring| - 1 ==> ring[i].next == ring[i + 1])
    }

    ghost predicate Valid()
      reads this, ring, clock
    {
      Linked() && Scheduled(View()) && rate > 0.0 && lasttime <= clock.time
    }

    constructor (unit: nat, clock: Clock.RelativeTime, kilobytes: real)
      requires kilobytes >= 0.0
      ensures Valid() && JustSet(View()) && ring == [] && this.unit == unit && this.clock == clock
    {
      this.unit, this.clock := unit, clock;
      last, autoadjust, pending, delay := null, false, 0, 0.0;
      rate := (if kilobytes == 0.0 then MAX_RATE else kilobytes) * 1000.0;
      lasttime, sent, ring, start, total := clock.time, 0.0, [], clock.time, 0;
    }

    /** `set_upload_rate`: a negative rate asks for automatic adjustment, zero for no limit. */
    method SetUploadRate(kilobytes: real, raw: real)
      requires Valid()
      modifies this, clock
      ensures Valid() && ring == old(ring) && pending == old(pending)
      ensures autoadjust == (kilobytes < 0.0)
      ensures kilobytes < 0.0 && old(autoadjust) ==> View() == old(View()) && rate == old(rate)
      ensures !(kilobytes < 0.0 && old(autoadjust)) ==>
        JustSet(View()) && rate == (if kilobytes <= 0.0 then MAX_RATE else kilobytes) * 1000.0
    {
      if kilobytes < 0.0 {
        if autoadjust {
          return;
        }
        autoadjust := true;
        rate := MAX_RATE * 1000.0;
      } else {
        autoadjust := false;
        rate := (if kilobytes == 0.0 then MAX_RATE else kilobytes) * 1000.0;
      }
      lasttime := clock.GetTime(raw);
      sent, start, total := 0.0, lasttime, 0;
    }

    /** `queue`: the new connection goes to the back; a first connection is tried at once. */
    method Queue(conn: Connection, raw: real) returns (ghost turns: seq<Turn>)
      requires Valid() && conn.next == null
      modifies this, clock, ring, conn
      ensures Valid() && rate == old(rate)
      ensures Enabled(old(View()), rate, unit, LimiterSpec.Queue(conn, clock.time, turns))
      ensures View() == Next(old(View()), rate, LimiterSpec.Queue(conn, clock.time, turns))
      ensures forall c :: c in old(ring) + [conn] && c !in ring ==> c.next == null
    {
      NotLinkedYet(conn);
      turns := [];
      if last == null {
        last := conn;
        conn.next := conn;
        ring := [conn];
        turns := TrySend(raw, true);
      } else {
        conn.next := last.next;
        last.next := conn;
        last := conn;
        ring := ring + [conn];
      }
    }

    lemma NotLinkedYet(conn: Connection)
      requires Linked() && conn.next == null
      ensures conn !in ring
    {
      forall i | 0 <= i < |ring| ensures ring[i].next != null {
        if i < |ring| - 1 { assert ring[i].next == ring[i + 1]; }
      }
    }

    /** The scheduled callback; the invariant says it can only come with somebody queued. */
    method Callback(raw: real) returns (ghost turns: seq<Turn>)
      requires Valid() && pending > 0
      modifies this, clock, ring
      ensures Valid() && rate == old(rate)
      ensures Enabled(old(View()), rate, unit, Fire(clock.time, turns))
      ensures View() == Next(old(View()), rate, Fire(clock.time, turns))
      ensures forall c :: c in old(ring) && c !in ring ==> c.next == null
    {
      pending := pending - 1;
      turns := TrySend(raw, false);
    }

    method TrySend(raw: real, checkTime: bool) returns (ghost turns: seq<Turn>)
      requires Linked() && ring != [] && pending == 0 && rate > 0.0 && lasttime <= clock.time
      modifies this, clock, ring
      ensures Valid() && rate == old(rate) && old(lasttime) <= clock.time
      ensures LoopTrace(Refill(old(View()), rate, clock.time, checkTime), unit, turns)
      ensures View() == LimiterSpec.TrySend(old(View()), rate, clock.time, checkTime, turns)
      ensures forall c :: c in old(ring) && c !in ring ==> c.next == null
    {
      hide Delay, Refill, ServeAll, LoopTrace;
      Recharge(raw, checkTime);
      ghost var entry := View();
      turns := SendLoop();
      ServeAllFrame(entry, turns);
      if last != null {
        pending := pending + 1;
        delay := Delay(sent, rate);
      }
    }

    /** Read the clock and turn the time gone by into credit. */
    method Recharge(raw: real, checkTime: bool)
      requires lasttime <= clock.time
      modifies this`sent, this`lasttime, clock
      ensures View() == Refill(old(View()), rate, clock.time, checkTime)
      ensures lasttime == clock.time && old(clock.time) <= clock.time
    {
      hide Accrued;
      var t := clock.GetTime(raw);
      sent := sent - Accrued(t - lasttime, rate);
      lasttime := t;
      if checkTime && sent < 0.0 {
        sent := 0.0;
      }
    }

    /** The send loop proper; it ends because every turn either uses up credit or shortens the
        ring. */
    method SendLoop() returns (ghost turns: seq<Turn>)
      requires Linked()
      modifies this, ring
      ensures Linked() && pending == old(pending) && delay == old(delay) && rate == old(rate) && lasttime == old(lasttime) && start == old(start)
      ensures LoopTrace(old(View()), unit, turns) && View() == ServeAll(old(View()), turns)
      ensures forall c :: c in old(ring) && c !in ring ==> c.next == null
    {
      turns := [];
      ghost var entry := View();
      ghost var conns := set c | c in ring;
      EmptyWhenNull();
      hide Linked, Going, ServeAll, Serve, CreditLeft;
      while last != null && sent <= 0.0
        invariant pending == old(pending) && delay == old(delay) && rate == old(rate) && lasttime == old(lasttime) && start == old(start)
        invariant Linked() && (last == null <==> ring == []) && (forall c :: c in ring ==> c in conns)
        invariant View() == ServeAll(entry, turns) && Going(entry, unit, turns)
        invariant forall c :: c in conns && c !in ring ==> c.next == null
        decreases |ring|, CreditLeft(sent)
      {
        ghost var credit := sent;
        var turn := TakeTurn(conns);
        Extend(entry, turns, turn, unit);
        CreditDrops(credit, turn.bytes);
        EmptyWhenNull();
        turns := turns + [turn];
      }
    }

    lemma EmptyWhenNull()
      requires Linked()
      ensures last == null <==> ring == []
    {
    }

    /** One turn of the loop: the head sends what it will, and leaves or goes to the back. */
    method TakeTurn(ghost conns: set<Connection>) returns (turn: Turn)
      requires Linked() && ring != [] && forall c :: c in ring ==> c in conns
      requires forall c :: c in conns && c !in ring ==> c.next == null
      modifies this`last, this`ring, this`sent, this`total, conns
      ensures Linked() && turn.bytes <= unit && View() == Serve(old(View()), turn)
      ensures forall c :: c in conns && c !in ring ==> c.next == null
      ensures forall c :: c in ring ==> c in conns
      ensures |ring| < |old(ring)| || (|ring| == |old(ring)| && turn.bytes > 0 && sent == old(sent) + turn.bytes as real)
    {
      var cur := last.next;
      var bytes := cur.SendPartial(unit);
      var backlogged := cur.Backlogged();
      sent := sent + bytes as real;
      total := total + bytes;
      if bytes == 0 || backlogged {
        DropHead();
      } else {
        Rotate();
      }
      turn := Turn(bytes, backlogged);
    }

    /** The connection after `last` becomes the last one. */
    method Rotate()
      requires Linked() && ring != []
      modifies this`last, this`ring
      ensures Linked() && ring == old(ring)[1..] + [old(ring)[0]]
    {
      RotateDistinct(ring);
      last := last.next;
      ring := ring[1..] + [ring[0]];
    }

    /** Unlink the connection after `last`. */
    method DropHead()
      requires Linked() && ring != []
      modifies this`last, this`ring, ring
      ensures Linked() && ring == old(ring)[1..] && old(ring)[0].next == null
    {
      var cur := last.next;
      if last == cur {
        last := null;
        cur.next := null;
      } else {
        last.next := cur.next;
        cur.next := null;
      }
      ring := ring[1..];
    }

    /** `adjust_sent`: outside traffic is charged too, up to three seconds' worth of debt. */
    method AdjustSent(bytes: nat)
      requires Valid()
      modifies this`sent
      ensures Valid() && View() == Next(old(View()), rate, Adjust(bytes))
    {
      var more := sent + bytes as real;
      sent := if more < rate * 3.0 then more else rate * 3.0;
    }
  }

  lemma CreditDrops(sent: real, bytes: nat)
    requires sent <= 0.0
    ensures bytes > 0 ==> CreditLeft(sent + bytes as real) < CreditLeft(sent)
  {
  }

  lemma {:induction false} Extend<C>(s: State<C>, turns: seq<Turn>, turn: Turn, unit: nat)
    requires Going(s, unit, turns) && Open(ServeAll(s, turns)) && turn.bytes <= unit
    ensures ServeAll(s, turns + [turn]) == Serve(ServeAll(s, turns), turn)
    ensures Going(s, unit, turns + [turn])
  {
    var more := turns + [turn];
    assert more[..|turns|] == turns;
    forall i | 0 <= i < |more| ensures Open(ServeAll(s, more[..i])) && more[i].bytes <= unit {
      assert more[..i] == turns[..i];
    }
  }
}
