/** The bank's spent-coin store: sharded sets per interval that roll over with the intervals
    (ACoinMessages.py, BankServer.py, BankUtil.py). */
module BankSpec {
  import opened Text

  newtype Byte = x: int | 0 <= x < 256
  type Bytes = seq<Byte>
  type Digest = d: Bytes | |d| == 16 witness [0, 0, 0, 0, 0, 0, 0, 0, 0, 0, 0, 0, 0, 0, 0, 0]

  datatype Coin = Coin(receipt: Bytes, interval: int, signature: Bytes)

  /** The bank's key and the digest, as opaque functions: whether the bank signed a coin, the md5
      of a signature, and the signing of a payment token. */
  datatype Crypto = Crypto(signed: Coin -> bool, md5: Bytes -> Digest, sign: Bytes -> Bytes)

  /** `Globals.Acoins`, the current interval and whether the store has been set up. `accepted` is
      bookkeeping: the coins answered with '0' so far, in order. */
  datatype Bank = Bank(acoins: map<int, seq<set<Digest>>>, current: nat, ready: bool, accepted: seq<Coin>)

  const Closed := Bank(map[], 0, false, [])

  datatype Event = NewInterval(id: nat) | Present(coin: Coin)

  /** The answer to a presented coin; `Crash` is the source's `KeyError`. */
  datatype Answer = Accepted | Invalid | Spent | Crash

  function Previous(current: int): int {
    if current == 0 then 1 else current - 1
  }

  /** `numberOfSets + 1` empty sets. */
  function EmptyShards(sets: nat): seq<set<Digest>> { seq(sets + 1, _ => {}) }

  function Shard(sets: nat, d: Digest): nat
    requires sets > 0
  {
    d[0] as int % sets
  }

  predicate IsValid(crypto: Crypto, current: int, coin: Coin) {
    crypto.signed(coin) && (coin.interval == current || coin.interval == current - 1)
  }

  predicate KnowsInterval(sets: nat, b: Bank, interval: int) {
    interval in b.acoins && |b.acoins[interval]| == sets + 1
  }

  predicate IsSpent(crypto: Crypto, sets: nat, b: Bank, coin: Coin)
    requires sets > 0 && KnowsInterval(sets, b, coin.interval)
  {
    crypto.md5(coin.signature) in b.acoins[coin.interval][Shard(sets, crypto.md5(coin.signature))]
  }

  function Reply(crypto: Crypto, sets: nat, b: Bank, coin: Coin): Answer
    requires sets > 0
  {
    if !IsValid(crypto, b.current, coin) then Invalid
    else if !KnowsInterval(sets, b, coin.interval) then Crash
    else if IsSpent(crypto, sets, b, coin) then Spent
    else Accepted
  }

  function Spend(crypto: Crypto, sets: nat, b: Bank, coin: Coin): Bank
    requires sets > 0 && KnowsInterval(sets, b, coin.interval)
  {
    var d := crypto.md5(coin.signature);
    var shards := b.acoins[coin.interval];
    var i := Shard(sets, d);
    b.(acoins := b.acoins[coin.interval := shards[i := shards[i] + {d}]], accepted := b.accepted + [coin])
  }

  function PresentCoin(crypto: Crypto, sets: nat, b: Bank, coin: Coin): Bank
    requires sets > 0
  {
    if Reply(crypto, sets, b, coin) == Accepted then Spend(crypto, sets, b, coin) else b
  }

  /** `learned_current_acoin_interval` followed by `on_new_interval`. When the interval to delete
      is missing the source raises after the new sets are in place. */
  function Roll(sets: nat, b: Bank, id: nat): Bank {
    if b.ready then
      b.(acoins := b.acoins[id := EmptyShards(sets)] - {Previous(id) - 1}, current := id)
    else
      b.(acoins := map[Previous(id) := EmptyShards(sets), id as int := EmptyShards(sets)],
         current := id, ready := true)
  }

  predicate RollRaises(b: Bank, id: nat) {
    b.ready && Previous(id) - 1 != id && Previous(id) - 1 !in b.acoins
  }

  function Next(crypto: Crypto, sets: nat, b: Bank, e: Event): Bank
    requires sets > 0
  {
    match e
    case NewInterval(id) => Roll(sets, b, id)
    case Present(coin) => PresentCoin(crypto, sets, b, coin)
  }

  function Run(crypto: Crypto, sets: nat, b: Bank, events: seq<Event>): Bank
    requires sets > 0
  {
    if events == [] then b
    else Next(crypto, sets, Run(crypto, sets, b, events[..|events| - 1]), events[|events| - 1])
  }

  // ---------------------------------------------------------------- runs and their interval ids

  lemma {:induction false} RunAppend(crypto: Crypto, sets: nat, b: Bank, a: seq<Event>, e: seq<Event>)
    requires sets > 0
    ensures Run(crypto, sets, b, a + e) == Run(crypto, sets, Run(crypto, sets, b, a), e)
  {
    if e == [] {
      assert a + e == a;
    } else {
      RunAppend(crypto, sets, b, a, e[..|e| - 1]);
      assert (a + e)[..|a + e| - 1] == a + e[..|e| - 1];
    }
  }

  /** The interval ids of a run, in order of arrival. */
  function Ids(events: seq<Event>): seq<nat> {
    if events == [] then []
    else
      var front, last := Ids(events[..|events| - 1]), events[|events| - 1];
      if last.NewInterval? then front + [last.id] else front
  }

  lemma {:induction false} IdsAppend(a: seq<Event>, e: seq<Event>)
    ensures Ids(a + e) == Ids(a) + Ids(e)
  {
    if e == [] {
      assert a + e == a;
    } else {
      IdsAppend(a, e[..|e| - 1]);
      assert (a + e)[..|a + e| - 1] == a + e[..|e| - 1];
    }
  }

  /** The event that brought the `n`-th id. */
  lemma {:induction false} IdArrives(events: seq<Event>, n: nat) returns (i: nat)
    requires n < |Ids(events)|
    ensures i < |events| && events[i] == NewInterval(Ids(events)[n]) && Ids(events[..i]) == Ids(events)[..n]
  {
    var front := events[..|events| - 1];
    if n < |Ids(front)| {
      i := IdArrives(front, n);
      assert front[..i] == events[..i];
    } else {
      i := |events| - 1;
    }
  }

  /** The intervals the store has sets for after these callbacks. */
  function Stored(ids: seq<nat>): set<int> {
    if ids == [] then {}
    else
      var id := ids[|ids| - 1];
      if |ids| == 1 then {Previous(id), id as int}
      else (Stored(ids[..|ids| - 1]) + {id as int}) - {Previous(id) - 1}
  }

  /** The store's intervals depend on the callbacks alone. */
  ghost predicate InStep(sets: nat, b: Bank, ids: seq<nat>) {
    && b.acoins.Keys == Stored(ids)
    && (forall k :: k in b.acoins ==> |b.acoins[k]| == sets + 1)
    && (b.ready <==> ids != []) && (ids != [] ==> b.current == ids[|ids| - 1])
  }

  lemma RollInStep(sets: nat, b: Bank, ids: seq<nat>, id: nat)
    requires InStep(sets, b, ids)
    ensures InStep(sets, Roll(sets, b, id), ids + [id])
  {
    var more := ids + [id];
    assert more[..|ids|] == ids && more[|ids|] == id;
    var r := Roll(sets, b, id);
    assert r.acoins.Keys == Stored(more);
  }

  lemma PresentInStep(crypto: Crypto, sets: nat, b: Bank, ids: seq<nat>, coin: Coin)
    requires sets > 0 && InStep(sets, b, ids)
    ensures InStep(sets, PresentCoin(crypto, sets, b, coin), ids)
  {
    var r := PresentCoin(crypto, sets, b, coin);
    if r != b { assert r.acoins.Keys == b.acoins.Keys; }
  }

  lemma {:induction false} RunInStep(crypto: Crypto, sets: nat, events: seq<Event>)
    requires sets > 0
    ensures InStep(sets, Run(crypto, sets, Closed, events), Ids(events))
  {
    if events != [] {
      var front := events[..|events| - 1];
      RunInStep(crypto, sets, front);
      var b := Run(crypto, sets, Closed, front);
      match events[|events| - 1]
      case NewInterval(id) => RollInStep(sets, b, Ids(front), id);
      case Present(coin) => PresentInStep(crypto, sets, b, Ids(front), coin);
    }
  }

  // ---------------------------------------------------------------- at most once

  /** Same coin, as the store sees it. */
  predicate SameCoin(crypto: Crypto, a: Coin, b: Coin) {
    a.interval == b.interval && crypto.md5(a.signature) == crypto.md5(b.signature)
  }

  ghost predicate NoneTwice(crypto: Crypto, accepted: seq<Coin>) {
    forall i, j :: 0 <= i < j < |accepted| ==> !SameCoin(crypto, accepted[i], accepted[j])
  }

  /** Right after callback `m` a coin of interval `k` could be accepted: `k` is the interval or the
      one before, and the store has sets for it. */
  predicate OfferedAt(ids: seq<nat>, k: int, m: nat) {
    m < |ids| && (k == ids[m] || k + 1 == ids[m]) && k in Stored(ids[..m + 1])
  }

  ghost predicate Offered(ids: seq<nat>, k: int) { exists m: nat :: OfferedAt(ids, k, m) }

  /** A callback whose set is emptied although coins of its interval could already be accepted. A
      later callback for interval 0 is not one: it deletes the set it has just made. */
  ghost predicate ReopensAt(ids: seq<nat>, j: nat) {
    0 < j < |ids| && ids[j] > 0 && Offered(ids[..j], ids[j])
  }

  ghost predicate Reopens(ids: seq<nat>) { exists j: nat :: ReopensAt(ids, j) }

  lemma OfferedStill(ids: seq<nat>, n: nat, k: int)
    requires n <= |ids| && Offered(ids[..n], k)
    ensures Offered(ids, k)
  {
    var m: nat :| OfferedAt(ids[..n], k, m);
    assert ids[..n][..m + 1] == ids[..m + 1];
    assert OfferedAt(ids, k, m);
  }

  lemma ReopensStill(ids: seq<nat>, n: nat)
    requires n <= |ids| && Reopens(ids[..n])
    ensures Reopens(ids)
  {
    var j: nat :| ReopensAt(ids[..n], j);
    assert ids[..n][..j] == ids[..j];
    assert ReopensAt(ids, j);
  }

  /** Accepted coins are from intervals that were offered, and are in the store as long as their
      interval is. */
  ghost predicate Remembers(crypto: Crypto, sets: nat, b: Bank, ids: seq<nat>)
    requires sets > 0
  {
    && InStep(sets, b, ids)
    && (forall c :: c in b.accepted ==> Offered(ids, c.interval))
    && (forall c :: c in b.accepted && c.interval in b.acoins ==> IsSpent(crypto, sets, b, c))
  }

  lemma PresentKeeps(crypto: Crypto, sets: nat, b: Bank, ids: seq<nat>, coin: Coin)
    requires sets > 0 && Remembers(crypto, sets, b, ids) && NoneTwice(crypto, b.accepted)
    ensures Remembers(crypto, sets, PresentCoin(crypto, sets, b, coin), ids)
    ensures NoneTwice(crypto, PresentCoin(crypto, sets, b, coin).accepted)
  {
    hide Offered;
    PresentInStep(crypto, sets, b, ids, coin);
    var r := PresentCoin(crypto, sets, b, coin);
    if r != b {
      OfferedNow(ids, coin.interval);
      forall c | c in r.accepted
        ensures Offered(ids, c.interval) && (c.interval in r.acoins ==> IsSpent(crypto, sets, r, c))
      {
        if c != coin { assert c in b.accepted; }
      }
      forall i | 0 <= i < |b.accepted| ensures !SameCoin(crypto, b.accepted[i], coin) {
        assert b.accepted[i] in b.accepted;
      }
    }
  }

  lemma {:induction false} OfferedNow(ids: seq<nat>, k: int)
    requires ids != [] && (k == ids[|ids| - 1] || k + 1 == ids[|ids| - 1]) && k in Stored(ids)
    ensures Offered(ids, k)
  {
    assert ids[..|ids|] == ids;
    assert OfferedAt(ids, k, |ids| - 1);
  }

  lemma NothingOffered(k: int)
    ensures !Offered([], k)
  {
  }

  lemma RollKeeps(crypto: Crypto, sets: nat, b: Bank, ids: seq<nat>, id: nat)
    requires sets > 0 && Remembers(crypto, sets, b, ids) && !Reopens(ids + [id])
    ensures Remembers(crypto, sets, Roll(sets, b, id), ids + [id])
  {
    hide Offered;
    RollInStep(sets, b, ids, id);
    var r, more := Roll(sets, b, id), ids + [id];
    assert more[..|ids|] == ids;
    forall c | c in r.accepted
      ensures Offered(more, c.interval) && (c.interval in r.acoins ==> IsSpent(crypto, sets, r, c))
    {
      NothingOffered(c.interval);
      OfferedStill(more, |ids|, c.interval);
      if c.interval == id { assert !ReopensAt(more, |ids|); }
    }
  }

  lemma {:induction false} RunKeeps(crypto: Crypto, sets: nat, events: seq<Event>)
    requires sets > 0 && !Reopens(Ids(events))
    ensures var b := Run(crypto, sets, Closed, events);
      Remembers(crypto, sets, b, Ids(events)) && NoneTwice(crypto, b.accepted)
  {
    if events != [] {
      var front, ids := events[..|events| - 1], Ids(events);
      assert Ids(front) == ids[..|Ids(front)|];
      if Reopens(Ids(front)) { ReopensStill(ids, |Ids(front)|); }
      RunKeeps(crypto, sets, front);
      var b := Run(crypto, sets, Closed, front);
      match events[|events| - 1]
      case NewInterval(id) =>
        RollKeeps(crypto, sets, b, Ids(front), id);
      case Present(coin) => PresentKeeps(crypto, sets, b, Ids(front), coin);
    }
  }

  // ---------------------------------------------------------------- what is accepted at all

  /** The bank signed the coin, and its interval is the one named by the last callback or the one
      before. */
  predicate Good(crypto: Crypto, ids: seq<nat>, coin: Coin) {
    crypto.signed(coin) && ids != [] && (coin.interval == ids[|ids| - 1] || coin.interval == ids[|ids| - 1] as int - 1)
  }

  /** Event `i` presents the coin at a moment when it is good. */
  ghost predicate PresentedGood(crypto: Crypto, events: seq<Event>, coin: Coin, i: nat) {
    i < |events| && events[i] == Present(coin) && Good(crypto, Ids(events[..i]), coin)
  }

  /** Whatever was accepted was presented while good. */
  ghost predicate OnlyGood(crypto: Crypto, events: seq<Event>, accepted: seq<Coin>) {
    forall c :: c in accepted ==> exists i: nat :: PresentedGood(crypto, events, c, i)
  }

  lemma PresentedStill(crypto: Crypto, events: seq<Event>, e: Event, c: Coin)
    requires exists i: nat :: PresentedGood(crypto, events, c, i)
    ensures exists i: nat :: PresentedGood(crypto, events + [e], c, i)
  {
    var i: nat :| PresentedGood(crypto, events, c, i);
    assert (events + [e])[..i] == events[..i];
    assert PresentedGood(crypto, events + [e], c, i);
  }

  /** An unsigned or stale coin is refused and changes nothing; a good one is never called invalid. */
  lemma {:induction false} RefusedExactly(crypto: Crypto, sets: nat, events: seq<Event>, coin: Coin)
    requires sets > 0 && Ids(events) != []
    ensures var b := Run(crypto, sets, Closed, events);
      && (Reply(crypto, sets, b, coin) == Invalid <==> !Good(crypto, Ids(events), coin))
      && (!Good(crypto, Ids(events), coin) ==> PresentCoin(crypto, sets, b, coin) == b)
  {
    RunInStep(crypto, sets, events);
    hide Run, Ids, Stored;
  }

  /** Before the first callback nothing is accepted either. */
  lemma {:induction false} NothingBeforeOpening(crypto: Crypto, sets: nat, events: seq<Event>, coin: Coin)
    requires sets > 0 && Ids(events) == []
    ensures var b := Run(crypto, sets, Closed, events); PresentCoin(crypto, sets, b, coin) == b
  {
    RunInStep(crypto, sets, events);
    hide Run, Ids;
  }

  /** Over every run, each accepted coin was signed by the bank and was of the current or the
      previous interval when it was presented. */
  lemma {:induction false} OnlyGoodAccepted(crypto: Crypto, sets: nat, events: seq<Event>)
    requires sets > 0
    ensures OnlyGood(crypto, events, Run(crypto, sets, Closed, events).accepted)
  {
    hide Ids, Good, PresentedGood;
    if events != [] {
      var front, e := events[..|events| - 1], events[|events| - 1];
      assert events == front + [e];
      OnlyGoodAccepted(crypto, sets, front);
      var b, r := Run(crypto, sets, Closed, front), Run(crypto, sets, Closed, events);
      forall c | c in r.accepted ensures exists i: nat :: PresentedGood(crypto, events, c, i) {
        if c in b.accepted {
          PresentedStill(crypto, front, e, c);
        } else {
          LastIsGood(crypto, sets, front, e, c);
        }
      }
    }
  }

  lemma {:induction false} LastIsGood(crypto: Crypto, sets: nat, front: seq<Event>, e: Event, c: Coin)
    requires sets > 0 && c !in Run(crypto, sets, Closed, front).accepted
    requires c in Next(crypto, sets, Run(crypto, sets, Closed, front), e).accepted
    ensures PresentedGood(crypto, front + [e], c, |front|)
  {
    hide Run, Ids;
    assert e == Present(c);
    assert (front + [e])[..|front|] == front;
    if Ids(front) == [] { NothingBeforeOpening(crypto, sets, front, c); } else { RefusedExactly(crypto, sets, front, c); }
  }

  /** Every digest in the store belongs to a coin accepted for that interval. */
  ghost predicate Backed(crypto: Crypto, sets: nat, b: Bank)
    requires sets > 0
  {
    forall k, d: Digest :: k in b.acoins && |b.acoins[k]| == sets + 1 && d in b.acoins[k][Shard(sets, d)] ==> HasAccepted(crypto, b, k, d)
  }

  ghost predicate HasAccepted(crypto: Crypto, b: Bank, k: int, d: Digest) {
    exists c :: c in b.accepted && c.interval == k && crypto.md5(c.signature) == d
  }

  lemma PresentBacked(crypto: Crypto, sets: nat, b: Bank, coin: Coin)
    requires sets > 0 && Backed(crypto, sets, b)
    ensures Backed(crypto, sets, PresentCoin(crypto, sets, b, coin))
  {
    hide HasAccepted;
    var r := PresentCoin(crypto, sets, b, coin);
    if r != b {
      var new_ := crypto.md5(coin.signature);
      forall k, d: Digest | k in r.acoins && |r.acoins[k]| == sets + 1 && d in r.acoins[k][Shard(sets, d)]
        ensures HasAccepted(crypto, r, k, d)
      {
        if k == coin.interval && d == new_ { AcceptedLast(crypto, b, coin, r); } else { AcceptedStill(crypto, b, coin, r, k, d); }
      }
    }
  }

  lemma AcceptedLast(crypto: Crypto, b: Bank, coin: Coin, r: Bank)
    requires r.accepted == b.accepted + [coin]
    ensures HasAccepted(crypto, r, coin.interval, crypto.md5(coin.signature))
  {
    assert coin in r.accepted;
  }

  lemma AcceptedStill(crypto: Crypto, b: Bank, coin: Coin, r: Bank, k: int, d: Digest)
    requires r.accepted == b.accepted + [coin] && HasAccepted(crypto, b, k, d)
    ensures HasAccepted(crypto, r, k, d)
  {
    var c :| c in b.accepted && c.interval == k && crypto.md5(c.signature) == d;
    assert c in r.accepted;
  }

  lemma RollBacked(crypto: Crypto, sets: nat, b: Bank, id: nat)
    requires sets > 0 && Backed(crypto, sets, b)
    ensures Backed(crypto, sets, Roll(sets, b, id))
  {
    var r := Roll(sets, b, id);
    forall k, d: Digest | k in r.acoins && |r.acoins[k]| == sets + 1 && d in r.acoins[k][Shard(sets, d)]
      ensures HasAccepted(crypto, r, k, d)
    {
      assert k in b.acoins && r.acoins[k] == b.acoins[k];
      assert HasAccepted(crypto, b, k, d);
    }
  }

  lemma {:induction false} RunBacked(crypto: Crypto, sets: nat, events: seq<Event>)
    requires sets > 0
    ensures Backed(crypto, sets, Run(crypto, sets, Closed, events))
  {
    hide Backed;
    if events == [] {
      ClosedBacked(crypto, sets);
    } else {
      var front := events[..|events| - 1];
      RunBacked(crypto, sets, front);
      match events[|events| - 1]
      case NewInterval(id) => RollBacked(crypto, sets, Run(crypto, sets, Closed, front), id);
      case Present(coin) => PresentBacked(crypto, sets, Run(crypto, sets, Closed, front), coin);
    }
  }

  lemma ClosedBacked(crypto: Crypto, sets: nat)
    requires sets > 0
    ensures Backed(crypto, sets, Closed)
  {
  }

  ghost predicate AcceptedBefore(crypto: Crypto, b: Bank, coin: Coin) {
    exists c :: c in b.accepted && SameCoin(crypto, c, coin)
  }

  /** All answers, over every run whose ids reopen no interval: invalid exactly when not good; of the
      good coins of a stored interval, spent exactly those accepted before. */
  lemma {:induction false} AnswersExactly(crypto: Crypto, sets: nat, events: seq<Event>, coin: Coin)
    requires sets > 0 && !Reopens(Ids(events)) && Ids(events) != []
    ensures var ids, b := Ids(events), Run(crypto, sets, Closed, events);
      Reply(crypto, sets, b, coin) ==
        if !Good(crypto, ids, coin) then Invalid
        else if coin.interval !in Stored(ids) then Crash
        else if AcceptedBefore(crypto, b, coin) then Spent
        else Accepted
  {
    RefusedExactly(crypto, sets, events, coin);
    RunKeeps(crypto, sets, events);
    RunBacked(crypto, sets, events);
    hide Run, Ids, Reopens, Good, Stored;
    var b := Run(crypto, sets, Closed, events);
    if KnowsInterval(sets, b, coin.interval) { SpentExactly(crypto, sets, b, Ids(events), coin); }
  }

  lemma SpentExactly(crypto: Crypto, sets: nat, b: Bank, ids: seq<nat>, coin: Coin)
    requires sets > 0 && Remembers(crypto, sets, b, ids) && Backed(crypto, sets, b) && KnowsInterval(sets, b, coin.interval)
    ensures IsSpent(crypto, sets, b, coin) <==> AcceptedBefore(crypto, b, coin)
  {
    hide Offered, Stored;
    if IsSpent(crypto, sets, b, coin) {
      assert HasAccepted(crypto, b, coin.interval, crypto.md5(coin.signature));
      var c :| c in b.accepted && c.interval == coin.interval && crypto.md5(c.signature) == crypto.md5(coin.signature);
      assert SameCoin(crypto, c, coin);
    }
    if AcceptedBefore(crypto, b, coin) {
      var c :| c in b.accepted && SameCoin(crypto, c, coin);
      assert IsSpent(crypto, sets, b, c);
    }
  }

  // ---------------------------------------------------------------- how a coin is accepted twice

  /** No coin has been accepted and every set is empty. */
  ghost predicate Untouched(sets: nat, b: Bank) {
    b.accepted == [] && forall k :: k in b.acoins ==> b.acoins[k] == EmptyShards(sets)
  }

  function Rolls(ids: seq<nat>): seq<Event> { seq(|ids|, i requires 0 <= i < |ids| => NewInterval(ids[i])) }

  lemma {:induction false} RollsIds(ids: seq<nat>)
    ensures Ids(Rolls(ids)) == ids
  {
    if ids != [] {
      RollsIds(ids[..|ids| - 1]);
      assert Rolls(ids)[..|ids| - 1] == Rolls(ids[..|ids| - 1]);
      assert ids == ids[..|ids| - 1] + [ids[|ids| - 1]];
    }
  }

  lemma {:induction false} RollsAccept(crypto: Crypto, sets: nat, b: Bank, ids: seq<nat>)
    requires sets > 0
    ensures var r := Run(crypto, sets, b, Rolls(ids));
      r.accepted == b.accepted && (Untouched(sets, b) ==> Untouched(sets, r))
  {
    if ids != [] {
      RollsAccept(crypto, sets, b, ids[..|ids| - 1]);
      assert Rolls(ids)[..|ids| - 1] == Rolls(ids[..|ids| - 1]);
    }
  }

  lemma {:induction false} RunOne(crypto: Crypto, sets: nat, b: Bank, e: Event)
    requires sets > 0
    ensures Run(crypto, sets, b, [e]) == Next(crypto, sets, b, e)
  {
    assert [e][..0] == [];
  }

  /** An untouched bank accepts any signed coin of an interval on offer. */
  lemma FirstIsAccepted(crypto: Crypto, sets: nat, b: Bank, ids: seq<nat>, coin: Coin)
    requires sets > 0 && InStep(sets, b, ids) && Untouched(sets, b) && crypto.signed(coin)
    requires ids != [] && OfferedAt(ids, coin.interval, |ids| - 1)
    ensures PresentCoin(crypto, sets, b, coin).accepted == [coin]
  {
    assert ids[..|ids|] == ids;
    assert !IsSpent(crypto, sets, b, coin);
  }

  /** Right after a callback for a positive interval every signed coin of it is accepted, whatever
      was accepted before. */
  lemma ReopenedIsAccepted(crypto: Crypto, sets: nat, b: Bank, coin: Coin)
    requires sets > 0 && b.ready && coin.interval > 0 && crypto.signed(coin)
    ensures PresentCoin(crypto, sets, Roll(sets, b, coin.interval), coin).accepted == b.accepted + [coin]
  {
    var r := Roll(sets, b, coin.interval);
    assert r.acoins[coin.interval] == EmptyShards(sets);
    assert !IsSpent(crypto, sets, r, coin);
  }

  function TwicePresented(ids: seq<nat>, m: nat, j: nat, coin: Coin): seq<Event>
    requires m < j < |ids|
  {
    Rolls(ids[..m + 1]) + ([Present(coin)] + (Rolls(ids[m + 1..j]) + ([NewInterval(ids[j])] + ([Present(coin)] + Rolls(ids[j + 1..])))))
  }

  lemma TwicePresentedIds(ids: seq<nat>, m: nat, j: nat, coin: Coin)
    requires m < j < |ids|
    ensures Ids(TwicePresented(ids, m, j, coin)) == ids
  {
    hide Ids, Rolls;
    RollsIds(ids[..m + 1]);
    RollsIds(ids[m + 1..j]);
    RollsIds(ids[j + 1..]);
    var e1 := [Present(coin)] + Rolls(ids[j + 1..]);
    var e2 := [NewInterval(ids[j])] + e1;
    var e3 := Rolls(ids[m + 1..j]) + e2;
    IdsOne(Present(coin));
    IdsOne(NewInterval(ids[j]));
    IdsAppend([Present(coin)], Rolls(ids[j + 1..]));
    IdsAppend([NewInterval(ids[j])], e1);
    IdsAppend(Rolls(ids[m + 1..j]), e2);
    IdsAppend([Present(coin)], e3);
    IdsAppend(Rolls(ids[..m + 1]), [Present(coin)] + e3);
    assert ids == ids[..m + 1] + (ids[m + 1..j] + ([ids[j]] + ids[j + 1..]));
  }

  lemma IdsOne(e: Event)
    ensures Ids([e]) == if e.NewInterval? then [e.id] else []
  {
    assert [e][..0] == [];
  }

  /** If a callback reopens an interval, there is a run in which a coin of it is accepted twice. */
  lemma {:induction false} TwiceAccepted(crypto: Crypto, sets: nat, ids: seq<nat>, m: nat, j: nat, coin: Coin)
    requires sets > 0 && m < j < |ids| && OfferedAt(ids[..j], ids[j], m)
    requires ids[j] > 0 && crypto.signed(coin) && coin.interval == ids[j]
    ensures Run(crypto, sets, Closed, TwicePresented(ids, m, j, coin)).accepted == [coin, coin]
  {
    hide Run, PresentCoin, Roll, Ids, Rolls, IsSpent;
    var e1 := [Present(coin)] + Rolls(ids[j + 1..]);
    var e2 := [NewInterval(ids[j])] + e1;
    var e3 := Rolls(ids[m + 1..j]) + e2;
    var b1 := Run(crypto, sets, Closed, Rolls(ids[..m + 1]));
    RunAppend(crypto, sets, Closed, Rolls(ids[..m + 1]), [Present(coin)] + e3);
    RollsAccept(crypto, sets, Closed, ids[..m + 1]);
    RollsIds(ids[..m + 1]);
    RunInStep(crypto, sets, Rolls(ids[..m + 1]));
    assert ids[..j][..m + 1] == ids[..m + 1] && ids[..m + 1][..m + 1] == ids[..m + 1];
    FirstIsAccepted(crypto, sets, b1, ids[..m + 1], coin);
    var b2 := PresentCoin(crypto, sets, b1, coin);
    RunOne(crypto, sets, b1, Present(coin));
    RunAppend(crypto, sets, b1, [Present(coin)], e3);
    var b3 := Run(crypto, sets, b2, Rolls(ids[m + 1..j]));
    RunAppend(crypto, sets, b2, Rolls(ids[m + 1..j]), e2);
    RollsAccept(crypto, sets, b2, ids[m + 1..j]);
    StaysReady(crypto, sets, b1, coin, ids[m + 1..j]);
    var b4 := Roll(sets, b3, ids[j]);
    RunOne(crypto, sets, b3, NewInterval(ids[j]));
    RunAppend(crypto, sets, b3, [NewInterval(ids[j])], e1);
    ReopenedIsAccepted(crypto, sets, b3, coin);
    RunOne(crypto, sets, b4, Present(coin));
    RunAppend(crypto, sets, b4, [Present(coin)], Rolls(ids[j + 1..]));
    RollsAccept(crypto, sets, PresentCoin(crypto, sets, b4, coin), ids[j + 1..]);
  }

  lemma {:induction false} StaysReady(crypto: Crypto, sets: nat, b: Bank, coin: Coin, ids: seq<nat>)
    requires sets > 0 && b.ready
    ensures PresentCoin(crypto, sets, b, coin).ready
    ensures Run(crypto, sets, PresentCoin(crypto, sets, b, coin), Rolls(ids)).ready
  {
    if ids != [] {
      StaysReady(crypto, sets, b, coin, ids[..|ids| - 1]);
      assert Rolls(ids)[..|ids| - 1] == Rolls(ids[..|ids| - 1]);
    }
  }

  // ---------------------------------------------------------------- exactly when coins are safe

  /** The bank has signed some coin of every positive interval. */
  ghost predicate Mints(crypto: Crypto) {
    forall k: nat :: k > 0 ==> HasCoin(crypto, k)
  }

  ghost predicate HasCoin(crypto: Crypto, k: nat) { exists c: Coin :: crypto.signed(c) && c.interval == k }

  /** No run with these callbacks, whatever coins are presented in between, accepts a coin twice. */
  ghost predicate Safe(crypto: Crypto, sets: nat, ids: seq<nat>)
    requires sets > 0
  {
    forall events :: Ids(events) == ids ==> NoneTwice(crypto, Run(crypto, sets, Closed, events).accepted)
  }

  /** Every run with these interval callbacks accepts each coin at most once, if and only if no
      callback names a positive interval that was already on offer. The condition is about the ids
      alone. */
  lemma AcceptedOnceExactly(crypto: Crypto, sets: nat, ids: seq<nat>)
    requires sets > 0 && Mints(crypto)
    ensures Safe(crypto, sets, ids) <==> !Reopens(ids)
  {
    hide Run;
    if Reopens(ids) {
      var j: nat :| ReopensAt(ids, j);
      var m: nat :| OfferedAt(ids[..j], ids[j], m);
      assert HasCoin(crypto, ids[j]);
      var coin: Coin :| crypto.signed(coin) && coin.interval == ids[j];
      TwicePresentedIds(ids, m, j, coin);
      TwiceAccepted(crypto, sets, ids, m, j, coin);
      var accepted := Run(crypto, sets, Closed, TwicePresented(ids, m, j, coin)).accepted;
      assert SameCoin(crypto, accepted[0], accepted[1]);
    } else {
      forall events | Ids(events) == ids ensures NoneTwice(crypto, Run(crypto, sets, Closed, events).accepted) {
        RunKeeps(crypto, sets, events);
      }
    }
  }

  /** A bank opened in a positive interval: exactly the repeated positive ids, and the interval
      before the first, reopen. */
  lemma ReopensExactly(ids: seq<nat>)
    requires ids != [] && ids[0] > 0
    ensures Reopens(ids) <==> exists j :: 0 < j < |ids| && ids[j] > 0 && (ids[j] in ids[..j] || ids[j] == ids[0] - 1)
  {
    forall j | 0 < j < |ids| && ids[j] > 0
      ensures ReopensAt(ids, j) <==> ids[j] in ids[..j] || ids[j] == ids[0] - 1
    {
      OfferedExactly(ids[..j], ids[j]);
    }
  }

  lemma OfferedExactly(ids: seq<nat>, k: nat)
    requires ids != [] && ids[0] > 0 && k > 0
    ensures Offered(ids, k) <==> k in ids || k == ids[0] - 1
  {
    if Offered(ids, k) {
      var m: nat :| OfferedAt(ids, k, m);
      StoredWas(ids[..m + 1]);
    }
    if k in ids {
      var i :| 0 <= i < |ids| && ids[i] == k;
      assert ids[..i + 1][..i] == ids[..i];
      assert OfferedAt(ids, k, i);
    }
    if k == ids[0] - 1 {
      assert ids[..1] == [ids[0]];
      assert OfferedAt(ids, k, 0);
    }
  }

  lemma {:induction false} StoredWas(ids: seq<nat>)
    requires ids != []
    ensures forall k :: k in Stored(ids) ==> k == Previous(ids[0]) || exists i :: 0 <= i < |ids| && ids[i] == k
  {
    if |ids| > 1 {
      StoredWas(ids[..|ids| - 1]);
      forall k | k in Stored(ids) && k != Previous(ids[0]) ensures exists i :: 0 <= i < |ids| && ids[i] == k {
        if k == ids[|ids| - 1] {
          assert ids[|ids| - 1] == k;
        } else {
          assert k in Stored(ids[..|ids| - 1]);
        }
      }
    }
  }

  lemma ReopensNext(ids: seq<nat>, id: nat)
    ensures Reopens(ids + [id]) <==> Reopens(ids) || (ids != [] && id > 0 && Offered(ids, id))
  {
    var more := ids + [id];
    assert more[..|ids|] == ids && more[|ids|] == id;
    assert ReopensAt(more, |ids|) <==> ids != [] && id > 0 && Offered(ids, id);
    forall j: nat | j < |ids| ensures ReopensAt(more, j) <==> ReopensAt(ids, j) {
      assert more[..j] == ids[..j];
    }
  }

  /** One more callback on top of safe ones: the ids seen so far decide. */
  lemma SafeRollExactly(crypto: Crypto, sets: nat, ids: seq<nat>, id: nat)
    requires sets > 0 && Mints(crypto) && ids != [] && Safe(crypto, sets, ids)
    ensures Safe(crypto, sets, ids + [id]) <==> id == 0 || !Offered(ids, id)
  {
    hide Safe, Reopens;
    AcceptedOnceExactly(crypto, sets, ids);
    AcceptedOnceExactly(crypto, sets, ids + [id]);
    ReopensNext(ids, id);
  }

  ghost predicate Increasing(ids: seq<nat>) { forall i, j :: 0 <= i < j < |ids| ==> ids[i] < ids[j] }

  /** In particular, over any run of deposits, payments and rollovers whose interval ids only go up,
      no coin is accepted twice. */
  lemma {:induction false} AcceptedAtMostOnce(crypto: Crypto, sets: nat, events: seq<Event>)
    requires sets > 0 && Increasing(Ids(events))
    ensures NoneTwice(crypto, Run(crypto, sets, Closed, events).accepted)
  {
    IncreasingIsSafe(Ids(events));
    RunKeeps(crypto, sets, events);
  }

  lemma IncreasingIsSafe(ids: seq<nat>)
    requires Increasing(ids)
    ensures !Reopens(ids)
  {
  }

  /** A repeated interval callback lets the same coin be accepted a second time. */
  lemma {:induction false} RepeatedCallbackReopens(crypto: Crypto, coin: Coin)
    requires crypto.signed(coin) && coin.interval == 5
    ensures Run(crypto, 8, Closed, [NewInterval(5), Present(coin), NewInterval(5), Present(coin)]).accepted == [coin, coin]
  {
    var ids := [5, 5];
    assert ids[..1][..1] == [5] && ids[1..1] == [] && ids[..1] == [5] && ids[2..] == [];
    assert OfferedAt(ids[..1], 5, 0);
    TwiceAccepted(crypto, 8, ids, 0, 1, coin);
    assert TwicePresented(ids, 0, 1, coin) == [NewInterval(5), Present(coin), NewInterval(5), Present(coin)];
  }

  // ---------------------------------------------------------------- the two live intervals

  /** Every interval id is exactly one above the last. */
  ghost predicate Consecutive(ids: seq<nat>) { forall i :: 0 < i < |ids| ==> ids[i] == ids[i - 1] + 1 }

  lemma {:induction false} ConsecutiveStored(ids: seq<nat>)
    requires Consecutive(ids) && ids != [] && ids[0] > 0
    ensures var last := ids[|ids| - 1]; last > 0 && Stored(ids) == {last - 1, last as int}
  {
    if |ids| > 1 { ConsecutiveStored(ids[..|ids| - 1]); }
  }

  /** With consecutive ids from a positive one on, the store always holds exactly the previous and
      the current interval, so no valid coin ever meets a missing one. */
  lemma {:induction false} StoreCoversValidCoins(crypto: Crypto, sets: nat, events: seq<Event>, coin: Coin)
    requires sets > 0 && Consecutive(Ids(events)) && Ids(events) != [] && Ids(events)[0] > 0
    ensures var b := Run(crypto, sets, Closed, events);
      && b.acoins.Keys == {Previous(b.current), b.current}
      && !RollRaises(b, b.current + 1)
      && Reply(crypto, sets, b, coin) != Crash
  {
    RunInStep(crypto, sets, events);
    ConsecutiveStored(Ids(events));
    hide Run, IsSpent;
  }

  /** Some callback of the run raised. */
  ghost predicate SomeRollRaises(crypto: Crypto, sets: nat, events: seq<Event>)
    requires sets > 0
  {
    exists i :: 0 <= i < |events| && RaisesAt(crypto, sets, events, i)
  }

  ghost predicate RaisesAt(crypto: Crypto, sets: nat, events: seq<Event>, i: nat)
    requires sets > 0 && i < |events|
  {
    events[i].NewInterval? && RollRaises(Run(crypto, sets, Closed, events[..i]), events[i].id)
  }

  /** A callback after the opening raises exactly when the interval two before a positive id is not
      in the store. */
  lemma RaisesExactly(crypto: Crypto, sets: nat, events: seq<Event>, i: nat)
    requires sets > 0 && i < |events| && events[i].NewInterval?
    ensures var ids := Ids(events[..i]);
      RaisesAt(crypto, sets, events, i) <==> ids != [] && events[i].id > 0 && events[i].id - 2 !in Stored(ids)
  {
    RunInStep(crypto, sets, events[..i]);
  }

  /** With consecutive ids and any coins in between, a bank that rolls over at all meets a raising
      callback if and only if it was opened in interval 0. */
  lemma {:induction false} RolloverRaisesExactly(crypto: Crypto, sets: nat, events: seq<Event>)
    requires sets > 0 && Consecutive(Ids(events)) && |Ids(events)| > 1
    ensures SomeRollRaises(crypto, sets, events) <==> Ids(events)[0] == 0
  {
    hide Run, RaisesAt;
    var ids := Ids(events);
    if ids[0] == 0 {
      var i := IdArrives(events, 1);
      RaisesExactly(crypto, sets, events, i);
      assert ids[..1] == [0] && Stored([0]) == {1, 0};
      assert RaisesAt(crypto, sets, events, i);
    } else {
      forall i | 0 <= i < |events| ensures !RaisesAt(crypto, sets, events, i) {
        if events[i].NewInterval? {
          RaisesExactly(crypto, sets, events, i);
          IdsBefore(events, i);
          var before := Ids(events[..i]);
          if before != [] {
            assert before == ids[..|before|] && events[i].id == ids[|before|];
            ConsecutiveStored(before);
          }
        } else {
          NoRaise(crypto, sets, events, i);
        }
      }
    }
  }

  lemma NoRaise(crypto: Crypto, sets: nat, events: seq<Event>, i: nat)
    requires sets > 0 && i < |events| && !events[i].NewInterval?
    ensures !RaisesAt(crypto, sets, events, i)
  {
  }

  /** The ids before a callback, and its own, are the first ones of the run. */
  lemma {:induction false} IdsBefore(events: seq<Event>, i: nat)
    requires i < |events| && events[i].NewInterval?
    ensures Ids(events[..i]) + [events[i].id] <= Ids(events)
  {
    hide Ids;
    IdsOne(events[i]);
    IdsAppend(events[..i], [events[i]]);
    IdsAppend(events[..i] + [events[i]], events[i + 1..]);
    assert events == events[..i] + [events[i]] + events[i + 1..];
  }

  // ---------------------------------------------------------------- shards and a plain set

  /** The same store with one set per interval. */
  datatype Plain = Plain(spent: map<int, set<Digest>>, current: int, ready: bool)

  function PlainReply(crypto: Crypto, p: Plain, coin: Coin): Answer {
    if !IsValid(crypto, p.current, coin) then Invalid
    else if coin.interval !in p.spent then Crash
    else if crypto.md5(coin.signature) in p.spent[coin.interval] then Spent
    else Accepted
  }

  function PlainNext(crypto: Crypto, p: Plain, e: Event): Plain {
    match e
    case NewInterval(id) =>
      if p.ready then p.(spent := p.spent[id := {}] - {Previous(id) - 1}, current := id)
      else Plain(map[Previous(id) := {}, id as int := {}], id, true)
    case Present(coin) =>
      if PlainReply(crypto, p, coin) == Accepted
      then p.(spent := p.spent[coin.interval := p.spent[coin.interval] + {crypto.md5(coin.signature)}])
      else p
  }

  /** Each interval's plain set is the union of its shards, and each digest sits in its shard. */
  ghost predicate Represents(sets: nat, b: Bank, p: Plain)
    requires sets > 0
  {
    && b.current == p.current && b.ready == p.ready && b.acoins.Keys == p.spent.Keys
    && (forall k :: k in b.acoins ==>
          && |b.acoins[k]| == sets + 1
          && forall d: Digest :: d in p.spent[k] <==> d in b.acoins[k][Shard(sets, d)])
  }

  /** The sharded store answers every event as the plain one does and stays in step with it. */
  lemma ShardsRefinePlainSet(crypto: Crypto, sets: nat, b: Bank, p: Plain, e: Event)
    requires sets > 0 && Represents(sets, b, p)
    ensures Represents(sets, Next(crypto, sets, b, e), PlainNext(crypto, p, e))
    ensures e.Present? ==> Reply(crypto, sets, b, e.coin) == PlainReply(crypto, p, e.coin)
  {
    var r, q := Next(crypto, sets, b, e), PlainNext(crypto, p, e);
    if e.Present? && r != b {
      var d := crypto.md5(e.coin.signature);
      forall k, d': Digest | k in r.acoins
        ensures d' in q.spent[k] <==> d' in r.acoins[k][Shard(sets, d')]
      {
        if k == e.coin.interval && Shard(sets, d') != Shard(sets, d) { assert d' != d; }
      }
    }
  }

  function PlainRun(crypto: Crypto, p: Plain, events: seq<Event>): Plain {
    if events == [] then p else PlainNext(crypto, PlainRun(crypto, p, events[..|events| - 1]), events[|events| - 1])
  }

  lemma {:induction false} ShardsRefinePlainRun(crypto: Crypto, sets: nat, events: seq<Event>)
    requires sets > 0
    ensures Represents(sets, Run(crypto, sets, Closed, events), PlainRun(crypto, Plain(map[], 0, false), events))
  {
    if events != [] {
      var front := events[..|events| - 1];
      ShardsRefinePlainRun(crypto, sets, front);
      ShardsRefinePlainSet(crypto, sets, Run(crypto, sets, Closed, front),
                           PlainRun(crypto, Plain(map[], 0, false), front), events[|events| - 1]);
    }
  }

  // ---------------------------------------------------------------- messages full of coins

  const RECEIPT := 32
  const KEY := 96

  function BigEndian(b: Bytes): nat {
    if b == [] then 0 else 256 * BigEndian(b[..|b| - 1]) + b[|b| - 1] as int
  }

  /** `read_binary`: receipt, four bytes of interval, signature; too short a blob raises. */
  function ReadCoin(blob: Bytes): Option<(Coin, Bytes)> {
    if |blob| < RECEIPT + 4 + KEY then None
    else
      var coin := Coin(blob[..RECEIPT], BigEndian(blob[RECEIPT..RECEIPT + 4]), blob[RECEIPT + 4..RECEIPT + 4 + KEY]);
      Some((coin, blob[RECEIPT + 4 + KEY..]))
  }

  /** A handler's loop in progress: the bank, what is left to read, the answers and reply so far,
      the coins presented, and whether an exception has ended it. */
  datatype Work = Work(bank: Bank, blob: Bytes, answers: seq<Answer>, reply: Bytes, coins: seq<Coin>, raised: bool)

  function Code(a: Answer): Byte {
    match a case Accepted => 48 case Invalid => 49 case Spent => 50 case Crash => 63
  }

  /** `msg[:n]` and `msg[n:]`, which never raise. */
  function Head(b: Bytes, n: nat): Bytes { if |b| <= n then b else b[..n] }
  function Tail(b: Bytes, n: nat): Bytes { if |b| <= n then [] else b[n..] }

  /** One turn of the loop in `Payment.on_message` (`paying`, each coin followed by a token to
      sign) or `Deposit.unpack_and_verify`. */
  function OneCoin(crypto: Crypto, sets: nat, paying: bool, w: Work): Work
    requires sets > 0
  {
    if w.raised then w
    else
      match ReadCoin(w.blob)
      case None => w.(raised := true)
      case Some((coin, rest)) =>
        var a := Reply(crypto, sets, w.bank, coin);
        if a == Crash then w.(raised := true)
        else
          var signed := if paying && a == Accepted then crypto.sign(Head(rest, KEY)) else [];
          w.(bank := PresentCoin(crypto, sets, w.bank, coin),
             blob := if paying then Tail(rest, KEY) else rest,
             answers := w.answers + [a], reply := w.reply + [Code(a)] + signed, coins := w.coins + [coin])
  }

  function Coins(crypto: Crypto, sets: nat, paying: bool, w: Work, n: nat): Work
    requires sets > 0
  {
    if n == 0 then w else OneCoin(crypto, sets, paying, Coins(crypto, sets, paying, w, n - 1))
  }

  lemma {:induction false} RaisedStays(crypto: Crypto, sets: nat, paying: bool, w: Work, i: nat, n: nat)
    requires sets > 0 && i <= n
    ensures Coins(crypto, sets, paying, w, i).raised ==>
      Coins(crypto, sets, paying, w, n) == Coins(crypto, sets, paying, w, i)
  {
    if i < n { RaisedStays(crypto, sets, paying, w, i, n - 1); }
  }

  function CountAccepted(answers: seq<Answer>): nat {
    if answers == [] then 0
    else CountAccepted(answers[..|answers| - 1]) + if answers[|answers| - 1] == Accepted then 1 else 0
  }

  function Presents(coins: seq<Coin>): seq<Event> { seq(|coins|, i requires 0 <= i < |coins| => Present(coins[i])) }

  lemma {:induction false} PresentsNoIds(coins: seq<Coin>)
    ensures Ids(Presents(coins)) == []
  {
    if coins != [] {
      PresentsNoIds(coins[..|coins| - 1]);
      assert Presents(coins)[..|coins| - 1] == Presents(coins[..|coins| - 1]);
    }
  }

  /** The work so far is a run of presented coins, one answer each, and the answers count what was
      newly accepted. */
  ghost predicate IsRun(crypto: Crypto, sets: nat, b: Bank, w: Work, n: nat)
    requires sets > 0
  {
    && w.bank == Run(crypto, sets, b, Presents(w.coins))
    && |w.bank.accepted| == |b.accepted| + CountAccepted(w.answers)
    && |w.answers| == |w.coins| <= n && (!w.raised ==> |w.answers| == n)
  }

  lemma PresentCounts(crypto: Crypto, sets: nat, b: Bank, coin: Coin)
    requires sets > 0
    ensures |PresentCoin(crypto, sets, b, coin).accepted| == |b.accepted| + if Reply(crypto, sets, b, coin) == Accepted then 1 else 0
  {
  }

  lemma {:induction false} RunPresent(crypto: Crypto, sets: nat, b: Bank, coins: seq<Coin>, coin: Coin)
    requires sets > 0
    ensures Run(crypto, sets, b, Presents(coins + [coin])) == PresentCoin(crypto, sets, Run(crypto, sets, b, Presents(coins)), coin)
  {
    var all := Presents(coins + [coin]);
    assert all[..|coins|] == Presents(coins) && all[|coins|] == Present(coin);
  }

  lemma NoneAccepted()
    ensures CountAccepted([]) == 0
  {
  }

  lemma {:induction false} CountMore(answers: seq<Answer>, a: Answer)
    ensures CountAccepted(answers + [a]) == CountAccepted(answers) + if a == Accepted then 1 else 0
  {
    assert (answers + [a])[..|answers|] == answers;
  }

  lemma NothingIsRun(crypto: Crypto, sets: nat, b: Bank, blob: Bytes)
    requires sets > 0
    ensures IsRun(crypto, sets, b, Work(b, blob, [], [], [], false), 0)
  {
  }

  lemma OneCoinIsRun(crypto: Crypto, sets: nat, paying: bool, b: Bank, w: Work, n: nat)
    requires sets > 0 && IsRun(crypto, sets, b, w, n)
    ensures IsRun(crypto, sets, b, OneCoin(crypto, sets, paying, w), n + 1)
  {
    hide Run, Presents, CountAccepted, Reply, PresentCoin;
    if !w.raised && ReadCoin(w.blob).Some? {
      var coin := ReadCoin(w.blob).value.0;
      PresentCounts(crypto, sets, w.bank, coin);
      RunPresent(crypto, sets, b, w.coins, coin);
      CountMore(w.answers, Reply(crypto, sets, w.bank, coin));
    }
  }

  /** A message is a run of presented coins, one answer each. What was newly accepted is counted
      by the answers whether or not the message was read to its end. */
  lemma {:induction false} MessageIsRun(crypto: Crypto, sets: nat, paying: bool, b: Bank, blob: Bytes, n: nat)
    requires sets > 0
    ensures var w := Coins(crypto, sets, paying, Work(b, blob, [], [], [], false), n);
      && w.bank == Run(crypto, sets, b, Presents(w.coins))
      && |w.bank.accepted| == |b.accepted| + CountAccepted(w.answers)
      && |w.answers| == |w.coins| <= n && (!w.raised ==> |w.answers| == n)
  {
    hide Run, Presents, CountAccepted, OneCoin;
    if n == 0 {
      NothingIsRun(crypto, sets, b, blob);
    } else {
      MessageIsRun(crypto, sets, paying, b, blob, n - 1);
      OneCoinIsRun(crypto, sets, paying, b, Coins(crypto, sets, paying, Work(b, blob, [], [], [], false), n - 1), n - 1);
    }
  }

  /** `Deposit.unpack_and_verify`: the credit, or `None` when the message raises. */
  function Credit(w: Work): Option<nat> {
    if w.raised then None else Some(CountAccepted(w.answers))
  }

  function ReadShort(msg: Bytes): Option<(nat, Bytes)> {
    if |msg| < 2 then None else Some((BigEndian(msg[..2]), msg[2..]))
  }

  function DepositWork(crypto: Crypto, sets: nat, b: Bank, msg: Bytes): Work
    requires sets > 0
  {
    match ReadShort(msg)
    case None => Work(b, msg, [], [], [], true)
    case Some((n, blob)) => Coins(crypto, sets, false, Work(b, blob, [], [], [], false), n)
  }

  function PaymentWork(crypto: Crypto, sets: nat, b: Bank, msg: Bytes): Work
    requires sets > 0
  {
    if msg == [] then Work(b, msg, [], [], [], true)
    else Coins(crypto, sets, true, Work(b, msg[1..], [], [], [], false), msg[0] as int)
  }

  /** Value is conserved by a deposit: the credit is the number of coins newly marked spent. Only
      a deposit that raises part way marks coins spent without crediting them. */
  lemma DepositConserves(crypto: Crypto, sets: nat, b: Bank, msg: Bytes)
    requires sets > 0
    ensures var w := DepositWork(crypto, sets, b, msg);
      && (Credit(w).Some? ==> Credit(w).value == |w.bank.accepted| - |b.accepted|)
      && (Credit(w).None? ==> w.raised && |w.bank.accepted| - |b.accepted| == CountAccepted(w.answers))
  {
    if |msg| >= 2 {
      MessageIsRun(crypto, sets, false, b, msg[2..], BigEndian(msg[..2]));
    }
  }
}

/** The bank process: the handlers' loops over the message blob and the interval callback. */
module BankServer {
  import opened Text
  import opened BankSpec

  class Server {
    const crypto: Crypto
    const sets: nat
    var acoins: map<int, seq<set<Digest>>>
    var current: nat
    var ready: bool
    ghost var accepted: seq<Coin>

    ghost function View(): Bank
      reads this
    {
      Bank(acoins, current, ready, accepted)
    }

    constructor (crypto: Crypto, sets: nat)
      requires sets > 0
      ensures View() == Closed && this.crypto == crypto && this.sets == sets
    {
      this.crypto, this.sets := crypto, sets;
      acoins, current, ready, accepted := map[], 0, false, [];
    }

    /** The list of empty sets built for one interval. */
    method MakeShards() returns (shards: seq<set<Digest>>)
      ensures shards == EmptyShards(sets)
    {
      shards := [];
      for i := 0 to sets + 1
        invariant shards == seq(i, _ => {})
      {
        shards := shards + [{}];
      }
    }

    /** `learned_current_acoin_interval` and `on_new_interval`; `ok` is false when the `del` raises. */
    method OnNewInterval(id: nat) returns (ok: bool)
      modifies this
      ensures View() == Roll(sets, old(View()), id)
      ensures ok <==> !RollRaises(old(View()), id)
    {
      current := id;
      var previous := Previous(id);
      var shards := MakeShards();
      if ready {
        acoins := acoins[id := shards];
        ok := previous - 1 in acoins;
        acoins := acoins - {previous - 1};
      } else {
        acoins := map[previous := shards, id as int := shards];
        ready := true;
        ok := true;
      }
    }

    /** `deposit_acoin` on a coin already read. */
    method DepositCoin(coin: Coin) returns (a: Answer)
      requires sets > 0
      modifies this`acoins, this`accepted
      ensures a == Reply(crypto, sets, old(View()), coin)
      ensures View() == PresentCoin(crypto, sets, old(View()), coin)
    {
      if !IsValid(crypto, current, coin) {
        return Invalid;
      }
      var store := crypto.md5(coin.signature);
      var i := Shard(sets, store);
      if coin.interval !in acoins || |acoins[coin.interval]| != sets + 1 {
        return Crash;
      }
      var shards := acoins[coin.interval];
      if store in shards[i] {
        return Spent;
      }
      acoins := acoins[coin.interval := shards[i := shards[i] + {store}]];
      accepted := accepted + [coin];
      return Accepted;
    }

    /** `Deposit.unpack_and_verify`. */
    method Deposit(msg: Bytes) returns (total: Option<nat>)
      requires sets > 0
      modifies this`acoins, this`accepted
      ensures View() == DepositWork(crypto, sets, old(View()), msg).bank
      ensures total == Credit(DepositWork(crypto, sets, old(View()), msg))
      ensures total.Some? ==> |accepted| == |old(accepted)| + total.value
    {
      DepositConserves(crypto, sets, View(), msg);
      hide Coins, CountAccepted, BigEndian;
      if |msg| < 2 {
        return None;
      }
      total := DepositCoins(BigEndian(msg[..2]), msg[2..]);
    }

    /** The loop over the coins of a deposit. */
    method DepositCoins(number: nat, blob0: Bytes) returns (total: Option<nat>)
      requires sets > 0
      modifies this`acoins, this`accepted
      ensures var w := Coins(crypto, sets, false, Work(old(View()), blob0, [], [], [], false), number);
        View() == w.bank && total == Credit(w)
    {
      hide Reply, Spend, ReadCoin, CountAccepted, Coins;
      var blob, sum := blob0, 0;
      ghost var w := Work(View(), blob, [], [], [], false);
      ghost var start := w;
      NoneAccepted();
      NoTurns(crypto, sets, false, start);
      for i := 0 to number
        invariant w == Coins(crypto, sets, false, start, i) && !w.raised
        invariant w.bank == View() && w.blob == blob && sum == CountAccepted(w.answers)
      {
        NextTurn(crypto, sets, false, start, i, number);
        var read := ReadCoin(blob);
        if read == None {
          return None;
        }
        var (coin, rest) := read.value;
        var a := DepositCoin(coin);
        if a == Crash {
          return None;
        }
        CountMore(w.answers, a);
        w := OneCoin(crypto, sets, false, w);
        blob := rest;
        sum := sum + if a == Accepted then 1 else 0;
      }
      return Some(sum);
    }

    /** `Payment.on_message`: the reply, or `None` when it raises. */
    method Payment(msg: Bytes) returns (reply: Option<Bytes>)
      requires sets > 0
      modifies this`acoins, this`accepted
      ensures var w := PaymentWork(crypto, sets, old(View()), msg);
        View() == w.bank && reply == if w.raised then None else Some(w.reply)
    {
      hide Reply, Spend, ReadCoin, Coins;
      if msg == [] {
        return None;
      }
      var number, blob, r := msg[0] as int, msg[1..], [];
      ghost var w := Work(View(), blob, [], [], [], false);
      ghost var start := w;
      NoTurns(crypto, sets, true, start);
      for i := 0 to number
        invariant w == Coins(crypto, sets, true, start, i) && !w.raised
        invariant w.bank == View() && w.blob == blob && w.reply == r
      {
        NextTurn(crypto, sets, true, start, i, number);
        var read := ReadCoin(blob);
        if read == None {
          return None;
        }
        var (coin, rest) := read.value;
        var a := DepositCoin(coin);
        if a == Crash {
          return None;
        }
        w := OneCoin(crypto, sets, true, w);
        r := r + [Code(a)];
        var token := Head(rest, KEY);
        blob := Tail(rest, KEY);
        if a == Accepted {
          r := r + crypto.sign(token);
        }
      }
      return Some(r);
    }
  }

  /** The next turn of a message's loop is one more coin, and if it raises it is the last. */
  lemma NextTurn(crypto: Crypto, sets: nat, paying: bool, w: Work, i: nat, n: nat)
    requires sets > 0 && i < n
    ensures Coins(crypto, sets, paying, w, i + 1) == OneCoin(crypto, sets, paying, Coins(crypto, sets, paying, w, i))
    ensures Coins(crypto, sets, paying, w, i + 1).raised ==>
      Coins(crypto, sets, paying, w, n) == Coins(crypto, sets, paying, w, i + 1)
  {
    RaisedStays(crypto, sets, paying, w, i + 1, n);
  }

  lemma {:induction false} NoTurns(crypto: Crypto, sets: nat, paying: bool, w: Work)
    requires sets > 0
    ensures Coins(crypto, sets, paying, w, 0) == w
  {
  }
}
