/** The UDP server's bounded cache of replies (BankServer.py), which answers a repeated payment
    datagram without touching the coins again. */
module ReplyCache {
  import opened Text
  import opened BankSpec
  import opened BankMessages

  const MAX_SIZE := 500

  datatype Response = Failure | Answer(reply: Bytes)

  /** `cache` with its keys in order of arrival in `queue`. */
  datatype Cache = Cache(cache: map<Bytes, Bytes>, queue: seq<Bytes>)

  datatype Udp = Udp(bank: Bank, replies: Cache)

  /** Eviction of the oldest requests until at most `MAX_SIZE` are left. */
  function Evict(c: Cache): Cache
    decreases |c.queue|
  {
    if |c.queue| > MAX_SIZE then Evict(Cache(c.cache - {c.queue[0]}, c.queue[1..])) else c
  }

  function Store(c: Cache, request: Bytes, response: Bytes): Cache {
    if request in c.cache then c
    else Evict(Cache(c.cache[request := response], c.queue + [request]))
  }

  /** Opaque decryption of a datagram; `None` is an exception. */
  type Decrypt = Bytes -> Option<Bytes>

  /** `datagramReceived`: the new state and what is written back. */
  function Handle(crypto: Crypto, sets: nat, decrypt: Decrypt, s: Udp, datagram: Bytes): (Udp, Response)
    requires sets > 0
  {
    if datagram == [] || datagram[0] != 1 then (s, Failure)
    else
      var msg := datagram[1..];
      if msg in s.replies.cache then (s, Answer(s.replies.cache[msg]))
      else
        match decrypt(msg)
        case None => (s, Failure)
        case Some(plain) =>
          if plain == [] || plain[0] != 3 then (s, Failure)
          else
            var w := PaymentWork(crypto, sets, s.bank, plain[1..]);
            if w.raised then (s.(bank := w.bank), Failure)
            else (Udp(w.bank, Store(s.replies, msg, w.reply)), Answer(w.reply))
  }

  /** What reaches the bank: payment datagrams, deposits over TCP and interval callbacks. */
  datatype Arrival = Datagram(data: Bytes) | Deposit(msg: Bytes) | Rollover(id: nat)

  function Step(crypto: Crypto, sets: nat, decrypt: Decrypt, s: Udp, a: Arrival): Udp
    requires sets > 0
  {
    match a
    case Datagram(data) => Handle(crypto, sets, decrypt, s, data).0
    case Deposit(msg) => s.(bank := DepositWork(crypto, sets, s.bank, msg).bank)
    case Rollover(id) => s.(bank := Roll(sets, s.bank, id))
  }

  function Serve(crypto: Crypto, sets: nat, decrypt: Decrypt, s: Udp, traffic: seq<Arrival>): Udp
    requires sets > 0
  {
    if traffic == [] then s
    else Step(crypto, sets, decrypt, Serve(crypto, sets, decrypt, s, traffic[..|traffic| - 1]), traffic[|traffic| - 1])
  }

  /** How many of the arrivals put a new request into the cache. */
  function NewlyCached(crypto: Crypto, sets: nat, decrypt: Decrypt, s: Udp, traffic: seq<Arrival>): nat
    requires sets > 0
  {
    if traffic == [] then 0
    else
      var front := traffic[..|traffic| - 1];
      var before := Serve(crypto, sets, decrypt, s, front);
      NewlyCached(crypto, sets, decrypt, s, front)
      + if Step(crypto, sets, decrypt, before, traffic[|traffic| - 1]).replies == before.replies then 0 else 1
  }

  // ---------------------------------------------------------------- the listing

  /** `queue` lists the keys of `cache` without repetition, and there are at most 500. */
  ghost predicate Valid(c: Cache) {
    && Distinct(c.queue)
    && (forall r :: r in c.queue <==> r in c.cache)
    && |c.queue| <= MAX_SIZE
  }

  lemma StoreNew(c: Cache, request: Bytes, response: Bytes)
    requires Valid(c) && request !in c.cache
    ensures var more := c.queue + [request];
      Store(c, request, response) ==
        if |c.queue| < MAX_SIZE then Cache(c.cache[request := response], more)
        else Cache(c.cache[request := response] - {c.queue[0]}, more[1..])
  {
    var more := Cache(c.cache[request := response], c.queue + [request]);
    if |c.queue| == MAX_SIZE {
      assert Evict(more) == Evict(Cache(more.cache - {more.queue[0]}, more.queue[1..]));
    }
  }

  lemma StoreValid(c: Cache, request: Bytes, response: Bytes)
    requires Valid(c)
    ensures Valid(Store(c, request, response))
    ensures request !in c.cache ==> Store(c, request, response) != c
  {
    if request !in c.cache {
      StoreNew(c, request, response);
      var more := c.queue + [request];
      assert forall r :: r in more <==> r in c.queue || r == request;
      assert Distinct(more);
      if |c.queue| == MAX_SIZE { ElementsTail(more); assert forall r :: r in more[1..] <==> r in Elements(more[1..]); }
      assert more[|more| - 1] == request;
    }
  }

  // ---------------------------------------------------------------- how long a reply survives

  /** `m` is cached with reply `r`, and `age` requests arrived after it. */
  ghost predicate Aged(c: Cache, m: Bytes, r: Bytes, age: nat) {
    age < |c.queue| && c.queue[|c.queue| - 1 - age] == m && m in c.cache && c.cache[m] == r
  }

  lemma StoreAges(c: Cache, request: Bytes, response: Bytes, m: Bytes, r: Bytes, age: nat)
    requires Valid(c) && Aged(c, m, r, age) && request !in c.cache
    ensures age + 1 < MAX_SIZE ==> Aged(Store(c, request, response), m, r, age + 1)
    ensures age + 1 >= MAX_SIZE ==> m !in Store(c, request, response).cache
  {
    StoreNew(c, request, response);
    assert m in c.queue;
    if |c.queue| == MAX_SIZE && age + 1 < MAX_SIZE {
      assert c.queue[0] != m;
    }
  }

  lemma StoreFirst(c: Cache, request: Bytes, response: Bytes)
    requires Valid(c) && request !in c.cache
    ensures Aged(Store(c, request, response), request, response, 0)
  {
    StoreNew(c, request, response);
    assert request !in c.queue;
  }

  /** One arrival leaves the cache alone or adds exactly its own request, which was not there. */
  lemma StepCache(crypto: Crypto, sets: nat, decrypt: Decrypt, s: Udp, a: Arrival) returns (response: Bytes)
    requires sets > 0 && Valid(s.replies)
    ensures var r := Step(crypto, sets, decrypt, s, a).replies;
      && Valid(r)
      && (r != s.replies ==> a.Datagram? && a.data != [] && a.data[1..] !in s.replies.cache
                             && r == Store(s.replies, a.data[1..], response))
  {
    response := [];
    var r := Step(crypto, sets, decrypt, s, a).replies;
    if r != s.replies {
      response := PaymentWork(crypto, sets, s.bank, decrypt(a.data[1..]).value[1..]).reply;
      StoreValid(s.replies, a.data[1..], response);
    }
  }

  lemma {:induction false} ServeValid(crypto: Crypto, sets: nat, decrypt: Decrypt, s: Udp, traffic: seq<Arrival>)
    requires sets > 0 && Valid(s.replies)
    ensures Valid(Serve(crypto, sets, decrypt, s, traffic).replies)
  {
    if traffic != [] {
      var front := traffic[..|traffic| - 1];
      ServeValid(crypto, sets, decrypt, s, front);
      var _ := StepCache(crypto, sets, decrypt, Serve(crypto, sets, decrypt, s, front), traffic[|traffic| - 1]);
    }
  }

  /** No arrival is another copy of the datagram with request `m`. */
  ghost predicate NoCopy(traffic: seq<Arrival>, m: Bytes) {
    forall i :: 0 <= i < |traffic| && traffic[i].Datagram? && traffic[i].data != [] ==> traffic[i].data[1..] != m
  }

  /** Through any traffic, the age of a cached request grows by one with each newly cached one. The
      500th throws it out, and it stays out while its datagram is not sent again. */
  lemma {:induction false} AgesWithNewRequests(crypto: Crypto, sets: nat, decrypt: Decrypt, s: Udp,
                                               traffic: seq<Arrival>, m: Bytes, r: Bytes)
    requires sets > 0 && Valid(s.replies) && Aged(s.replies, m, r, 0)
    ensures var c, n := Serve(crypto, sets, decrypt, s, traffic).replies, NewlyCached(crypto, sets, decrypt, s, traffic);
      && (n < MAX_SIZE ==> Aged(c, m, r, n))
      && (n == MAX_SIZE && NewlyCached(crypto, sets, decrypt, s, traffic[..|traffic| - 1]) < n ==> m !in c.cache)
      && (n >= MAX_SIZE && NoCopy(traffic, m) ==> m !in c.cache)
  {
    if traffic != [] {
      hide Step, Valid, Store;
      var front, last := traffic[..|traffic| - 1], traffic[|traffic| - 1];
      AgesWithNewRequests(crypto, sets, decrypt, s, front, m, r);
      ServeValid(crypto, sets, decrypt, s, front);
      var before := Serve(crypto, sets, decrypt, s, front);
      var response := StepCache(crypto, sets, decrypt, before, last);
      var after := Step(crypto, sets, decrypt, before, last).replies;
      if after != before.replies {
        if m in before.replies.cache && NewlyCached(crypto, sets, decrypt, s, front) < MAX_SIZE {
          StoreAges(before.replies, last.data[1..], response, m, r, NewlyCached(crypto, sets, decrypt, s, front));
        } else if m != last.data[1..] && m !in before.replies.cache {
          StoreAddsOnlyItself(before.replies, last.data[1..], response, m);
        }
      }
    }
  }

  lemma StoreAddsOnlyItself(c: Cache, request: Bytes, response: Bytes, m: Bytes)
    requires Valid(c) && m !in c.cache && m != request
    ensures m !in Store(c, request, response).cache
  {
    if request !in c.cache { StoreNew(c, request, response); }
  }

  /** Which datagrams are answered: those already in the cache, and payments that do not raise. A
      datagram that is not answered leaves the cache alone. */
  lemma AnsweredExactly(crypto: Crypto, sets: nat, decrypt: Decrypt, s: Udp, d: Bytes)
    requires sets > 0
    ensures var (r, reply) := Handle(crypto, sets, decrypt, s, d);
      && (reply.Answer? <==> d != [] && d[0] == 1 && (d[1..] in s.replies.cache || IsPayment(crypto, sets, decrypt, s.bank, d[1..])))
      && (!reply.Answer? ==> r.replies == s.replies)
  {
    hide PaymentWork, Store;
  }

  /** The request decrypts to a payment message, type 3, which does not raise. */
  predicate IsPayment(crypto: Crypto, sets: nat, decrypt: Decrypt, b: Bank, request: Bytes)
    requires sets > 0
  {
    && decrypt(request).Some? && decrypt(request).value != [] && decrypt(request).value[0] == 3
    && !PaymentWork(crypto, sets, b, decrypt(request).value[1..]).raised
  }

  /** Every newly answered payment is in the cache afterwards, with that reply and as the youngest. */
  lemma AnswerIsCached(crypto: Crypto, sets: nat, decrypt: Decrypt, s: Udp, d: Bytes)
    requires sets > 0 && Valid(s.replies)
    requires d != [] && d[1..] !in s.replies.cache && Handle(crypto, sets, decrypt, s, d).1.Answer?
    ensures var (first, reply) := Handle(crypto, sets, decrypt, s, d);
      Valid(first.replies) && Aged(first.replies, d[1..], reply.reply, 0)
  {
    hide PaymentWork, Store, Valid, Aged;
    var w := PaymentWork(crypto, sets, s.bank, decrypt(d[1..]).value[1..]);
    StoreFirst(s.replies, d[1..], w.reply);
    StoreValid(s.replies, d[1..], w.reply);
  }

  /** A payment datagram that was answered and not from the cache, sent again after any traffic
      whatever, further copies, deposits and rollovers included, gets the same reply and leaves bank
      and cache as they are while fewer than 500 new requests were cached in between. The 500th
      throws it out, so with no copy in between it is cached exactly while there were fewer than
      500. */
  lemma {:induction false} RepeatAnsweredFromCacheExactly(crypto: Crypto, sets: nat, decrypt: Decrypt, s: Udp, d: Bytes, traffic: seq<Arrival>)
    requires sets > 0 && Valid(s.replies)
    requires d != [] && d[1..] !in s.replies.cache && Handle(crypto, sets, decrypt, s, d).1.Answer?
    ensures var (first, reply) := Handle(crypto, sets, decrypt, s, d);
      var later, n := Serve(crypto, sets, decrypt, first, traffic), NewlyCached(crypto, sets, decrypt, first, traffic);
      && (n < 500 ==> Handle(crypto, sets, decrypt, later, d) == (later, reply))
      && (n == 500 && NewlyCached(crypto, sets, decrypt, first, traffic[..|traffic| - 1]) < 500 ==>
            d[1..] !in later.replies.cache)
      && (NoCopy(traffic, d[1..]) ==> (d[1..] in later.replies.cache <==> n < 500))
  {
    hide Serve, NewlyCached, PaymentWork, NoCopy, Valid;
    var (first, reply) := Handle(crypto, sets, decrypt, s, d);
    AnswerIsCached(crypto, sets, decrypt, s, d);
    AgesWithNewRequests(crypto, sets, decrypt, first, traffic, d[1..], reply.reply);
  }

  // ---------------------------------------------------------------- coins through the whole server

  const NewUdp := Udp(Closed, Cache(map[], []))

  /** The interval ids among the arrivals. */
  function Rollovers(traffic: seq<Arrival>): seq<nat> {
    if traffic == [] then []
    else
      var front, last := Rollovers(traffic[..|traffic| - 1]), traffic[|traffic| - 1];
      if last.Rollover? then front + [last.id] else front
  }

  /** One arrival moves the bank by a run of presented coins or by one callback. */
  lemma StepIsRun(crypto: Crypto, sets: nat, decrypt: Decrypt, s: Udp, a: Arrival) returns (events: seq<Event>)
    requires sets > 0
    ensures Step(crypto, sets, decrypt, s, a).bank == Run(crypto, sets, s.bank, events)
    ensures Ids(events) == if a.Rollover? then [a.id] else []
  {
    hide Run, Coins, Store;
    events := [];
    RunNothing(crypto, sets, s.bank);
    match a
    case Rollover(id) =>
      events := [NewInterval(id)];
      RunOne(crypto, sets, s.bank, NewInterval(id));
      IdsOne(NewInterval(id));
    case Deposit(msg) =>
      if |msg| >= 2 {
        events := MessageEvents(crypto, sets, false, s.bank, msg[2..], BigEndian(msg[..2]));
      }
    case Datagram(data) =>
      if data != [] && data[0] == 1 && data[1..] !in s.replies.cache && decrypt(data[1..]).Some? {
        var plain := decrypt(data[1..]).value;
        if |plain| > 1 && plain[0] == 3 {
          events := MessageEvents(crypto, sets, true, s.bank, plain[2..], plain[1] as int);
          assert plain[1..][1..] == plain[2..];
        }
      }
  }

  lemma {:induction false} RunNothing(crypto: Crypto, sets: nat, b: Bank)
    requires sets > 0
    ensures Run(crypto, sets, b, []) == b && Ids([]) == []
  {
  }

  lemma MessageEvents(crypto: Crypto, sets: nat, paying: bool, b: Bank, blob: Bytes, n: nat) returns (events: seq<Event>)
    requires sets > 0
    ensures Coins(crypto, sets, paying, Work(b, blob, [], [], [], false), n).bank == Run(crypto, sets, b, events)
    ensures Ids(events) == []
  {
    MessageIsRun(crypto, sets, paying, b, blob, n);
    events := Presents(Coins(crypto, sets, paying, Work(b, blob, [], [], [], false), n).coins);
    PresentsNoIds(Coins(crypto, sets, paying, Work(b, blob, [], [], [], false), n).coins);
  }

  lemma {:induction false} ServeIsRun(crypto: Crypto, sets: nat, decrypt: Decrypt, traffic: seq<Arrival>) returns (events: seq<Event>)
    requires sets > 0
    ensures Serve(crypto, sets, decrypt, NewUdp, traffic).bank == Run(crypto, sets, Closed, events)
    ensures Ids(events) == Rollovers(traffic)
  {
    hide Run, Ids, Step;
    RunNothing(crypto, sets, Closed);
    events := [];
    if traffic != [] {
      var front := ServeIsRun(crypto, sets, decrypt, traffic[..|traffic| - 1]);
      var before := Serve(crypto, sets, decrypt, NewUdp, traffic[..|traffic| - 1]);
      var more := StepIsRun(crypto, sets, decrypt, before, traffic[|traffic| - 1]);
      events := front + more;
      RunAppend(crypto, sets, Closed, front, more);
      IdsAppend(front, more);
    }
  }

  /** Over every mix of payment datagrams, repeated ones included, deposit messages and rollovers
      whose ids reopen no interval, the bank accepts each coin at most once. */
  lemma {:induction false} ServerAcceptsOnce(crypto: Crypto, sets: nat, decrypt: Decrypt, traffic: seq<Arrival>)
    requires sets > 0 && !Reopens(Rollovers(traffic))
    ensures NoneTwice(crypto, Serve(crypto, sets, decrypt, NewUdp, traffic).bank.accepted)
  {
    hide Run, Serve, Reopens, Rollovers;
    var events := ServeIsRun(crypto, sets, decrypt, traffic);
    RunKeeps(crypto, sets, events);
  }

  /** Through any traffic only coins signed by the bank are accepted, each of an interval named by a
      callback or the one before it. */
  lemma {:induction false} ServerAcceptsOnlyGood(crypto: Crypto, sets: nat, decrypt: Decrypt, traffic: seq<Arrival>, c: Coin)
    requires sets > 0 && c in Serve(crypto, sets, decrypt, NewUdp, traffic).bank.accepted
    ensures crypto.signed(c)
    ensures exists m :: 0 <= m < |Rollovers(traffic)| && (Rollovers(traffic)[m] == c.interval || Rollovers(traffic)[m] as int - 1 == c.interval)
  {
    hide Run, Serve, Rollovers, Ids;
    var events := ServeIsRun(crypto, sets, decrypt, traffic);
    OnlyGoodAccepted(crypto, sets, events);
    var i: nat :| PresentedGood(crypto, events, c, i);
    IdsAppend(events[..i], events[i..]);
    assert events == events[..i] + events[i..];
    var m := |Ids(events[..i])| - 1;
    assert Ids(events)[m] == Ids(events[..i])[m];
  }

  /** A payment datagram, as the client renders it, to a server whose ids have been consecutive from
      a positive one on: it is answered, and the answer tells of each coin in turn what happened to
      it. */
  lemma PaymentDatagram(crypto: Crypto, sets: nat, decrypt: Decrypt, traffic: seq<Arrival>, request: Bytes, items: seq<Item>)
    returns (events: seq<Event>, parts: seq<Bytes>)
    requires sets > 0 && AreItems(true, items) && |items| < 256
    requires Consecutive(Rollovers(traffic)) && Rollovers(traffic) != [] && Rollovers(traffic)[0] > 0
    requires decrypt(request) == Some([3] + RenderPayment(items))
    requires request !in Serve(crypto, sets, decrypt, NewUdp, traffic).replies.cache
    ensures var s := Serve(crypto, sets, decrypt, NewUdp, traffic);
      var (r, reply) := Handle(crypto, sets, decrypt, s, [1] + request);
      && s.bank == BankAt(crypto, sets, events, items, 0) && r.bank == BankAt(crypto, sets, events, items, |items|)
      && reply == Answer(Flat(parts)) && |parts| == |items|
    ensures forall k :: 0 <= k < |items| ==>
      IsPart(crypto, BankAt(crypto, sets, events, items, k), BankAt(crypto, sets, events, items, k + 1), items[k], parts[k])
  {
    hide Run, Serve, Rollovers, Ids, Consecutive, BankAt, IsPart, AreItems, RenderPayment, PaymentWork, Store, Flat;
    events := ServeIsRun(crypto, sets, decrypt, traffic);
    var b := Run(crypto, sets, Closed, events);
    NeverRaises(crypto, sets, true, events, items, |items|);
    PaymentIsWork(crypto, sets, b, items);
    parts := PaymentReplies(crypto, sets, events, items);
    BankFirst(crypto, sets, events, items);
    assert ([1] + request)[1..] == request && ([3] + RenderPayment(items))[1..] == RenderPayment(items);
  }

  /** The server object: `reply` appends, stores and evicts in a loop. */
  class ReplyStore {
    var cache: map<Bytes, Bytes>
    var queue: seq<Bytes>

    ghost function View(): Cache
      reads this
    {
      Cache(cache, queue)
    }

    constructor ()
      ensures View() == Cache(map[], []) && Valid(View())
    {
      cache, queue := map[], [];
    }

    /** The caching half of `reply`. */
    method Remember(request: Bytes, response: Bytes)
      requires Valid(View())
      modifies this
      ensures Valid(View()) && View() == Store(old(View()), request, response)
      ensures request in cache && (request in old(cache) || cache[request] == response)
    {
      StoreValid(View(), request, response);
      if request !in cache {
        StoreFirst(View(), request, response);
        queue := queue + [request];
        cache := cache[request := response];
        while |queue| > MAX_SIZE
          invariant Evict(View()) == Store(old(View()), request, response)
          decreases |queue|
        {
          cache := cache - {queue[0]};
          queue := queue[1..];
        }
      }
    }
  }
}
