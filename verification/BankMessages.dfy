/** Payment and deposit messages byte by byte: what a client sends, what the bank reads from it and
    what it answers (ACoinMessages.py, ACoin.py). */
module BankMessages {
  import opened Text
  import opened BankSpec

  // ---------------------------------------------------------------- what a client sends

  /** A coin, and in a payment the token to be signed for it. */
  datatype Item = Item(coin: Coin, token: Bytes)

  /** An unsigned number in four bytes, or in two, most significant first. */
  function Four(n: nat): (b: Bytes)
    requires n < 0x1_0000_0000
    ensures |b| == 4
  {
    [(n / 0x100_0000) as Byte, (n / 0x1_0000 % 256) as Byte, (n / 256 % 256) as Byte, (n % 256) as Byte]
  }

  function Two(n: nat): (b: Bytes)
    requires n < 0x1_0000
    ensures |b| == 2
  {
    [(n / 256) as Byte, (n % 256) as Byte]
  }

  predicate IsItem(paying: bool, x: Item) {
    && |x.coin.receipt| == 32 && 0 <= x.coin.interval < 0x1_0000_0000 && |x.coin.signature| == 96
    && |x.token| == if paying then 96 else 0
  }

  predicate AreItems(paying: bool, items: seq<Item>) {
    forall i :: 0 <= i < |items| ==> IsItem(paying, items[i])
  }

  function RenderItem(paying: bool, x: Item): Bytes
    requires IsItem(paying, x)
  {
    x.coin.receipt + Four(x.coin.interval) + x.coin.signature + x.token
  }

  function RenderItems(paying: bool, items: seq<Item>): Bytes
    requires AreItems(paying, items)
  {
    if items == [] then [] else RenderItem(paying, items[0]) + RenderItems(paying, items[1..])
  }

  function RenderPayment(items: seq<Item>): Bytes
    requires AreItems(true, items) && |items| < 256
  {
    [|items| as Byte] + RenderItems(true, items)
  }

  function RenderDeposit(items: seq<Item>): Bytes
    requires AreItems(false, items) && |items| < 0x1_0000
  {
    Two(|items|) + RenderItems(false, items)
  }

  function CoinsOf(items: seq<Item>): seq<Coin> { seq(|items|, i requires 0 <= i < |items| => items[i].coin) }

  // ---------------------------------------------------------------- reading it back

  lemma {:induction false} BigEndianFour(n: nat)
    requires n < 0x1_0000_0000
    ensures BigEndian(Four(n)) == n
  {
    var b := Four(n);
    assert b[..3] == [b[0], b[1], b[2]] && b[..3][..2] == [b[0], b[1]] && [b[0], b[1]][..1] == [b[0]] && [b[0]][..0] == [];
    assert BigEndian([b[0]]) == b[0] as int;
    assert BigEndian([b[0], b[1]]) == 256 * (b[0] as int) + b[1] as int;
    assert BigEndian(b[..3]) == 256 * BigEndian([b[0], b[1]]) + b[2] as int;
  }

  lemma {:induction false} BigEndianTwo(n: nat)
    requires n < 0x1_0000
    ensures BigEndian(Two(n)) == n
  {
    var b := Two(n);
    assert b[..1] == [b[0]] && [b[0]][..0] == [];
    assert BigEndian([b[0]]) == b[0] as int;
  }

  /** A rendered coin is read back, with whatever follows it. */
  lemma ReadRendered(paying: bool, x: Item, rest: Bytes)
    requires IsItem(paying, x)
    ensures ReadCoin(RenderItem(paying, x) + rest) == Some((x.coin, x.token + rest))
  {
    var four := Four(x.coin.interval);
    BigEndianFour(x.coin.interval);
    hide Four, BigEndian;
    var blob := RenderItem(paying, x) + rest;
    assert blob[..32] == x.coin.receipt;
    assert blob[32..36] == four;
    assert blob[36..132] == x.coin.signature;
    assert blob[132..] == x.token + rest;
  }

  lemma TokenRead(token: Bytes, rest: Bytes)
    requires |token| == 96
    ensures Head(token + rest, KEY) == token && Tail(token + rest, KEY) == rest
  {
  }

  // ---------------------------------------------------------------- one coin's turn

  /** The part of a payment's reply for one coin, by what happened to the bank: '0' and the signed
      token for a coin newly accepted, '1' for one that is unsigned or stale, '2' for one that was
      accepted before. */
  ghost predicate IsPart(crypto: Crypto, before: Bank, after: Bank, x: Item, part: Bytes) {
    var good := crypto.signed(x.coin) && (x.coin.interval == before.current || x.coin.interval == before.current as int - 1);
    || (good && after.accepted == before.accepted + [x.coin] && part == [48] + crypto.sign(x.token))
    || (!good && after == before && part == [49])
    || (good && after == before && AcceptedBefore(crypto, before, x.coin) && part == [50])
  }

  lemma SpentWasAccepted(crypto: Crypto, sets: nat, b: Bank, coin: Coin)
    requires sets > 0 && Backed(crypto, sets, b) && Reply(crypto, sets, b, coin) == Spent
    ensures AcceptedBefore(crypto, b, coin)
  {
    assert HasAccepted(crypto, b, coin.interval, crypto.md5(coin.signature));
    var c :| c in b.accepted && c.interval == coin.interval && crypto.md5(c.signature) == crypto.md5(coin.signature);
    assert SameCoin(crypto, c, coin);
  }

  lemma PartOf(crypto: Crypto, sets: nat, b: Bank, x: Item) returns (part: Bytes)
    requires sets > 0 && Backed(crypto, sets, b) && Reply(crypto, sets, b, x.coin) != Crash
    ensures IsPart(crypto, b, PresentCoin(crypto, sets, b, x.coin), x, part)
    ensures var a := Reply(crypto, sets, b, x.coin); part == [Code(a)] + if a == Accepted then crypto.sign(x.token) else []
  {
    hide Backed;
    var a := Reply(crypto, sets, b, x.coin);
    part := [Code(a)] + if a == Accepted then crypto.sign(x.token) else [];
    if a == Spent { SpentWasAccepted(crypto, sets, b, x.coin); }
  }

  /** What the loop has done before its turn number `i`. */
  ghost predicate AtTurn(paying: bool, items: seq<Item>, i: nat, w: Work)
    requires AreItems(paying, items)
  {
    i <= |items| && w.blob == RenderItems(paying, items[i..]) && w.coins == CoinsOf(items)[..i]
  }

  /** The first item of what is left is read off the blob. */
  lemma {:induction false} FrontRead(paying: bool, items: seq<Item>, i: nat, w: Work)
    requires AreItems(paying, items) && AtTurn(paying, items, i, w) && i < |items|
    ensures var rest := RenderItems(paying, items[i + 1..]);
      ReadCoin(w.blob) == Some((items[i].coin, items[i].token + rest))
  {
    hide RenderItem, ReadCoin;
    assert items[i..][0] == items[i] && items[i..][1..] == items[i + 1..];
    ReadRendered(paying, items[i], RenderItems(paying, items[i + 1..]));
  }

  /** One turn of the loop, once the coin is read. */
  lemma OneCoinIs(crypto: Crypto, sets: nat, paying: bool, w: Work, coin: Coin, token: Bytes, rest: Bytes)
    requires sets > 0 && !w.raised && ReadCoin(w.blob) == Some((coin, token + rest))
    requires |token| == if paying then 96 else 0
    ensures var r, a := OneCoin(crypto, sets, paying, w), Reply(crypto, sets, w.bank, coin);
      && (r.raised <==> a == Crash)
      && (a != Crash ==>
            && r.blob == rest && r.coins == w.coins + [coin] && r.bank == PresentCoin(crypto, sets, w.bank, coin)
            && r.reply == w.reply + ([Code(a)] + if paying && a == Accepted then crypto.sign(token) else []))
  {
    hide ReadCoin, Reply, PresentCoin, Code;
    if paying { TokenRead(token, rest); } else { assert token + rest == rest; }
  }

  lemma OneTurn(crypto: Crypto, sets: nat, paying: bool, items: seq<Item>, i: nat, w: Work)
    requires sets > 0 && AreItems(paying, items) && AtTurn(paying, items, i, w) && i < |items|
    requires !w.raised
    ensures var r, a := OneCoin(crypto, sets, paying, w), Reply(crypto, sets, w.bank, items[i].coin);
      && (r.raised <==> a == Crash)
      && (a != Crash ==>
            && AtTurn(paying, items, i + 1, r) && r.bank == PresentCoin(crypto, sets, w.bank, items[i].coin)
            && r.reply == w.reply + ([Code(a)] + if paying && a == Accepted then crypto.sign(items[i].token) else []))
  {
    FrontRead(paying, items, i, w);
    TokenIs(paying, items, i);
    hide ReadCoin, RenderItems, Reply, PresentCoin, Code, AreItems, OneCoin;
    OneCoinIs(crypto, sets, paying, w, items[i].coin, items[i].token, RenderItems(paying, items[i + 1..]));
    assert CoinsOf(items)[..i + 1] == CoinsOf(items)[..i] + [items[i].coin];
  }

  lemma TokenIs(paying: bool, items: seq<Item>, i: nat)
    requires AreItems(paying, items) && i < |items|
    ensures if paying then |items[i].token| == 96 else items[i].token == []
  {
  }

  // ---------------------------------------------------------------- whole messages

  /** The bank after the events and the first `i` coins of the message. */
  function BankAt(crypto: Crypto, sets: nat, events: seq<Event>, items: seq<Item>, i: nat): Bank
    requires sets > 0 && i <= |items|
  {
    Run(crypto, sets, Closed, events + Presents(CoinsOf(items)[..i]))
  }

  lemma BankNext(crypto: Crypto, sets: nat, events: seq<Event>, items: seq<Item>, i: nat)
    requires sets > 0 && i < |items|
    ensures BankAt(crypto, sets, events, items, i + 1) == PresentCoin(crypto, sets, BankAt(crypto, sets, events, items, i), items[i].coin)
  {
    hide Run;
    var done, coin := CoinsOf(items)[..i], items[i].coin;
    assert CoinsOf(items)[..i + 1] == done + [coin];
    RunAppend(crypto, sets, Closed, events, Presents(done));
    RunAppend(crypto, sets, Closed, events, Presents(done + [coin]));
    RunPresent(crypto, sets, Run(crypto, sets, Closed, events), done, coin);
  }

  lemma {:induction false} BankFirst(crypto: Crypto, sets: nat, events: seq<Event>, items: seq<Item>)
    requires sets > 0
    ensures BankAt(crypto, sets, events, items, 0) == Run(crypto, sets, Closed, events)
  {
    hide Run;
    assert CoinsOf(items)[..0] == [] && Presents([]) == [] && events + [] == events;
  }

  function Flat(parts: seq<Bytes>): Bytes {
    if parts == [] then [] else Flat(parts[..|parts| - 1]) + parts[|parts| - 1]
  }

  /** The work after `i` turns on the rendered items. */
  function WorkAt(crypto: Crypto, sets: nat, paying: bool, b: Bank, items: seq<Item>, i: nat): Work
    requires sets > 0 && AreItems(paying, items)
  {
    Coins(crypto, sets, paying, Work(b, RenderItems(paying, items), [], [], [], false), i)
  }

  /** After `i` turns without an exception the first `i` coins have been presented, in order, and no
      more has been read. */
  lemma {:induction false} Turns(crypto: Crypto, sets: nat, paying: bool, events: seq<Event>, items: seq<Item>, i: nat)
    requires sets > 0 && AreItems(paying, items) && i <= |items|
    requires !WorkAt(crypto, sets, paying, Run(crypto, sets, Closed, events), items, i).raised
    ensures var w := WorkAt(crypto, sets, paying, Run(crypto, sets, Closed, events), items, i);
      AtTurn(paying, items, i, w) && w.bank == BankAt(crypto, sets, events, items, i)
  {
    hide Run, OneCoin, RenderItems, BankAt, AreItems;
    BankFirst(crypto, sets, events, items);
    if i == 0 {
      assert items[0..] == items && CoinsOf(items)[..0] == [];
    } else {
      StillNotRaised(crypto, sets, paying, Run(crypto, sets, Closed, events), items, i);
      Turns(crypto, sets, paying, events, items, i - 1);
      var w := WorkAt(crypto, sets, paying, Run(crypto, sets, Closed, events), items, i - 1);
      OneTurn(crypto, sets, paying, items, i - 1, w);
      BankNext(crypto, sets, events, items, i - 1);
    }
  }

  /** The parts of the reply after `i` turns. */
  lemma {:induction false} Replies(crypto: Crypto, sets: nat, events: seq<Event>, items: seq<Item>, i: nat) returns (parts: seq<Bytes>)
    requires sets > 0 && AreItems(true, items) && i <= |items|
    requires !WorkAt(crypto, sets, true, Run(crypto, sets, Closed, events), items, i).raised
    ensures |parts| == i && WorkAt(crypto, sets, true, Run(crypto, sets, Closed, events), items, i).reply == Flat(parts)
    ensures forall k :: 0 <= k < i ==>
      IsPart(crypto, BankAt(crypto, sets, events, items, k), BankAt(crypto, sets, events, items, k + 1), items[k], parts[k])
  {
    hide Run, OneCoin, RenderItems, BankAt, IsPart, AreItems, Reply, Code;
    parts := [];
    if i > 0 {
      StillNotRaised(crypto, sets, true, Run(crypto, sets, Closed, events), items, i);
      var front := Replies(crypto, sets, events, items, i - 1);
      Turns(crypto, sets, true, events, items, i - 1);
      var w := WorkAt(crypto, sets, true, Run(crypto, sets, Closed, events), items, i - 1);
      OneTurn(crypto, sets, true, items, i - 1, w);
      BankNext(crypto, sets, events, items, i - 1);
      BankBacked(crypto, sets, events, items, i - 1);
      var part := PartOf(crypto, sets, w.bank, items[i - 1]);
      parts := front + [part];
      assert parts[..i - 1] == front;
    }
  }

  lemma BankBacked(crypto: Crypto, sets: nat, events: seq<Event>, items: seq<Item>, i: nat)
    requires sets > 0 && i <= |items|
    ensures Backed(crypto, sets, BankAt(crypto, sets, events, items, i))
  {
    RunBacked(crypto, sets, events + Presents(CoinsOf(items)[..i]));
  }

  lemma StillNotRaised(crypto: Crypto, sets: nat, paying: bool, b: Bank, items: seq<Item>, i: nat)
    requires sets > 0 && AreItems(paying, items) && 0 < i
    requires !WorkAt(crypto, sets, paying, b, items, i).raised
    ensures !WorkAt(crypto, sets, paying, b, items, i - 1).raised
    ensures WorkAt(crypto, sets, paying, b, items, i) == OneCoin(crypto, sets, paying, WorkAt(crypto, sets, paying, b, items, i - 1))
  {
    hide RenderItems;
  }

  /** A payment message, as the client renders it, that does not raise: the reply is the parts of
      its coins one after the other, each saying what happened to its coin at its turn. */
  lemma PaymentReplies(crypto: Crypto, sets: nat, events: seq<Event>, items: seq<Item>) returns (parts: seq<Bytes>)
    requires sets > 0 && AreItems(true, items) && |items| < 256
    requires !PaymentWork(crypto, sets, Run(crypto, sets, Closed, events), RenderPayment(items)).raised
    ensures var w := PaymentWork(crypto, sets, Run(crypto, sets, Closed, events), RenderPayment(items));
      && w.reply == Flat(parts) && |parts| == |items|
      && w.coins == CoinsOf(items) && w.bank == BankAt(crypto, sets, events, items, |items|)
    ensures forall k :: 0 <= k < |items| ==>
      IsPart(crypto, BankAt(crypto, sets, events, items, k), BankAt(crypto, sets, events, items, k + 1), items[k], parts[k])
  {
    hide Run, BankAt, IsPart, AreItems, Coins;
    PaymentIsWork(crypto, sets, Run(crypto, sets, Closed, events), items);
    parts := Replies(crypto, sets, events, items, |items|);
    Turns(crypto, sets, true, events, items, |items|);
    assert CoinsOf(items)[..|items|] == CoinsOf(items);
  }

  lemma PaymentIsWork(crypto: Crypto, sets: nat, b: Bank, items: seq<Item>)
    requires sets > 0 && AreItems(true, items) && |items| < 256
    ensures PaymentWork(crypto, sets, b, RenderPayment(items)) == WorkAt(crypto, sets, true, b, items, |items|)
  {
    hide Coins, RenderItems, AreItems;
    assert RenderPayment(items)[1..] == RenderItems(true, items);
  }

  /** A rendered deposit that does not raise presents its coins in order and credits one for each
      coin newly accepted. */
  lemma {:induction false} DepositCredits(crypto: Crypto, sets: nat, events: seq<Event>, items: seq<Item>)
    requires sets > 0 && AreItems(false, items) && |items| < 0x1_0000
    requires !DepositWork(crypto, sets, Run(crypto, sets, Closed, events), RenderDeposit(items)).raised
    ensures var b := Run(crypto, sets, Closed, events); var w := DepositWork(crypto, sets, b, RenderDeposit(items));
      && w.coins == CoinsOf(items) && w.bank == BankAt(crypto, sets, events, items, |items|)
      && Credit(w) == Some(|w.bank.accepted| - |b.accepted|)
  {
    hide Run, BankAt, AreItems, Coins;
    var b := Run(crypto, sets, Closed, events);
    DepositIsWork(crypto, sets, b, items);
    DepositConserves(crypto, sets, b, RenderDeposit(items));
    Turns(crypto, sets, false, events, items, |items|);
    assert CoinsOf(items)[..|items|] == CoinsOf(items);
  }

  lemma DepositIsWork(crypto: Crypto, sets: nat, b: Bank, items: seq<Item>)
    requires sets > 0 && AreItems(false, items) && |items| < 0x1_0000
    ensures DepositWork(crypto, sets, b, RenderDeposit(items)) == WorkAt(crypto, sets, false, b, items, |items|)
  {
    hide Coins, RenderItems, AreItems, BigEndian;
    var msg := RenderDeposit(items);
    assert msg[..2] == Two(|items|) && msg[2..] == RenderItems(false, items);
    BigEndianTwo(|items|);
  }

  /** With consecutive ids from a positive one on, a rendered message never raises. */
  lemma {:induction false} NeverRaises(crypto: Crypto, sets: nat, paying: bool, events: seq<Event>, items: seq<Item>, i: nat)
    requires sets > 0 && AreItems(paying, items) && i <= |items|
    requires Consecutive(Ids(events)) && Ids(events) != [] && Ids(events)[0] > 0
    ensures !WorkAt(crypto, sets, paying, Run(crypto, sets, Closed, events), items, i).raised
  {
    hide Run, OneCoin, RenderItems, AreItems, Ids, Consecutive, Reply;
    if i > 0 {
      NeverRaises(crypto, sets, paying, events, items, i - 1);
      Turns(crypto, sets, paying, events, items, i - 1);
      OneTurn(crypto, sets, paying, items, i - 1, WorkAt(crypto, sets, paying, Run(crypto, sets, Closed, events), items, i - 1));
      var done := Presents(CoinsOf(items)[..i - 1]);
      PresentsNoIds(CoinsOf(items)[..i - 1]);
      IdsAppend(events, done);
      assert Ids(events) + [] == Ids(events);
      StoreCoversValidCoins(crypto, sets, events + done, items[i - 1].coin);
    }
  }
}
