# A verified model of the BitBlinder core

This project models the stateful core of BitBlinder's bank and BitTorrent client in Dafny and proves
what each part is for: the connection pool of the bank, the incremental torrent-directory scan, the
upload rate limiter, bencoding, the coin protocol with its reply cache, the event-log pipeline, the
tracker's HTTP request reader, the two address indexes, and the call-graph passes of `mdd.py`.

Code that changes state step by step is a class or a method with loops, proved equal to a small
specification function or relation; the theorems are about that specification, over all inputs, all
runs or all interleavings. `Text.dfy` (string order, searching, decimal numerals) lies beneath the
other files; files in one row below build on each other.

| file | component |
|---|---|
| `Pool.dfy` | bounded connection pool with a condition variable, as a step system, and the pool object |
| `Parsedir.dfy`, `ParsedirScan.dfy` | incremental directory scan and the torrent manager that applies its delta |
| `RateLimiter.dfy` | clock repair, token bucket, circular list of connections |
| `Bencode.dfy` | printer and position-based parser |
| `Bank.dfy`, `BankMessages.dfy`, `ReplyCache.dfy` | spent-coin store with interval rollover, messages byte by byte, bounded cache of replies |
| `Events.dfy`, `EventLog.dfy` | key=value lines, resumable reader, aggregating table |
| `Http.dfy` | request reader fed with arbitrary pieces of a byte stream |
| `Subnet.dfy`, `IpRange.dfy` | bisection over bit prefixes and over merged ranges |
| `Mdd.dfy` | depth assignment and call closure |

`dafny verify dfyconfig.toml` checks the whole project.

## Where the code does less than one would expect

Several natural statements are false of the code as written. The model keeps the code, shows
inputs that break the statement, and proves exactly when it holds.

- Pool: a woken thread that fails to create a connection swallows its wake-up
  (`PoolProofs.FailedCreationLosesWakeup`); `PoolProofs.RunLosesWakeupExactly` says
  for which runs no wake-up is lost. Hosed releases use up places for good; `PoolProofs.WaiterCanProceedExactly`
  says a waiter can still get through if and only if they have not used up every place.
- Rate limiter: the bound "rate times elapsed time plus one unit" holds for all runs if and only if
  one unit is at most three seconds' worth (`LimiterSpec.BucketBoundExactly`), because `adjust_sent`
  caps the debt at three seconds.
- Bank: a repeated interval callback empties the current set and lets a coin be spent again
  (`BankSpec.RepeatedCallbackReopens`); `BankSpec.AcceptedOnceExactly` says for which sequences of
  ids no run accepts a coin twice. With consecutive ids a rollover raises if and only if the bank
  was opened in interval 0 (`BankSpec.RolloverRaisesExactly`).
- Event log: the caller commits even when a line fails, so the lines before the failing one are
  inserted again by every further pass (`EventLog.BadLineDoubles`, `EventLog.StuckForever`);
  `EventLog.OnceExactly` says for which runs each line is inserted once.
- Address blocks: a block nested in a larger one hides what follows it
  (`Subnet.NestedBlockShadows`); `Subnet.RightEverywhereExactly` characterises the lists that answer
  correctly for every address.
- Address ranges: the constructor compares the ends of a range as texts, so numerically reversed
  pairs get in (`IpRange.ReversedPairBlocksItsStart`); `IpRange.Merge` and `IpRange.IpRangeList.Includes` say what they do for all pairs.
  The test for IPv4-mapped addresses compares a remainder below 2^32 with a mask above it and never
  succeeds, so mapped addresses are looked up among the IPv6 ranges only.
- Bencoding in sloppy mode accepts a bare string cut short (`Bencode.CutShortReads`), and
  `Bencode.SloppyExactly` names everything it accepts.
- HTTP: once the request is complete, bytes that arrive in the same delivery stay in the buffer while
  bytes of a later delivery are dropped, so leftover bytes, and nothing else, depend on the cuts
  (`Http.LeftoverShowsTheCut`, `Http.FeedSplitExactly`).

## Model

| member | source | states |
|---|---|---|
| `PoolProofs.NoWakeupIsLost` | bank/serverCommon/antipool.py:598-767 | in every interleaving of acquire, wait, wake-up, overtaking, release (normal or hosed), scaledown and finalize, while a thread waits the connections that can be had are at most the notified threads plus the failed wake-ups; with no failed wake-up, at most the notified threads |
| `PoolProofs.PoolConserves` | bank/serverCommon/antipool.py:609-813 | in every interleaving nbconn is pooled plus held plus ditched and at most maxconn, every connection ever created is in exactly one place, and finalize's count assertion passes exactly when nothing is held or ditched |
| `PoolProofs.StepInv` | bank/serverCommon/antipool.py:598-813 | every enabled step of any thread keeps the pool invariant |
| `PoolProofs.RunInv` | bank/serverCommon/antipool.py:598-813 | every run from any state that satisfies the invariant keeps it |
| `PoolProofs.LosesWakeupExactly` | bank/serverCommon/antipool.py:614-636 | a step loses a wake-up if and only if a notified thread fails to create a connection while somebody waits and every available place is promised |
| `PoolProofs.RunLosesWakeupExactly` | bank/serverCommon/antipool.py:598-767 | in every interleaving no wake-up is lost at any point, if and only if no step is a failed creation by a notified thread while somebody waits and every available place is promised |
| `PoolProofs.FailedCreationLosesWakeup` | bank/serverCommon/antipool.py:614-636 | a concrete run with two places and minconn 1 in which a waiter sleeps on beside a free place with nobody notified |
| `PoolProofs.WaiterCanProceedExactly` | bank/serverCommon/antipool.py:614-636 | wherever no wake-up has been lost, a waiting thread can resume and walk away with a connection, with no help from newcomers, if and only if fewer than maxconn connections were ditched |
| `PoolProofs.WaiterGetsThrough` | bank/serverCommon/antipool.py:614-729 | constructs, for any place in the waiting line, a run of releases and resumptions after which that waiter holds a connection |
| `PoolProofs.AllDitchedIsForever` | bank/serverCommon/antipool.py:716-720 | when hosed releases have used up every place, no run ever hands out a connection again |
| `PoolProofs.ScaledownTrims` | bank/serverCommon/antipool.py:738-767 | scaledown keeps what can be had unchanged, never goes below minconn pooled connections, keeps everything released recently, leaves an old one only when down to minconn, and closes old ones from the front |
| `PoolProofs.LastBackFirstOut` | bank/serverCommon/antipool.py:627-628 | the pool is a stack: a connection given back recently goes to the next thread that acquires one |
| `PoolProofs.HosedWakesNobody` | bank/serverCommon/antipool.py:716-720 | a hosed release frees no place and wakes nobody |
| `PoolProofs.FinalizeExact` | bank/serverCommon/antipool.py:790-795 | finalize gets past its assertions if and only if nothing is held or ditched |
| `PoolObject.ConnectionPool.Acquire` | bank/serverCommon/antipool.py:598-642 | refines the Acquire step, keeps the invariant, hands out a connection nobody holds, and returns one exactly when one can be had |
| `PoolObject.ConnectionPool.Resume` | bank/serverCommon/antipool.py:614-642 | refines the wake-up of a notified thread that re-tests the loop, with the same guarantees |
| `PoolObject.ConnectionPool.TakeOrWait` | bank/serverCommon/antipool.py:611-636 | pop, create or go to sleep, as the Take function says, never handing out a held connection |
| `PoolObject.ConnectionPool.ScaleDown` | bank/serverCommon/antipool.py:738-767 | computes exactly the Scaledown function |
| `PoolObject.ConnectionPool.CloseOld` | bank/serverCommon/antipool.py:754-765 | the filtering loop keeps exactly what the recursive definition keeps and uncounts the rest |
| `PoolObject.ConnectionPool.Release` | bank/serverCommon/antipool.py:703-736 | refines the Release step for normal and hosed releases, keeps the invariant, and the assertion before notify holds |
| `PoolObject.ConnectionPool.GiveBack` | bank/serverCommon/antipool.py:712-729 | rollback, append, scaledown and notify in that order give the PutBack state |
| `PoolObject.ConnectionPool.FinalizePool` | bank/serverCommon/antipool.py:773-816 | succeeds exactly when every connection has come back, and then leaves an empty pool |
| `PoolObject.ConnectionWrapper.Release` | bank/serverCommon/antipool.py:904-906 | the first release gives the connection back once; a second one is refused and changes nothing in the pool |
| `Parsedir.IncrementalEqualsFresh` | client/BitTorrent/parsedir.py:80-142 | after any sequence of scans from empty caches the hashes are exactly those of the parseable files present, each owned by exactly one unblocked path, and equal what a first scan finds |
| `Parsedir.SameAsFreshExactly` | client/BitTorrent/parsedir.py:86-136 | the whole cache after a scan, owners and blocked paths included, is that of a first scan, if and only if every owner whose file has not changed is the least path of its hash |
| `Parsedir.RunSameAsFreshExactly` | client/BitTorrent/parsedir.py:86-136 | the same at the end of any sequence of scans from empty caches |
| `Parsedir.ScanDescribes` | client/BitTorrent/parsedir.py:80-142 | a scan turns a cache that described an earlier directory into one that describes the present one |
| `Parsedir.RunDescribes` | client/BitTorrent/parsedir.py:80-142 | the same at every point of a run of scans |
| `Parsedir.DeltaIsExact` | client/BitTorrent/parsedir.py:86-142 | the new table is the old one minus removed plus added, entry for entry, and nothing that stayed is added again |
| `Parsedir.ScanIsDetermined` | client/BitTorrent/parsedir.py:86-142 | two outcomes of the same scan are equal, so dictionary order cannot show |
| `Parsedir.WinnerIsUnique` | client/BitTorrent/parsedir.py:108-136 | at most one path owns a hash after a scan |
| `Parsedir.WinnerExists` | client/BitTorrent/parsedir.py:108-136 | every parseable file's hash has an owner after a scan |
| `ParsedirScan.ParseDir` | client/BitTorrent/parsedir.py:80-146 | the three loops, in whatever dictionary order, produce the order-free outcome of a scan and a cache that describes the directory |
| `ParsedirScan.Compare` | client/BitTorrent/parsedir.py:86-106 | the first loop re-adds unchanged owners, blocks unchanged broken files, notes removed entries and lists the rest for parsing |
| `ParsedirScan.ParseAll` | client/BitTorrent/parsedir.py:108-136 | the second loop gives each hash to the owner that stayed, or to the least path, and blocks every other path |
| `ParsedirScan.WinsIfHashIsNew` | client/BitTorrent/parsedir.py:112-136 | in path order, a parseable candidate becomes the owner if and only if its hash is not in the table yet |
| `ParsedirScan.MarkRemoved` | client/BitTorrent/parsedir.py:138-142 | after the last loop, removed holds exactly the entries whose owner did not stay |
| `ParsedirScan.LaunchMany.Scan` | client/BitTorrent/launchmanycore.py:122-137 | after every scan downloads equals the parsed table and torrent_list lists its keys once each |
| `ParsedirScan.LaunchMany.RemoveAll` | client/BitTorrent/launchmanycore.py:132-134 | drops exactly the removed hashes from downloads and list |
| `ParsedirScan.LaunchMany.AddAll` | client/BitTorrent/launchmanycore.py:135-137 | adds exactly the added hashes to downloads and list and leaves the cache equal |
| `ParsedirScan.LaunchMany.Remove` | client/BitTorrent/launchmanycore.py:217-220 | removes one hash from downloads and its one place in the list |
| `ParsedirScan.LaunchMany.Add` | client/BitTorrent/launchmanycore.py:222-238 | adds a hash once; a torrent already downloading is left alone |
| `Clock.RepairedTime` | client/BitTorrent/clock.py:15-22 | for any system clock, repaired time never goes back, moves at most 100 a reading, and follows a well-behaved clock exactly after any repair |
| `Clock.ReadingExactly` | client/BitTorrent/clock.py:15-22 | a reading moves repaired time by one second if the system clock went back or forward by more than 100, and otherwise by what the system clock moved |
| `Clock.RelativeTime.GetTime` | client/BitTorrent/clock.py:15-22 | one reading computes the repaired time and stays within the bounds |
| `LimiterSpec.BucketBoundExactly` | client/BitTorrent/RateLimiter.py:63-102 | at a fixed rate every run sends at most rate times elapsed clock time plus one unit, if and only if a unit is at most three seconds' worth |
| `LimiterSpec.EarlySecondUnit` | client/BitTorrent/RateLimiter.py:100-102 | for every rate and larger unit, a run that breaks the bound |
| `LimiterSpec.FireSends` | client/BitTorrent/RateLimiter.py:74-98 | a callback carries all credit over: the account afterwards is what went out less the credit, nothing goes out in debt, at most credit plus one unit does, and more than the credit if somebody is still queued |
| `LimiterSpec.QueueSends` | client/BitTorrent/RateLimiter.py:63-83 | a first connection finds no credit however long the limiter was idle: at most one unit goes out, none while there is debt, and the debt is carried over |
| `LimiterSpec.DelayIsExact` | client/BitTorrent/RateLimiter.py:97-98 | unless traffic was charged in between, a callback finds credit if and only if it comes no earlier than the delay asked for |
| `LimiterSpec.CallbackNeverMisfires` | client/BitTorrent/RateLimiter.py:63-98 | through any mix of queueing, late callbacks and adjustments exactly one callback is pending when somebody is queued and none otherwise, so none fires on an empty ring |
| `LimiterSpec.RunIsFair` | client/BitTorrent/RateLimiter.py:63-98 | over every run, from one turn of a connection that goes back into the ring to its next, exactly the others in the ring are served, once each and in ring order, whoever joins or drops out meanwhile |
| `LimiterSpec.RoundRobin` | client/BitTorrent/RateLimiter.py:80-96 | the same for any sequence of turns and joins from any ring |
| `LimiterSpec.RunPlays` | client/BitTorrent/RateLimiter.py:63-98 | the ring of a run is its turns and joins played out |
| `LimiterSpec.StepScheduled` | client/BitTorrent/RateLimiter.py:63-98 | every step keeps the queue free of repetition and the callback count right |
| `LimiterSpec.StepPaid` | client/BitTorrent/RateLimiter.py:74-102 | every step keeps what was sent within earned credit plus recorded debt, and within the bound |
| `LimiterSpec.RunKeeps` | client/BitTorrent/RateLimiter.py:63-102 | both invariants over whole runs |
| `LimiterObject.RateLimiter.SetUploadRate` | client/BitTorrent/RateLimiter.py:44-61 | sets rate and adjustment mode, restarts the account, keeps the ring; asking twice for automatic mode changes nothing |
| `LimiterObject.RateLimiter.Queue` | client/BitTorrent/RateLimiter.py:63-72 | the pointer splice refines appending to a FIFO queue, a first connection being tried at once; connections that left the ring are unlinked |
| `LimiterObject.RateLimiter.Callback` | client/BitTorrent/RateLimiter.py:74-98 | a scheduled callback refines the Fire step |
| `LimiterObject.RateLimiter.TrySend` | client/BitTorrent/RateLimiter.py:74-98 | recharge, loop and rescheduling match a complete trace of the abstract loop |
| `LimiterObject.RateLimiter.Recharge` | client/BitTorrent/RateLimiter.py:75-79 | the clock reading turns elapsed time into credit, cut off at zero when asked |
| `LimiterObject.RateLimiter.SendLoop` | client/BitTorrent/RateLimiter.py:80-96 | the loop ends, by ring size then credit left, and serves heads in FIFO order as the abstract loop does |
| `LimiterObject.RateLimiter.TakeTurn` | client/BitTorrent/RateLimiter.py:82-96 | one turn serves the head and re-queues it only if it sent bytes and is not backlogged; the links stay one cycle ending at last |
| `LimiterObject.RateLimiter.DropHead` | client/BitTorrent/RateLimiter.py:86-93 | unlinks the connection after last and keeps one cycle of the others |
| `LimiterObject.RateLimiter.Rotate` | client/BitTorrent/RateLimiter.py:94-96 | moving last on by one link is a rotation of the ring |
| `LimiterObject.RateLimiter.AdjustSent` | client/BitTorrent/RateLimiter.py:100-101 | refines the Adjust step with its cap |
| `Bencode.BDecodeExactly` | client/BitTorrent/bencode.py:75-83 | bdecode returns v for a text if and only if the text is bencode(v) |
| `Bencode.DecodeExactly` | client/BitTorrent/bencode.py:15-57 | at any position of any text, reading a value within the text and finding its printed form there are the same |
| `Bencode.RoundTrip` | client/BitTorrent/bencode.py:15-57 | decoding at the start of a printed value, whatever surrounds it, returns the value and its length |
| `Bencode.Canonical` | client/BitTorrent/bencode.py:15-57 | whatever is accepted within the text is the printed form of what is returned |
| `Bencode.StringExact` | client/BitTorrent/bencode.py:26-35 | both directions for strings, which only count when the announced length fits |
| `Bencode.SloppyExactly` | client/BitTorrent/bencode.py:75-83 | without the length test exactly two kinds of text get through: a printed value followed by anything, or a bare string cut short |
| `Bencode.EncodeInjective` | client/BitTorrent/bencode.py:240-287 | different values print differently |
| `Bencode.KnownTexts` | client/BitTorrent/bencode.py:289-298 | integers, strings and lists print in the format the module checks itself for |
| `Bencode.KnownDict` | client/BitTorrent/bencode.py:301 | so does a dictionary, keys in order |
| `BencodeLoops.Read` | client/BitTorrent/bencode.py:59-77 | the dispatching parser terminates and computes Decode |
| `BencodeLoops.ReadList` | client/BitTorrent/bencode.py:41-46 | the list loop computes the recursive definition |
| `BencodeLoops.ReadDict` | client/BitTorrent/bencode.py:48-57 | the dictionary loop, with its last-key test, computes the recursive definition |
| `BencodeLoops.Write` | client/BitTorrent/bencode.py:240-279 | appending pieces to the shared list adds exactly the printed value |
| `BencodeLoops.WriteStr` | client/BitTorrent/bencode.py:246-247 | adds exactly the printed string |
| `BencodeLoops.WriteList` | client/BitTorrent/bencode.py:253-257 | adds exactly the printed list |
| `BencodeLoops.WriteDict` | client/BitTorrent/bencode.py:259-266 | adds exactly the printed dictionary, keys ascending |
| `BencodeLoops.BEncode` | client/BitTorrent/bencode.py:281-287 | the joined pieces are the printed value, and bdecode gives the value back |
| `BankSpec.AcceptedOnceExactly` | bank/BankServer.py:80-101 | every run with a given sequence of interval callbacks, whatever coins are presented in between, accepts each coin at most once, if and only if no callback after the first names a positive interval that was already on offer; the condition reads the ids alone |
| `BankSpec.ReopensExactly` | bank/BankServer.py:80-101 | for a bank opened in a positive interval, a callback reopens an interval exactly when its positive id occurred before or is one below the first id |
| `BankSpec.TwiceAccepted` | bank/ACoinMessages.py:30-46 | for every reopening callback, a run with those ids in which one coin is accepted twice |
| `BankSpec.AcceptedAtMostOnce` | bank/ACoinMessages.py:30-46 | in particular, rising interval ids are safe |
| `BankSpec.OnlyGoodAccepted` | client/common/classes/ACoin.py:77-102 | over every run each accepted coin was signed by the bank and was of the current or the previous interval when it was presented |
| `BankSpec.RefusedExactly` | bank/ACoinMessages.py:30-35 | a coin is answered invalid exactly when it is unsigned or stale, and then nothing changes |
| `BankSpec.AnswersExactly` | bank/ACoinMessages.py:30-46 | all four answers, over every run whose ids reopen no interval: invalid if unsigned or stale, an exception if its interval is not stored, spent exactly if accepted before, and accepted otherwise |
| `BankSpec.SafeRollExactly` | bank/BankServer.py:89-101 | on top of safe callbacks one more keeps every run safe, if and only if its id is 0 or was not on offer before |
| `BankSpec.RepeatedCallbackReopens` | bank/BankServer.py:89-98 | a concrete run with a repeated interval id accepts the same coin twice |
| `BankSpec.StoreCoversValidCoins` | bank/BankServer.py:80-101 | with consecutive ids from a positive one on, the store holds exactly the previous and the current interval, the next rollover does not raise, and no valid coin meets a missing interval |
| `BankSpec.RolloverRaisesExactly` | bank/BankServer.py:89-101 | with consecutive ids and any coins in between, a bank that rolls over at all meets a raising callback if and only if it was opened in interval 0 |
| `BankSpec.RaisesExactly` | bank/BankServer.py:89-98 | for any ids and coins, a callback after the opening raises exactly when the interval two before a positive id is not stored |
| `BankSpec.RunInStep` | bank/BankUtil.py:28-34 | after any run the stored intervals are a function of the callbacks alone, each with numberOfSets + 1 sets |
| `BankSpec.ShardsRefinePlainSet` | bank/ACoinMessages.py:26-46 | the sharded sets answer every event as one plain set per interval does and stay in step with it |
| `BankSpec.ShardsRefinePlainRun` | bank/ACoinMessages.py:26-46 | the same over whole runs |
| `BankSpec.MessageIsRun` | bank/ACoinMessages.py:125-183 | a payment or deposit message is a run of presented coins, one answer each, and the answers count the newly accepted coins even if the message ends early |
| `BankSpec.DepositConserves` | bank/ACoinMessages.py:164-183 | the credit of a deposit equals the number of coins newly marked spent; only a deposit that raises marks coins without crediting them |
| `BankMessages.PaymentReplies` | bank/ACoinMessages.py:125-143 | for a payment message rendered byte by byte that does not raise, the reply is one part per coin: 48 and the signed token for a coin newly accepted at its turn, 49 for one unsigned or stale, 50 for one accepted before |
| `BankMessages.DepositCredits` | bank/ACoinMessages.py:164-183 | a rendered deposit that does not raise presents its coins in order and credits one for each coin newly accepted |
| `BankMessages.ReadRendered` | client/common/classes/ACoin.py:43-56 | a coin rendered as 32 bytes of receipt, a four-byte interval and 96 bytes of signature is read back with whatever follows |
| `BankMessages.NeverRaises` | bank/ACoinMessages.py:30-46 | with consecutive ids from a positive one on, a rendered message never raises |
| `BankServer.Server.MakeShards` | bank/BankServer.py:80-87 | builds numberOfSets + 1 empty sets |
| `BankServer.Server.OnNewInterval` | bank/BankServer.py:89-101 | refines the rollover and reports exactly when the deletion raises |
| `BankServer.Server.DepositCoin` | bank/ACoinMessages.py:30-46 | answers and changes the store exactly as the specification says, whose answers AnswersExactly and OnlyGoodAccepted fix |
| `BankServer.Server.Deposit` | bank/ACoinMessages.py:164-183 | a deposit message refines the message specification, and the total is the number of coins it added |
| `BankServer.Server.DepositCoins` | bank/ACoinMessages.py:174-183 | the loop over the coins leaves the specified store and total, or nothing when the message is too short |
| `BankServer.Server.Payment` | bank/ACoinMessages.py:125-143 | the loop produces the specified store and reply, whose bytes PaymentReplies fixes, or nothing when the message raises |
| `ReplyCache.RepeatAnsweredFromCacheExactly` | bank/BankServer.py:139-177 | every payment datagram answered anew gets, when repeated after any traffic, further copies, deposits and rollovers included, the identical reply, with bank and cache untouched, while fewer than 500 new requests were cached in between; the 500th throws it out; with no copy in between it is cached exactly while there were fewer than 500 |
| `ReplyCache.AnswerIsCached` | bank/BankServer.py:166-177 | every newly answered payment is in the cache afterwards with that reply, as the youngest |
| `ReplyCache.AnsweredExactly` | bank/BankServer.py:139-164 | a datagram is answered exactly when its type is 1 and it is cached or decrypts to a payment of type 3 that does not raise; otherwise the cache is left alone |
| `ReplyCache.PaymentDatagram` | bank/BankServer.py:139-177 | a rendered payment to a server with consecutive ids is answered, and the answer tells of each coin in turn what happened to it |
| `ReplyCache.ServerAcceptsOnce` | bank/BankServer.py:139-177 | over every mix of payment datagrams, repeated ones included, deposit messages and rollovers whose ids reopen no interval, the bank accepts each coin at most once |
| `ReplyCache.ServerAcceptsOnlyGood` | bank/BankServer.py:139-177 | through any traffic only coins signed by the bank are accepted, each of an interval named by a callback or the one before it |
| `ReplyCache.ServeIsRun` | bank/BankServer.py:139-177 | any traffic moves the bank by a run of presented coins and callbacks with the same ids |
| `ReplyCache.AgesWithNewRequests` | bank/BankServer.py:166-177 | through any traffic a cached request ages by one with each newly cached one, the 500th evicts it, and it stays out while its datagram is not sent again |
| `ReplyCache.StoreValid` | bank/BankServer.py:166-175 | the queue stays a duplicate-free listing of the cache's keys, at most 500 long |
| `ReplyCache.StoreAges` | bank/BankServer.py:166-175 | one new request moves every other one place towards eviction, the oldest out |
| `ReplyCache.ServeValid` | bank/BankServer.py:139-177 | the cache stays well-formed over any traffic |
| `ReplyCache.ReplyStore.Remember` | bank/BankServer.py:166-175 | the append and eviction loop refine the Store function and keep the cache well-formed |
| `CallGraph.SweepsStratify` | innomitor/contrib/mdd.py:115-136 | at the fixpoint a function has a depth if and only if it cannot reach a cycle other than a self-call, and its depth is its longest call chain |
| `CallGraph.DepthIsLongest` | innomitor/contrib/mdd.py:122-131 | a recorded depth is the longest chain of calls, and no cycle is reachable |
| `CallGraph.UndeepReachesCycle` | innomitor/contrib/mdd.py:116-136 | a function left without a depth reaches a cycle |
| `CallGraph.AssignDepths` | innomitor/contrib/mdd.py:115-136 | the sweeps terminate with that stratification, whatever the order of the names |
| `CallGraph.DepthSweep` | innomitor/contrib/mdd.py:119-136 | a sweep keeps all depths right, and one that changes nothing has reached the fixpoint |
| `CallGraph.Visit` | innomitor/contrib/mdd.py:120-134 | one function's turn gives it a depth exactly if it had none and all it calls have one |
| `CallGraph.MaxDepth` | innomitor/contrib/mdd.py:129-130 | the maximum is below BIG exactly when all have a depth, and is then attained |
| `CallGraph.ClosureIsReachability` | innomitor/contrib/mdd.py:149-158 | at the fixpoint each set is exactly what can be reached by one or more non-self calls among unstratified functions |
| `CallGraph.CloseCalls` | innomitor/contrib/mdd.py:139-158 | the closure loop terminates with exactly the reachable sets |
| `CallGraph.Sweep` | innomitor/contrib/mdd.py:150-158 | a sweep only grows sets, stays sound, reports change exactly, and a silent one is closed |
| `CallGraph.Absorb` | innomitor/contrib/mdd.py:152-156 | one function takes in the sets of all it calls and leaves the others alone |
| `EventText.SaveThenLoad` | bank/serverCommon/EventLogging.py:73-78 | loading the logged line of an event restores it attribute for attribute, spaces and empty values included |
| `EventText.SavesExactly` | bank/serverCommon/Events.py:173-186 | an event prints exactly if no value contains an equals sign or a newline |
| `EventText.KnownLine` | bank/serverCommon/Events.py:173-186 | a line as it stands in the log, keys in order |
| `EventText.LoadFields` | bank/serverCommon/Events.py:152-168 | the loading loop recovers every field of a printed sequence of fields |
| `EventText.LoadField` | bank/serverCommon/Events.py:155-162 | the last space before the next '=' separates a value from the next key |
| `EventText.MatchField` | bank/serverCommon/Events.py:12 | the lazy key match stops at the first '=' and the value runs to the next |
| `EventText.ServerEvent.LoadText` | bank/serverCommon/Events.py:152-168 | succeeds exactly when the specification does; success or not, the attributes, eventName among them, are those of the fields read before the one that raises, with the same keys and types as before |
| `EventText.LoadKeepsShape` | bank/serverCommon/Events.py:152-168 | whatever the text, loading adds no attribute to the instance, drops none and changes no type, eventName included |
| `EventText.LoadRaises` | bank/serverCommon/Events.py:152-168 | loading raises on a text without an equals sign, on a key the instance does not have, and on a number that is not one |
| `EventText.UnknownClassRaises` | bank/serverCommon/EventLogging.py:73-78 | a line of an unknown class raises |
| `EventText.ServerEvent.Print` | bank/serverCommon/Events.py:173-186 | prints eventName and then the other keys in sorted order, or fails on a value with '=' or newline |
| `EventText.ServerEvent.PrintFields` | bank/serverCommon/Events.py:177-186 | the loop over the sorted keys builds exactly the printed form, or fails on a forbidden value |
| `EventLog.PipelineTotals` | bank/serverCommon/EventLogging.py:80-107 | end to end: however the printed events of any mix of classes reach the file and whenever it is parsed, after a last pass every row starts on a multiple of 3600 and holds the amounts of exactly the events of its table and source in its 3600 seconds, every event is in exactly one row, and two events share a row if and only if table, source and hour of the clock agree |
| `EventLog.LinesInsertedExactlyOnce` | bank/serverCommon/EventLogging.py:80-107 | for any interleaving of appends and passes in which every line loads, each complete line is inserted once and in order |
| `EventLog.OnceExactly` | logging/fetch.py:176-195 | over every run of appends and passes, the lines inserted are the parsed ones once each and in order, if and only if no pass met a bad line after a loadable one; otherwise more lines were inserted than parsed and the next pass stumbles again |
| `EventLog.StuckForever` | logging/fetch.py:176-195 | after such a pass the count of parsed lines never moves again, whatever is appended, and every further pass inserts the same good lines once more, the table summing all the copies |
| `EventLog.BadLineDoubles` | logging/fetch.py:176-195 | a file with one good and one bad line: the second pass inserts the good line again and doubles its row |
| `EventLog.BadLogLineDoubles` | logging/fetch.py:176-195 | the same for the printed line of any event of a known class followed by a line without a space |
| `EventLog.RecordSums` | bank/serverCommon/Events.py:206-243 | an insertion keeps exactly one row per table, hour and source that occurs, and every row the sum of its amounts |
| `EventLog.RecordAllSums` | bank/serverCommon/Events.py:225-243 | the same for any sequence of insertions |
| `EventLog.SumsAreHourly` | bank/serverCommon/Events.py:225-243 | the rows kept by matching rounded times are those hourly rows |
| `EventLog.TableExactly` | bank/serverCommon/Events.py:206-207 | two classes share a table exactly when their names differ in case only |
| `EventLog.BankTable` | bank/serverCommon/Events.py:206-207 | the table of BankPayment is bankpayment_events |
| `EventLog.LinesGrow` | bank/serverCommon/EventLogging.py:86-93 | appending never changes the lines already complete |
| `EventLog.PassResultIsPass` | bank/serverCommon/EventLogging.py:80-107 | the outcome of the reading method is the abstract pass |
| `EventLog.Tables.InsertEntry` | bank/serverCommon/Events.py:225-243 | counting then updating or inserting in the event's table gives the Record function's rows, keeps one row per table, hour and source, and meets the assertion that at most one row matches |
| `EventLog.Tables.CountRows` | bank/serverCommon/Events.py:231-236 | at most one row matches, and one does exactly if the table, hour and source have a row |
| `EventLog.Tables.UpdateRows` | bank/serverCommon/Events.py:237-240 | adds the amount to the matching row and leaves the others alone |
| `EventLog.Tables.TakeLine` | bank/serverCommon/EventLogging.py:97-103 | one new line is loaded and inserted, and the first event's time is kept |
| `EventLog.Tables.ParseEvents` | bank/serverCommon/EventLogging.py:80-107 | skips lines parsed before, inserts the rest until one fails, ignores a partial last line and returns the number of complete lines |
| `EventLog.ReadLine` | bank/serverCommon/EventLogging.py:86-93 | a complete line is the first of the remaining lines; an incomplete one is none |
| `Http.SegmentationIndependent` | client/BitTorrent/HTTPHandler.py:30-84 | any two ways to cut the same byte stream leave the same command, path, headers and reader, and call the request handler equally, at most once |
| `Http.FeedSplitExactly` | client/BitTorrent/HTTPHandler.py:30-45 | two deliveries equal one, leftover bytes included, if and only if the reader was still running after the first or the second was empty |
| `Http.DrainMore` | client/BitTorrent/HTTPHandler.py:33-45 | data behind the buffer changes nothing about the lines already in it |
| `Http.CallsOnce` | client/BitTorrent/HTTPHandler.py:65-77 | the handler is called once if the request was complete and never otherwise |
| `Http.RequestIsRead` | client/BitTorrent/HTTPHandler.py:30-84 | a well-formed GET or HEAD request, with any white space between the words and around header values, header names and values possibly empty, however cut up, is read back field for field, the bare request line included, and handed to the handler exactly once, and the encoding is gzip exactly when the last accept-encoding value contains gzip |
| `Http.FirstLine` | client/BitTorrent/HTTPHandler.py:47-63 | a request line of two or three words is read back, and pre1 tells which |
| `Http.ContainsExactly` | client/BitTorrent/HTTPHandler.py:69 | the search finds a text exactly if it occurs somewhere |
| `Http.LeftoverShowsTheCut` | client/BitTorrent/HTTPHandler.py:30-45 | a concrete byte stream whose leftover bytes depend on the cut |
| `Http.FieldLine` | client/BitTorrent/HTTPHandler.py:65-84 | a header line is split at its first colon, name in lower case, both sides trimmed |
| `Http.HTTPConnection.DataCameIn` | client/BitTorrent/HTTPHandler.py:30-45 | the line loop refines Feed and tells the caller exactly when to shut the connection down |
| `Http.HTTPConnection.OnTypeLine` | client/BitTorrent/HTTPHandler.py:47-63 | the field updates give the specified request; only a GET, or a HEAD with a version, is read on, and then with no headers yet |
| `Http.HTTPConnection.OnHeaderLine` | client/BitTorrent/HTTPHandler.py:65-84 | the field updates give the specified request; only the blank line completes it, and then the handler is called once with the headers read so far |
| `Subnet.IpList.Includes` | client/BitTorrent/subnetparse.py:124-142 | for every list and address the answer is true if and only if a block contains the address and none shadows it; without nested blocks, if and only if a block contains it |
| `Subnet.Search` | client/BitTorrent/subnetparse.py:137-142 | the same for the loop from the bisection point, the wrap to the last element included |
| `Subnet.RightEverywhereExactly` | client/BitTorrent/subnetparse.py:124-142 | the list is right for every address of its width if and only if every block inside a larger one that reaches past it is followed at once by another block |
| `Subnet.AntichainCastsNoShadow` | client/BitTorrent/subnetparse.py:137-142 | without nested blocks no covered address is shadowed |
| `Subnet.LastEntryDecides` | client/BitTorrent/subnetparse.py:137-142 | only the last entry not above the address can answer for it |
| `Subnet.CoveredExactly` | client/BitTorrent/subnetparse.py:103-136 | on 128 bits, with IPv4 mapped behind 80 zeros and 16 ones: an address is covered exactly when it agrees with some entry of its family on all the bits the entry fixes |
| `Subnet.BlockExactly` | client/BitTorrent/subnetparse.py:103-111 | a stored block is a prefix of an address's key exactly when entry and address agree on those bits |
| `Subnet.NestedBlockShadows` | client/BitTorrent/subnetparse.py:124-142 | with 10.0.0.0/8 and 10.0.0.0/16 in the list, 10.1.0.0 is in a block and the list denies it |
| `Subnet.IpList.constructor` | client/BitTorrent/subnetparse.py:89-96 | stores exactly the entries' blocks by family, sorted |
| `Subnet.IpList.AppendUnsorted` | client/BitTorrent/subnetparse.py:103-111 | adds one block to the list of its family, mapped addresses counting as IPv4 |
| `Subnet.IpList.Append` | client/BitTorrent/subnetparse.py:113-121 | the same, keeping the list sorted |
| `IpRange.IpRangeList.Includes` | client/BitTorrent/iprangeparse.py:183-206 | true if and only if some entry of the address's family covers it, or a reversed pair starts at it with no proper range ending right before |
| `IpRange.Merge` | client/BitTorrent/iprangeparse.py:144-161 | for every list of pairs the runs are separated by a missing address and hit exactly the blocked addresses; proper pairs give proper runs |
| `IpRange.RunsAreCanonical` | client/BitTorrent/iprangeparse.py:148-158 | separated proper runs are determined by the set of addresses alone, so neither order nor overlap of the input shows |
| `IpRange.Import` | client/BitTorrent/iprangeparse.py:144-180 | the starts list and the ends dictionary answer for exactly the blocked addresses, repeated starts included |
| `IpRange.Search` | client/BitTorrent/iprangeparse.py:200-206 | the loop from the bisection point, with its wrap to the last element, answers as the whole index does |
| `IpRange.LastStartDecides` | client/BitTorrent/iprangeparse.py:200-206 | only the last start not above the address can answer for it |
| `IpRange.ProperRangesMeanTheirUnion` | client/BitTorrent/iprangeparse.py:200-206 | with begin at most end everywhere, the blocked addresses are the union |
| `IpRange.ReversedPairBlocksItsStart` | client/BitTorrent/iprangeparse.py:73-77 | the textual check admits 10.0.0.0-9.0.0.0, a reversed pair that blocks its own start unless a range ends right before it |
| `IpRange.IpRangeList.constructor` | client/BitTorrent/iprangeparse.py:64-90 | both families' indexes answer for exactly their entries |

## Left out

- The pool's shared read-only connection, `forget_connections` and a pool without `maxconn`.
- Two threads releasing the same connection wrapper at once: its check and its reset are not under the pool lock.
- What the database does: creating a connection and rolling one back simply succeed or fail.
- The directory walk of parsedir.py lines 60-78: the listing it produces is the scan's input. A file with an unchanged path, modification time and size is taken to have unchanged contents. Warnings and messages are not modelled.
- The scan reuses the inner lists of the file cache (`new_files[p] = oldval`); the model stores equal values, so sharing between old and new cache is not captured. The scan's dictionaries are values that the loops reassign.
- Shutting a torrent down, merging trackers and hash-check scheduling in launchmanycore.py.
- Automatic rate adjustment by ping and the rate measure. Time, rates and credit are exact reals; `send_partial` and `backlogged` may answer anything up to one unit.
- Bencoded numerals are plain decimal runs and length prefixes unsigned; what else Python's `int` and `long` accept, and booleans, unicode strings, tuples and pre-encoded values, are not modelled.
- Cryptography, signatures and hashes of the coin protocol are opaque functions; two coins count as the same when interval and signature digest agree, as the store sees them.
- `Request` and account balances: the code's own comment says the read and the write are not atomic.
- The TCP side of the bank server except the deposit message, login and settings. A rollover that raises also keeps the source from scheduling the next lookup; the model allows further callbacks.
- Boolean event attributes, which load as true whatever was printed, and integer texts other than plain decimals in `load`.
- SQL: the rows of all tables are one sequence, each row naming its table. Events that are not aggregate, which insert one row each, are not in the log pipeline.
- Attributes of the class itself, such as `__module__`, which `load` would also accept as field names, and callable ones.
- `answer`, compression and logging in HTTPHandler.py, and a connection closed by the handler while a request is being read.
- The texts of IP addresses: addresses arrive as bit fields or numbers, depths as integers; what a negative slice keeps of a mapped address with a depth below 96 is modelled but has no reading as a block. `bisect`, `insort` and `sort` are library routines, modelled by their own small methods and functions.
- `append` of iprangeparse.py, which merges with at most one range and can leave overlaps, and the reading of address files.
- `mdd.py` lines before 115 (parsing and printing); the depth results assume at most `BIG` functions, the sentinel the script uses.
- Installers, dashboards, user interface, sockets and SQL plumbing, which have no invariant of their own.
