/** The incremental scan of a torrent directory (parsedir.py) and the torrent manager that
    applies its delta (launchmanycore.py). */
module Parsedir {
  import opened Text

  type Path = string
  type Hash = string

  datatype Stamp = Stamp(mtime: int, size: int)

  /** What `read_torrent` returns: the info hash and the rest of the metadata. */
  datatype Torrent = Torrent(hash: Hash, meta: string)
  datatype Info = Info(path: Path, meta: string)

  /** `files[path]`: modification stamp, and the hash if the file parsed (the source's 0 is `None`). */
  datatype Entry = Entry(stamp: Stamp, hash: Option<Hash>)

  datatype Cache = Cache(parsed: map<Hash, Info>, files: map<Path, Entry>, blocked: set<Path>)

  const Empty := Cache(map[], map[], {})

  /** Reading a file, as a function of its path and stamp: same stamp, same contents. */
  type Reader = (Path, Stamp) -> Option<Torrent>
  type Listing = map<Path, Stamp>

  function HashOf(read: Reader, p: Path, stamp: Stamp): Option<Hash> {
    match read(p, stamp)
    case Some(t) => Some(t.hash)
    case None => None
  }

  predicate Parses(read: Reader, l: Listing, p: Path) {
    p in l && read(p, l[p]).Some?
  }

  predicate SameHash(read: Reader, l: Listing, p: Path, q: Path)
    requires Parses(read, l, p)
  {
    Parses(read, l, q) && read(q, l[q]).value.hash == read(p, l[p]).value.hash
  }

  function InfoOf(read: Reader, l: Listing, p: Path): Info
    requires Parses(read, l, p)
  {
    Info(p, read(p, l[p]).value.meta)
  }

  function HashAt(read: Reader, l: Listing, p: Path): Hash
    requires Parses(read, l, p)
  {
    read(p, l[p]).value.hash
  }

  // ---------------------------------------------------------------- what a good cache is

  /** The cache describes the directory `l`: files carry their true hashes, and the unblocked
      paths are in one-to-one correspondence with the hashes of the parseable files. */
  ghost predicate Describes(read: Reader, l: Listing, c: Cache) {
    && c.files.Keys == l.Keys
    && (forall p :: p in l ==> c.files[p] == Entry(l[p], HashOf(read, p, l[p])))
    && c.blocked <= l.Keys
    && (forall p :: p in l && p !in c.blocked ==>
          Parses(read, l, p) && HashAt(read, l, p) in c.parsed && c.parsed[HashAt(read, l, p)] == InfoOf(read, l, p))
    && (forall h :: h in c.parsed ==>
          var p := c.parsed[h].path;
          Parses(read, l, p) && p !in c.blocked && HashAt(read, l, p) == h)
    && (forall p :: Parses(read, l, p) ==> HashAt(read, l, p) in c.parsed)
  }

  // ---------------------------------------------------------------- what a scan must produce

  predicate Unchanged(c: Cache, l: Listing, p: Path) {
    p in l && p in c.files && c.files[p].stamp == l[p]
  }

  /** The old owner of a hash whose file has not changed. */
  predicate Stays(c: Cache, l: Listing, p: Path) {
    Unchanged(c, l, p) && p !in c.blocked
  }

  predicate StillBroken(c: Cache, l: Listing, p: Path) {
    Unchanged(c, l, p) && c.files[p].hash == None
  }

  predicate Candidate(c: Cache, l: Listing, p: Path) {
    p in l && !Stays(c, l, p) && !StillBroken(c, l, p)
  }

  /** The path that owns its hash after the scan: an owner that stays, or else the least path
      in string order among the files with that hash. */
  ghost predicate Wins(read: Reader, c: Cache, l: Listing, p: Path) {
    && Parses(read, l, p)
    && (|| Stays(c, l, p)
        || forall q :: SameHash(read, l, p, q) && q != p ==> !Stays(c, l, q) && Less(p, q))
  }

  ghost function ScanFiles(read: Reader, l: Listing): map<Path, Entry> {
    map p | p in l :: Entry(l[p], HashOf(read, p, l[p]))
  }

  ghost function ScanBlocked(read: Reader, c: Cache, l: Listing): set<Path> {
    set p | p in l && !Wins(read, c, l, p)
  }

  /** `m` maps each hash owned by a path of `owners` to that path's metadata, and nothing else. */
  ghost predicate Owned(read: Reader, l: Listing, m: map<Hash, Info>, owners: set<Path>) {
    && (forall p :: p in owners ==>
          Parses(read, l, p) && HashAt(read, l, p) in m && m[HashAt(read, l, p)] == InfoOf(read, l, p))
    && (forall h :: h in m ==>
          m[h].path in owners && Parses(read, l, m[h].path) && HashAt(read, l, m[h].path) == h)
  }

  ghost function Winners(read: Reader, c: Cache, l: Listing): set<Path> {
    set p | p in l && Wins(read, c, l, p)
  }

  ghost function Newcomers(read: Reader, c: Cache, l: Listing): set<Path> {
    set p | p in l && Wins(read, c, l, p) && !Stays(c, l, p)
  }

  /** The five results of `parsedir`. */
  datatype Outcome = Outcome(cache: Cache, added: map<Hash, Info>, removed: map<Hash, Info>)

  /** The whole outcome of a scan of `l` on top of cache `c`, with no mention of any order. */
  ghost predicate IsScan(read: Reader, c: Cache, l: Listing, o: Outcome) {
    && o.cache.files == ScanFiles(read, l)
    && o.cache.blocked == ScanBlocked(read, c, l)
    && Owned(read, l, o.cache.parsed, Winners(read, c, l))
    && Owned(read, l, o.added, Newcomers(read, c, l))
    && o.removed == map h | h in c.parsed && !Stays(c, l, c.parsed[h].path) :: c.parsed[h]
  }

  // ---------------------------------------------------------------- the winners

  lemma StaysParses(read: Reader, before: Listing, c: Cache, l: Listing, p: Path)
    requires Describes(read, before, c) && Stays(c, l, p)
    ensures Parses(read, l, p) && Wins(read, c, l, p)
    ensures HashAt(read, l, p) in c.parsed && c.parsed[HashAt(read, l, p)] == InfoOf(read, l, p)
  {
  }

  lemma WinnerIsUnique(read: Reader, before: Listing, c: Cache, l: Listing, p: Path, q: Path)
    requires Describes(read, before, c)
    requires Wins(read, c, l, p) && Wins(read, c, l, q) && SameHash(read, l, p, q)
    ensures p == q
  {
    if p != q {
      if Stays(c, l, p) && Stays(c, l, q) {
        StaysParses(read, before, c, l, p);
        StaysParses(read, before, c, l, q);
      } else {
        assert SameHash(read, l, q, p);
        if Less(p, q) { LessAsymmetric(p, q); }
      }
    }
  }

  /** Among any non-empty set of paths one is least. */
  lemma {:induction false} LeastExists(s: set<Path>) returns (m: Path)
    requires s != {}
    ensures m in s && forall q :: q in s && q != m ==> Less(m, q)
    decreases s
  {
    m :| m in s;
    if s != {m} {
      var k := LeastExists(s - {m});
      LessTotal(m, k);
      if Less(k, m) {
        m := k;
      } else {
        forall q | q in s && q != m ensures Less(m, q) {
          if q != k { LessTransitive(m, k, q); }
        }
      }
    }
  }

  lemma WinnerExists(read: Reader, before: Listing, c: Cache, l: Listing, p: Path) returns (w: Path)
    requires Describes(read, before, c) && Parses(read, l, p)
    ensures Wins(read, c, l, w) && SameHash(read, l, p, w)
  {
    var rivals := set q | q in l && SameHash(read, l, p, q);
    assert p in rivals;
    if q :| q in rivals && Stays(c, l, q) {
      w := q;
    } else {
      w := LeastExists(rivals);
      forall q | SameHash(read, l, w, q) && q != w ensures !Stays(c, l, q) && Less(w, q) {
        assert q in rivals;
      }
    }
  }

  // ---------------------------------------------------------------- main results

  /** A scan turns a cache that described some earlier directory into one that describes the
      directory as it is now. */
  lemma ScanDescribes(read: Reader, before: Listing, c: Cache, l: Listing, o: Outcome)
    requires Describes(read, before, c) && IsScan(read, c, l, o)
    ensures Describes(read, l, o.cache)
  {
    var r := o.cache;
    forall p | Parses(read, l, p) ensures HashAt(read, l, p) in r.parsed {
      var w := WinnerExists(read, before, c, l, p);
      assert w in Winners(read, c, l);
    }
    forall p | p in l && p !in r.blocked
      ensures Parses(read, l, p) && HashAt(read, l, p) in r.parsed && r.parsed[HashAt(read, l, p)] == InfoOf(read, l, p)
    {
      assert p in Winners(read, c, l);
    }
  }

  ghost function CacheBefore(outs: seq<Outcome>, i: nat): Cache
    requires i <= |outs|
  {
    if i == 0 then Empty else outs[i - 1].cache
  }

  ghost function ListingBefore(listings: seq<Listing>, i: nat): Listing
    requires i <= |listings|
  {
    if i == 0 then map[] else listings[i - 1]
  }

  /** `outs[i]` is the outcome of scanning `listings[i]`, each scan starting from the cache the
      one before left behind, the first from empty caches. */
  ghost predicate ScanRun(read: Reader, listings: seq<Listing>, outs: seq<Outcome>) {
    && |outs| == |listings|
    && forall i :: 0 <= i < |outs| ==> IsScan(read, CacheBefore(outs, i), listings[i], outs[i])
  }

  lemma {:induction false} RunDescribes(read: Reader, listings: seq<Listing>, outs: seq<Outcome>, i: nat)
    requires ScanRun(read, listings, outs) && i <= |outs|
    ensures Describes(read, ListingBefore(listings, i), CacheBefore(outs, i))
  {
    if i > 0 {
      RunDescribes(read, listings, outs, i - 1);
      assert IsScan(read, CacheBefore(outs, i - 1), listings[i - 1], outs[i - 1]);
      ScanDescribes(read, ListingBefore(listings, i - 1), CacheBefore(outs, i - 1), listings[i - 1], outs[i - 1]);
    }
  }

  ghost function HashesOf(read: Reader, l: Listing): set<Hash> {
    set p | p in l && Parses(read, l, p) :: HashAt(read, l, p)
  }

  /** The cache's hashes are those of the files present, each with exactly one unblocked path. */
  ghost predicate Exact(read: Reader, l: Listing, c: Cache) {
    && c.parsed.Keys == HashesOf(read, l)
    && (forall h :: h in c.parsed ==> OwnsAlone(read, l, c, c.parsed[h].path, h))
  }

  ghost predicate OwnsAlone(read: Reader, l: Listing, c: Cache, w: Path, h: Hash) {
    && Parses(read, l, w) && HashAt(read, l, w) == h && w !in c.blocked
    && (forall p :: Parses(read, l, p) && HashAt(read, l, p) == h && p !in c.blocked ==> p == w)
  }

  lemma DescribesExact(read: Reader, l: Listing, c: Cache)
    requires Describes(read, l, c)
    ensures Exact(read, l, c)
  {
    forall h | h in c.parsed ensures h in HashesOf(read, l) && OwnsAlone(read, l, c, c.parsed[h].path, h) {
      assert Parses(read, l, c.parsed[h].path);
    }
  }

  lemma DescribedHashesAgree(read: Reader, l: Listing, c1: Cache, c2: Cache)
    requires Describes(read, l, c1) && Describes(read, l, c2)
    ensures c1.parsed.Keys == c2.parsed.Keys && c1.files == c2.files
  {
    forall h | h in c1.parsed ensures h in c2.parsed { assert Parses(read, l, c1.parsed[h].path); }
    forall h | h in c2.parsed ensures h in c1.parsed { assert Parses(read, l, c2.parsed[h].path); }
  }

  /** After any sequence of scans the cache holds exactly the hashes of the files present now,
      each with exactly one unblocked path, and they are the hashes a first scan would find. */
  lemma IncrementalEqualsFresh(read: Reader, listings: seq<Listing>, outs: seq<Outcome>, first: Outcome)
    requires ScanRun(read, listings, outs) && outs != []
    requires IsScan(read, Empty, listings[|outs| - 1], first)
    ensures var l, c := listings[|outs| - 1], outs[|outs| - 1].cache;
      Exact(read, l, c) && c.parsed.Keys == first.cache.parsed.Keys && c.files == first.cache.files
  {
    var n := |outs|;
    RunDescribes(read, listings, outs, n);
    RunDescribes(read, listings, outs, 0);
    ScanDescribes(read, map[], Empty, listings[n - 1], first);
    DescribesExact(read, listings[n - 1], outs[n - 1].cache);
    DescribedHashesAgree(read, listings[n - 1], outs[n - 1].cache, first.cache);
  }

  /** The first path in string order among the files with its hash. */
  ghost predicate IsLeast(read: Reader, l: Listing, p: Path) {
    Parses(read, l, p) && forall q :: SameHash(read, l, p, q) && q != p ==> Less(p, q)
  }

  lemma WinsFreshIsLeast(read: Reader, l: Listing, p: Path)
    ensures Wins(read, Empty, l, p) <==> IsLeast(read, l, p)
  {
  }

  /** When every owner that stays is the least path of its hash, the owners are the least paths. */
  lemma WinsIsLeast(read: Reader, c: Cache, l: Listing, p: Path)
    requires forall q :: Stays(c, l, q) ==> IsLeast(read, l, q)
    ensures Wins(read, c, l, p) <==> IsLeast(read, l, p)
  {
    if IsLeast(read, l, p) {
      forall q | SameHash(read, l, p, q) && q != p ensures !Stays(c, l, q) {
        LessAsymmetric(p, q);
        assert SameHash(read, l, q, p);
      }
    }
  }

  /** The whole cache, owners and blocked paths included, is that of a first scan, if and only if
      every owner whose file has not changed is the least path of its hash. */
  lemma SameAsFreshExactly(read: Reader, before: Listing, c: Cache, l: Listing, o: Outcome, first: Outcome)
    requires Describes(read, before, c) && IsScan(read, c, l, o) && IsScan(read, Empty, l, first)
    ensures o.cache == first.cache <==> forall p :: Stays(c, l, p) ==> IsLeast(read, l, p)
  {
    hide Wins, IsLeast, Owned, Describes;
    forall p ensures Wins(read, Empty, l, p) <==> IsLeast(read, l, p) { WinsFreshIsLeast(read, l, p); }
    if forall p :: Stays(c, l, p) ==> IsLeast(read, l, p) {
      forall p ensures Wins(read, c, l, p) <==> IsLeast(read, l, p) { WinsIsLeast(read, c, l, p); }
      assert Winners(read, c, l) == Winners(read, Empty, l);
      OwnedIsUnique(read, l, o.cache.parsed, first.cache.parsed, Winners(read, c, l));
      assert o.cache.blocked == first.cache.blocked;
    } else {
      var p :| Stays(c, l, p) && !IsLeast(read, l, p);
      StaysWins(read, before, c, l, p);
      assert p !in o.cache.blocked && p in first.cache.blocked;
    }
  }

  /** The same after any sequence of scans: what decides is which owners the last scan let stay. */
  lemma RunSameAsFreshExactly(read: Reader, listings: seq<Listing>, outs: seq<Outcome>, first: Outcome)
    requires ScanRun(read, listings, outs) && outs != []
    requires IsScan(read, Empty, listings[|outs| - 1], first)
    ensures var n := |outs| - 1; var l, c := listings[n], CacheBefore(outs, n);
      outs[n].cache == first.cache <==> forall p :: Stays(c, l, p) ==> IsLeast(read, l, p)
  {
    var n := |outs| - 1;
    RunDescribes(read, listings, outs, n);
    SameAsFreshExactly(read, ListingBefore(listings, n), CacheBefore(outs, n), listings[n], outs[n], first);
  }

  lemma StaysWins(read: Reader, before: Listing, c: Cache, l: Listing, p: Path)
    requires Describes(read, before, c) && Stays(c, l, p)
    ensures p in l && Wins(read, c, l, p)
  {
    StaysParses(read, before, c, l, p);
  }

  lemma KeptEntry(read: Reader, before: Listing, c: Cache, l: Listing, o: Outcome, h: Hash)
    requires Describes(read, before, c) && IsScan(read, c, l, o)
    requires h in c.parsed && h !in o.removed
    ensures h in o.cache.parsed && o.cache.parsed[h] == c.parsed[h] && h !in o.added
  {
    var p := c.parsed[h].path;
    StaysParses(read, before, c, l, p);
    assert p in Winners(read, c, l);
    if h in o.added {
      WinnerIsUnique(read, before, c, l, p, o.added[h].path);
    }
  }

  lemma AddedEntry(read: Reader, c: Cache, l: Listing, o: Outcome, h: Hash)
    requires IsScan(read, c, l, o) && h in o.added
    ensures h in o.cache.parsed && o.cache.parsed[h] == o.added[h]
  {
    assert o.added[h].path in Newcomers(read, c, l);
    assert o.added[h].path in Winners(read, c, l);
  }

  lemma NewEntry(read: Reader, before: Listing, c: Cache, l: Listing, o: Outcome, h: Hash)
    requires Describes(read, before, c) && IsScan(read, c, l, o) && h in o.cache.parsed
    ensures h in o.added || (h in c.parsed && h !in o.removed)
  {
    var p := o.cache.parsed[h].path;
    if Stays(c, l, p) {
      StaysParses(read, before, c, l, p);
    } else {
      assert p in Newcomers(read, c, l);
    }
  }

  /** The delta is exact: dropping `removed` from the old table and adding `added` gives the new
      one, entry for entry, and nothing that stayed is added again. */
  lemma DeltaIsExact(read: Reader, before: Listing, c: Cache, l: Listing, o: Outcome)
    requires Describes(read, before, c) && IsScan(read, c, l, o)
    ensures o.removed.Keys <= c.parsed.Keys
    ensures o.added.Keys !! (c.parsed.Keys - o.removed.Keys)
    ensures o.cache.parsed == (c.parsed - o.removed.Keys) + o.added
  {
    hide Describes, Owned;
    forall h | h in c.parsed && h !in o.removed
      ensures h in o.cache.parsed && o.cache.parsed[h] == c.parsed[h] && h !in o.added
    {
      KeptEntry(read, before, c, l, o, h);
    }
    forall h | h in o.added ensures h in o.cache.parsed && o.cache.parsed[h] == o.added[h] {
      AddedEntry(read, c, l, o, h);
    }
    forall h | h in o.cache.parsed ensures h in o.added || (h in c.parsed && h !in o.removed) {
      NewEntry(read, before, c, l, o, h);
    }
  }

  /** The outcome is a function of the cache and the directory: iteration order cannot show. */
  lemma ScanIsDetermined(read: Reader, c: Cache, l: Listing, o1: Outcome, o2: Outcome)
    requires IsScan(read, c, l, o1) && IsScan(read, c, l, o2)
    ensures o1 == o2
  {
    OwnedIsUnique(read, l, o1.cache.parsed, o2.cache.parsed, Winners(read, c, l));
    OwnedIsUnique(read, l, o1.added, o2.added, Newcomers(read, c, l));
  }

  lemma OwnedIsUnique(read: Reader, l: Listing, m1: map<Hash, Info>, m2: map<Hash, Info>, owners: set<Path>)
    requires Owned(read, l, m1, owners) && Owned(read, l, m2, owners)
    ensures m1 == m2
  {
    forall h | h in m1 ensures h in m2 && m2[h] == m1[h] { assert m1[h].path in owners; }
    forall h | h in m2 ensures h in m1 { assert m2[h].path in owners; }
  }
}
