/** The three passes of `parsedir` as loops over dictionaries in no particular order, and
    `LaunchMany.scan`, which applies the delta to the running downloads. */
module ParsedirScan {
  import opened Text
  import opened Parsedir

  // ---------------------------------------------------------------- pass one: compare

  /** The entry carried into `new_files` by the comparison pass. */
  function Carried(c: Cache, l: Listing, p: Path, seen: bool): Entry
    requires p in l
  {
    if seen && Unchanged(c, l, p) && c.files[p].hash.Some? then c.files[p] else Entry(l[p], None)
  }

  datatype Work = Work(files: map<Path, Entry>, parsed: map<Hash, Info>, blocked: set<Path>,
                       toAdd: seq<Path>, removed: map<Hash, Info>)

  ghost predicate ComparedFiles(c: Cache, l: Listing, seen: set<Path>, w: Work) {
    && w.files.Keys == l.Keys
    && (forall p :: p in l ==> w.files[p] == Carried(c, l, p, p in seen))
  }

  /** Old owners seen so far, split into those that stay and those that do not. */
  ghost predicate ComparedTables(c: Cache, l: Listing, seen: set<Path>, w: Work) {
    && (forall h :: h in w.parsed <==> h in c.parsed && c.parsed[h].path in seen && Stays(c, l, c.parsed[h].path))
    && (forall h :: h in w.parsed ==> w.parsed[h] == c.parsed[h])
    && (forall h :: h in w.removed <==> h in c.parsed && c.parsed[h].path in seen && !Stays(c, l, c.parsed[h].path))
    && (forall h :: h in w.removed ==> w.removed[h] == c.parsed[h])
  }

  ghost predicate ComparedLists(c: Cache, l: Listing, seen: set<Path>, w: Work) {
    && (forall p :: p in w.blocked <==> p in seen && StillBroken(c, l, p))
    && Distinct(w.toAdd)
    && (forall p :: p in w.toAdd <==> p in seen && Candidate(c, l, p))
  }

  ghost predicate Compared(c: Cache, l: Listing, seen: set<Path>, w: Work) {
    ComparedFiles(c, l, seen, w) && ComparedTables(c, l, seen, w) && ComparedLists(c, l, seen, w)
  }

  /** The body of the comparison loop for one path. */
  function CompareStep(c: Cache, l: Listing, w: Work, p: Path): Work
    requires p in l
    requires Stays(c, l, p) && c.files[p].hash.Some? ==> c.files[p].hash.value in c.parsed
  {
    if p !in c.files then w.(toAdd := w.toAdd + [p])
    else
      var was := c.files[p];
      if was.stamp == l[p] then
        match was.hash
        case Some(h) =>
          var v := w.(files := w.files[p := was]);
          if p in c.blocked then v.(toAdd := w.toAdd + [p]) else v.(parsed := w.parsed[h := c.parsed[h]])
        case None => w.(blocked := w.blocked + {p})
      else
        var v := w.(toAdd := w.toAdd + [p]);
        if was.hash.Some? && was.hash.value in c.parsed && p !in c.blocked
        then v.(removed := w.removed[was.hash.value := c.parsed[was.hash.value]]) else v
  }

  /** In a good cache a path owns at most one hash, the one recorded for it. */
  lemma OwnHash(read: Reader, before: Listing, c: Cache, p: Path)
    requires Describes(read, before, c)
    ensures forall h :: h in c.parsed && c.parsed[h].path == p ==>
      p in c.files && p !in c.blocked && c.files[p].hash == Some(h)
    ensures p in c.files && p !in c.blocked ==>
      c.files[p].hash.Some? && c.files[p].hash.value in c.parsed && c.parsed[c.files[p].hash.value].path == p
  {
  }

  lemma CompareTables(read: Reader, before: Listing, c: Cache, l: Listing, seen: set<Path>, w: Work, p: Path)
    requires Describes(read, before, c) && ComparedTables(c, l, seen, w) && p in l && p !in seen
    ensures Stays(c, l, p) && c.files[p].hash.Some? ==> c.files[p].hash.value in c.parsed
    ensures ComparedTables(c, l, seen + {p}, CompareStep(c, l, w, p))
  {
    hide Describes;
    OwnHash(read, before, c, p);
  }

  lemma ListedByStep(read: Reader, before: Listing, c: Cache, l: Listing, w: Work, p: Path)
    requires Describes(read, before, c) && p in l
    ensures Stays(c, l, p) && c.files[p].hash.Some? ==> c.files[p].hash.value in c.parsed
    ensures CompareStep(c, l, w, p).toAdd == if Candidate(c, l, p) then w.toAdd + [p] else w.toAdd
    ensures CompareStep(c, l, w, p).blocked == if StillBroken(c, l, p) then w.blocked + {p} else w.blocked
  {
    hide Describes;
    OwnHash(read, before, c, p);
  }

  lemma CompareLists(read: Reader, before: Listing, c: Cache, l: Listing, seen: set<Path>, w: Work, p: Path)
    requires Describes(read, before, c) && ComparedLists(c, l, seen, w) && p in l && p !in seen
    ensures Stays(c, l, p) && c.files[p].hash.Some? ==> c.files[p].hash.value in c.parsed
    ensures ComparedLists(c, l, seen + {p}, CompareStep(c, l, w, p))
  {
    hide Describes, CompareStep, Candidate, StillBroken;
    ListedByStep(read, before, c, l, w, p);
    assert p !in w.toAdd;
    assert forall x :: x in w.toAdd + [p] <==> x in w.toAdd || x == p;
  }

  lemma CompareFiles(c: Cache, l: Listing, seen: set<Path>, w: Work, p: Path)
    requires ComparedFiles(c, l, seen, w) && p in l && p !in seen
    requires Stays(c, l, p) && c.files[p].hash.Some? ==> c.files[p].hash.value in c.parsed
    ensures ComparedFiles(c, l, seen + {p}, CompareStep(c, l, w, p))
  {
  }

  lemma NothingCompared(c: Cache, l: Listing, w: Work)
    requires w == Work(map p | p in l :: Entry(l[p], None), map[], {}, [], map[])
    ensures Compared(c, l, {}, w)
  {
  }

  method Compare(read: Reader, ghost before: Listing, c: Cache, l: Listing) returns (w: Work)
    requires Describes(read, before, c)
    ensures Compared(c, l, l.Keys, w)
  {
    hide Describes;
    w := Work(map p | p in l :: Entry(l[p], None), map[], {}, [], map[]);
    var todo := l.Keys;
    NothingCompared(c, l, w);
    assert l.Keys - todo == {};
    hide ComparedFiles, ComparedTables, ComparedLists, CompareStep;
    while todo != {}
      invariant todo <= l.Keys && Compared(c, l, l.Keys - todo, w)
    {
      var p :| p in todo;
      CompareTables(read, before, c, l, l.Keys - todo, w, p);
      CompareLists(read, before, c, l, l.Keys - todo, w, p);
      CompareFiles(c, l, l.Keys - todo, w, p);
      w := CompareStep(c, l, w, p);
      assert l.Keys - todo + {p} == l.Keys - (todo - {p});
      todo := todo - {p};
    }
    assert l.Keys - todo == l.Keys;
  }

  // ---------------------------------------------------------------- pass two: parse

  ghost function Candidates(c: Cache, l: Listing): set<Path> {
    set p | p in l && Candidate(c, l, p)
  }

  /** Winners among the owners that stay and the candidates parsed so far. */
  ghost function Settled(read: Reader, c: Cache, l: Listing, done: set<Path>): set<Path> {
    set p | p in l && Wins(read, c, l, p) && (Stays(c, l, p) || p in done)
  }

  ghost function Fresh(read: Reader, c: Cache, l: Listing, done: set<Path>): set<Path> {
    set p | p in l && Wins(read, c, l, p) && !Stays(c, l, p) && p in done
  }

  ghost predicate ParsedUpTo(read: Reader, c: Cache, l: Listing, done: set<Path>, w: Work, added: map<Hash, Info>) {
    && w.files.Keys == l.Keys
    && (forall p :: p in l ==>
          w.files[p] == if p in done then Entry(l[p], HashOf(read, p, l[p])) else Carried(c, l, p, true))
    && Owned(read, l, w.parsed, Settled(read, c, l, done))
    && Owned(read, l, added, Fresh(read, c, l, done))
    && w.blocked == (set p | p in l && (StillBroken(c, l, p) || (p in done && !Wins(read, c, l, p))))
  }

  lemma ComparedIsParsedUpToNothing(read: Reader, before: Listing, c: Cache, l: Listing, w: Work)
    requires Describes(read, before, c) && Compared(c, l, l.Keys, w)
    ensures ParsedUpTo(read, c, l, {}, w, map[])
  {
    hide Describes;
    forall p | p in Settled(read, c, l, {})
      ensures HashAt(read, l, p) in w.parsed && w.parsed[HashAt(read, l, p)] == InfoOf(read, l, p)
    {
      StaysParses(read, before, c, l, p);
    }
    forall h | h in w.parsed
      ensures var p := w.parsed[h].path; p in Settled(read, c, l, {}) && Parses(read, l, p) && HashAt(read, l, p) == h
    {
      StaysParses(read, before, c, l, w.parsed[h].path);
      OwnHash(read, before, c, w.parsed[h].path);
      BrokenDoesNotParse(read, before, c, l, w.parsed[h].path);
    }
  }

  /** When all smaller candidates are done, a parseable candidate wins exactly if its hash is
      not in the table yet. */
  lemma WinsIfHashIsNew(read: Reader, before: Listing, c: Cache, l: Listing, done: set<Path>, w: Work,
                        added: map<Hash, Info>, p: Path)
    requires Describes(read, before, c) && ParsedUpTo(read, c, l, done, w, added)
    requires Turn(c, l, done, p) && Parses(read, l, p)
    ensures HashAt(read, l, p) in w.parsed <==> !Wins(read, c, l, p)
  {
    var h := HashAt(read, l, p);
    if h in w.parsed {
      var q := w.parsed[h].path;
      assert q in Settled(read, c, l, done);
      if Wins(read, c, l, p) { WinnerIsUnique(read, before, c, l, p, q); }
    }
    if !Wins(read, c, l, p) {
      var q := WinnerExists(read, before, c, l, p);
      if !Stays(c, l, q) {
        assert SameHash(read, l, q, p);
        assert Candidate(c, l, q) by { BrokenDoesNotParse(read, before, c, l, q); }
        assert Less(q, p);
      }
      assert q in Settled(read, c, l, done);
    }
  }

  lemma BrokenDoesNotParse(read: Reader, before: Listing, c: Cache, l: Listing, p: Path)
    requires Describes(read, before, c)
    ensures StillBroken(c, l, p) ==> !Parses(read, l, p)
    ensures Unchanged(c, l, p) ==> c.files[p] == Entry(l[p], HashOf(read, p, l[p]))
  {
  }

  lemma OwnedGrows(read: Reader, l: Listing, m: map<Hash, Info>, owners: set<Path>, p: Path)
    requires Owned(read, l, m, owners) && Parses(read, l, p) && HashAt(read, l, p) !in m
    ensures Owned(read, l, m[HashAt(read, l, p) := InfoOf(read, l, p)], owners + {p})
  {
  }

  /** The body of the parsing loop for one path: a known duplicate, an unreadable file, a file
      that turns out to be a duplicate, or a new torrent. */
  function ParseStep(read: Reader, l: Listing, w: Work, added: map<Hash, Info>, p: Path): (Work, map<Hash, Info>)
    requires p in l && p in w.files
  {
    if w.files[p].hash.Some? && w.files[p].hash.value in w.parsed then (w.(blocked := w.blocked + {p}), added)
    else
      match read(p, l[p])
      case None => (w.(blocked := w.blocked + {p}), added)
      case Some(t) =>
        var v := w.(files := w.files[p := Entry(l[p], Some(t.hash))]);
        if t.hash in w.parsed then (v.(blocked := w.blocked + {p}), added)
        else (v.(parsed := w.parsed[t.hash := Info(p, t.meta)]), added[t.hash := Info(p, t.meta)])
  }

  lemma ParseLoser(read: Reader, c: Cache, l: Listing, done: set<Path>, p: Path)
    requires !Wins(read, c, l, p)
    ensures Settled(read, c, l, done + {p}) == Settled(read, c, l, done)
    ensures Fresh(read, c, l, done + {p}) == Fresh(read, c, l, done)
  {
  }

  lemma ParseWinner(read: Reader, c: Cache, l: Listing, done: set<Path>, p: Path)
    requires Wins(read, c, l, p) && !Stays(c, l, p)
    ensures Settled(read, c, l, done + {p}) == Settled(read, c, l, done) + {p}
    ensures Fresh(read, c, l, done + {p}) == Fresh(read, c, l, done) + {p}
  {
  }

  ghost predicate Turn(c: Cache, l: Listing, done: set<Path>, p: Path) {
    && Candidate(c, l, p) && p !in done
    && (forall q :: Candidate(c, l, q) && Less(q, p) ==> q in done)
  }

  lemma ParseStepLoses(read: Reader, c: Cache, l: Listing, done: set<Path>, w: Work, added: map<Hash, Info>, p: Path)
    requires ParsedUpTo(read, c, l, done, w, added) && Candidate(c, l, p) && p !in done
    requires !Wins(read, c, l, p) && (Parses(read, l, p) ==> HashAt(read, l, p) in w.parsed)
    requires Unchanged(c, l, p) ==> c.files[p] == Entry(l[p], HashOf(read, p, l[p]))
    ensures var (r, a) := ParseStep(read, l, w, added, p); ParsedUpTo(read, c, l, done + {p}, r, a)
  {
    hide Wins, Owned, Settled, Fresh;
    ParseLoser(read, c, l, done, p);
  }

  lemma ParseStepWins(read: Reader, c: Cache, l: Listing, done: set<Path>, w: Work, added: map<Hash, Info>, p: Path)
    requires ParsedUpTo(read, c, l, done, w, added) && Candidate(c, l, p) && p !in done
    requires Wins(read, c, l, p) && Parses(read, l, p) && HashAt(read, l, p) !in w.parsed
    requires Unchanged(c, l, p) ==> c.files[p] == Entry(l[p], HashOf(read, p, l[p]))
    ensures var (r, a) := ParseStep(read, l, w, added, p); ParsedUpTo(read, c, l, done + {p}, r, a)
  {
    hide Wins, Owned, Settled, Fresh;
    ParseWinner(read, c, l, done, p);
    HashOfFreshIsNew(read, c, l, done, w, added, HashAt(read, l, p));
    OwnedGrows(read, l, w.parsed, Settled(read, c, l, done), p);
    OwnedGrows(read, l, added, Fresh(read, c, l, done), p);
  }

  lemma ParseStepCorrect(read: Reader, before: Listing, c: Cache, l: Listing, done: set<Path>, w: Work,
                         added: map<Hash, Info>, p: Path)
    requires Describes(read, before, c) && ParsedUpTo(read, c, l, done, w, added) && Turn(c, l, done, p)
    ensures var (r, a) := ParseStep(read, l, w, added, p); ParsedUpTo(read, c, l, done + {p}, r, a)
  {
    hide Describes, ParsedUpTo, ParseStep, Less;
    FilesComplete(read, c, l, done, w, added);
    BrokenDoesNotParse(read, before, c, l, p);
    if Parses(read, l, p) {
      WinsIfHashIsNew(read, before, c, l, done, w, added, p);
    }
    if Wins(read, c, l, p) {
      ParseStepWins(read, c, l, done, w, added, p);
    } else {
      ParseStepLoses(read, c, l, done, w, added, p);
    }
  }

  lemma HashOfFreshIsNew(read: Reader, c: Cache, l: Listing, done: set<Path>, w: Work, added: map<Hash, Info>, h: Hash)
    requires ParsedUpTo(read, c, l, done, w, added)
    ensures h in added ==> h in w.parsed
  {
    if h in added {
      assert added[h].path in Fresh(read, c, l, done);
      assert added[h].path in Settled(read, c, l, done);
    }
  }

  lemma FilesComplete(read: Reader, c: Cache, l: Listing, done: set<Path>, w: Work, added: map<Hash, Info>)
    requires ParsedUpTo(read, c, l, done, w, added)
    ensures w.files.Keys == l.Keys
  {
  }

  method ParseAll(read: Reader, ghost before: Listing, c: Cache, l: Listing, w: Work)
    returns (r: Work, added: map<Hash, Info>)
    requires Describes(read, before, c) && Compared(c, l, l.Keys, w)
    ensures ParsedUpTo(read, c, l, Candidates(c, l), r, added)
    ensures r.removed == w.removed
  {
    var order := Sort(w.toAdd);
    SortSorts(w.toAdd);
    assert Elements(order) == Candidates(c, l);
    r, added := w, map[];
    ComparedIsParsedUpToNothing(read, before, c, l, w);
    assert Elements(order[..0]) == {};
    hide *;
    for i := 0 to |order|
      invariant ParsedUpTo(read, c, l, Elements(order[..i]), r, added)
      invariant r.removed == w.removed
    {
      var p := order[i];
      NextTurn(c, l, order, i);
      FilesComplete(read, c, l, Elements(order[..i]), r, added);
      ParseStepCorrect(read, before, c, l, Elements(order[..i]), r, added, p);
      RemovedUntouched(read, l, r, added, p);
      var (r', added') := ParseStep(read, l, r, added, p);
      r, added := r', added';
    }
    assert order[..|order|] == order;
  }

  lemma RemovedUntouched(read: Reader, l: Listing, w: Work, added: map<Hash, Info>, p: Path)
    requires p in l && p in w.files
    ensures ParseStep(read, l, w, added, p).0.removed == w.removed
  {
  }

  lemma NextTurn(c: Cache, l: Listing, order: seq<Path>, i: nat)
    requires Ascending(order) && Elements(order) == Candidates(c, l) && i < |order|
    ensures order[i] in l && Turn(c, l, Elements(order[..i]), order[i])
    ensures Elements(order[..i + 1]) == Elements(order[..i]) + {order[i]}
  {
    var p := order[i];
    assert p in Elements(order);
    OrderDone(order, i);
    forall q | Candidate(c, l, q) && Less(q, p) ensures q in Elements(order[..i]) {
      assert q in Elements(order);
    }
    assert order[..i + 1] == order[..i] + [p];
  }

  lemma OrderDone(order: seq<Path>, i: nat)
    requires Ascending(order) && i < |order|
    ensures order[i] !in Elements(order[..i])
    ensures forall q :: q in Elements(order) && Less(q, order[i]) ==> q in Elements(order[..i])
  {
    AscendingDistinct(order);
    forall q | q in Elements(order) && Less(q, order[i]) ensures q in Elements(order[..i]) {
      var k :| 0 <= k < |order| && order[k] == q;
      if k == i { LessIrreflexive(q); }
      if i < k { LessAsymmetric(q, order[i]); }
    }
  }

  // ---------------------------------------------------------------- pass three: removals

  /** Old owners that do not stay, leaving aside vanished ones still to be visited. */
  ghost function Gone(c: Cache, l: Listing, todo: set<Path>): map<Hash, Info> {
    map h | h in c.parsed && !Stays(c, l, c.parsed[h].path)
            && (c.parsed[h].path in l || c.parsed[h].path !in todo) :: c.parsed[h]
  }

  lemma GoneGrows(read: Reader, before: Listing, c: Cache, l: Listing, todo: set<Path>, p: Path)
    requires Describes(read, before, c) && p in todo && p in c.files
    ensures !(p !in l && p !in c.blocked) ==> Gone(c, l, todo - {p}) == Gone(c, l, todo)
    ensures p !in l && p !in c.blocked ==>
      && c.files[p].hash.Some? && c.files[p].hash.value in c.parsed
      && Gone(c, l, todo - {p}) == Gone(c, l, todo)[c.files[p].hash.value := c.parsed[c.files[p].hash.value]]
  {
    hide Describes;
    OwnHash(read, before, c, p);
  }

  lemma GoneEnds(read: Reader, before: Listing, c: Cache, l: Listing)
    requires Describes(read, before, c)
    ensures Gone(c, l, c.files.Keys) == map h | h in c.parsed && c.parsed[h].path in l && !Stays(c, l, c.parsed[h].path) :: c.parsed[h]
    ensures Gone(c, l, {}) == map h | h in c.parsed && !Stays(c, l, c.parsed[h].path) :: c.parsed[h]
  {
  }

  method MarkRemoved(read: Reader, ghost before: Listing, c: Cache, l: Listing, start: map<Hash, Info>)
    returns (removed: map<Hash, Info>)
    requires Describes(read, before, c)
    requires start == map h | h in c.parsed && c.parsed[h].path in l && !Stays(c, l, c.parsed[h].path) :: c.parsed[h]
    ensures removed == map h | h in c.parsed && !Stays(c, l, c.parsed[h].path) :: c.parsed[h]
  {
    GoneEnds(read, before, c, l);
    hide *;
    removed := start;
    var todo := c.files.Keys;
    while todo != {}
      invariant todo <= c.files.Keys && removed == Gone(c, l, todo)
    {
      var p :| p in todo;
      GoneGrows(read, before, c, l, todo, p);
      if p !in l && p !in c.blocked {
        var h := c.files[p].hash.value;
        removed := removed[h := c.parsed[h]];
      }
      todo := todo - {p};
    }
  }

  // ---------------------------------------------------------------- the scan

  /** `parsedir` on the caches of an earlier scan. The order in which the loops visit the
      dictionaries does not appear in the result. */
  method ParseDir(read: Reader, ghost before: Listing, c: Cache, l: Listing) returns (o: Outcome)
    requires Describes(read, before, c)
    ensures IsScan(read, c, l, o) && Describes(read, l, o.cache)
  {
    hide Describes, ParsedUpTo, Compared, IsScan;
    var w := Compare(read, before, c, l);
    RemovedTable(c, l, w);
    var r, added := ParseAll(read, before, c, l, w);
    var removed := MarkRemoved(read, before, c, l, w.removed);
    o := Outcome(Cache(r.parsed, r.files, r.blocked), added, removed);
    AllParsedIsScan(read, before, c, l, r, o);
    ScanDescribes(read, before, c, l, o);
  }

  lemma RemovedTable(c: Cache, l: Listing, w: Work)
    requires Compared(c, l, l.Keys, w)
    ensures w.removed == map h | h in c.parsed && c.parsed[h].path in l && !Stays(c, l, c.parsed[h].path) :: c.parsed[h]
  {
  }

  lemma AllParsedIsScan(read: Reader, before: Listing, c: Cache, l: Listing, w: Work, o: Outcome)
    requires Describes(read, before, c)
    requires ParsedUpTo(read, c, l, Candidates(c, l), w, o.added)
    requires o.cache == Cache(w.parsed, w.files, w.blocked)
    requires o.removed == map h | h in c.parsed && !Stays(c, l, c.parsed[h].path) :: c.parsed[h]
    ensures IsScan(read, c, l, o)
  {
    hide Describes, Owned;
    var done := Candidates(c, l);
    forall p | p in l
      ensures w.files[p] == Entry(l[p], HashOf(read, p, l[p])) && (p in w.blocked <==> !Wins(read, c, l, p))
      ensures Wins(read, c, l, p) ==> Stays(c, l, p) || p in done
    {
      BrokenDoesNotParse(read, before, c, l, p);
      if Stays(c, l, p) { StaysParses(read, before, c, l, p); }
    }
    assert Settled(read, c, l, done) == Winners(read, c, l);
    assert Fresh(read, c, l, done) == Newcomers(read, c, l);
    assert w.files == ScanFiles(read, l);
    assert w.blocked == ScanBlocked(read, c, l);
  }

  // ---------------------------------------------------------------- applying the delta

  /** The part of `LaunchMany` a scan touches. A download is represented by the metadata it was
      started with. */
  class LaunchMany {
    const read: Reader
    var cache: Cache
    var downloads: map<Hash, Info>
    var torrentList: seq<Hash>
    ghost var directory: Listing

    /** Every known torrent is downloading, with the metadata now on disk, and listed once. */
    ghost predicate Valid()
      reads this
    {
      && Describes(read, directory, cache)
      && downloads == cache.parsed
      && Lists(torrentList, downloads.Keys)
    }

    constructor (read: Reader)
      ensures Valid() && cache == Empty && this.read == read
    {
      this.read := read;
      cache, downloads, torrentList, directory := Empty, map[], [], map[];
    }

    /** One `scan`: `parsedir`, then every removal, then every addition. */
    method Scan(l: Listing)
      requires Valid()
      modifies this
      ensures Valid() && directory == l
      ensures Exact(read, l, cache) && downloads.Keys == HashesOf(read, l)
      ensures exists o :: IsScan(read, old(cache), l, o) && o.cache == cache
    {
      var o := ParseDir(read, directory, cache, l);
      DeltaIsExact(read, directory, cache, l, o);
      DescribesExact(read, l, o.cache);
      cache, directory := o.cache, l;
      RemoveAll(o.removed.Keys);
      AddAll(o.added);
    }

    method RemoveAll(removed: set<Hash>)
      requires removed <= downloads.Keys && Lists(torrentList, downloads.Keys)
      modifies this`torrentList, this`downloads
      ensures downloads == old(downloads) - removed && Lists(torrentList, downloads.Keys)
    {
      var todo := removed;
      while todo != {}
        invariant todo <= removed
        invariant downloads == old(downloads) - (removed - todo) && Lists(torrentList, downloads.Keys)
      {
        var h :| h in todo;
        Remove(h);
        todo := todo - {h};
        assert old(downloads) - (removed - todo) == downloads;
      }
      assert removed - todo == removed;
    }

    method AddAll(added: map<Hash, Info>)
      requires added.Keys !! downloads.Keys && Lists(torrentList, downloads.Keys)
      requires forall h :: h in added ==> h in cache.parsed && cache.parsed[h] == added[h]
      modifies this`torrentList, this`downloads, this`cache
      ensures downloads == old(downloads) + added && Lists(torrentList, downloads.Keys)
      ensures cache == old(cache)
    {
      var todo := added.Keys;
      while todo != {}
        invariant todo <= added.Keys && cache == old(cache)
        invariant downloads == old(downloads) + (added - todo) && Lists(torrentList, downloads.Keys)
      {
        var h :| h in todo;
        Add(h, added[h]);
        todo := todo - {h};
        assert old(downloads) + (added - todo) == downloads;
      }
      assert added - todo == added;
    }

    method Remove(h: Hash)
      requires h in downloads && Lists(torrentList, downloads.Keys)
      modifies this`torrentList, this`downloads
      ensures downloads == old(downloads) - {h} && Lists(torrentList, downloads.Keys)
    {
      var k := 0;
      while torrentList[k] != h
        invariant 0 <= k < |torrentList| && h !in torrentList[..k]
        decreases |torrentList| - k
      {
        assert h in torrentList;
        k := k + 1;
      }
      DropListed(torrentList, k, downloads.Keys);
      torrentList := torrentList[..k] + torrentList[k + 1..];
      downloads := downloads - {h};
      assert downloads.Keys == old(downloads).Keys - {h};
    }

    /** `add`; a torrent already downloading only gets its trackers merged. */
    method Add(h: Hash, data: Info)
      requires Lists(torrentList, downloads.Keys)
      requires h in cache.parsed && cache.parsed[h] == data
      modifies this`torrentList, this`downloads, this`cache
      ensures Lists(torrentList, downloads.Keys) && cache == old(cache)
      ensures downloads == if h in old(downloads) then old(downloads) else old(downloads)[h := data]
    {
      if h in downloads {
        return;
      }
      torrentList := torrentList + [h];
      downloads := downloads[h := data];
      cache := cache.(parsed := cache.parsed[h := data]);
    }
  }

  ghost predicate Lists(s: seq<Hash>, keys: set<Hash>) {
    Distinct(s) && (forall h :: h in s <==> h in keys)
  }

  lemma DropListed(s: seq<Hash>, k: nat, keys: set<Hash>)
    requires k < |s| && Lists(s, keys)
    ensures Lists(s[..k] + s[k + 1..], keys - {s[k]})
  {
    var r := s[..k] + s[k + 1..];
    forall h ensures h in r <==> h in keys - {s[k]} {
      if h in keys - {s[k]} {
        var i :| 0 <= i < |s| && s[i] == h;
        assert i != k;
        if i < k { assert r[i] == h; } else { assert r[i - 1] == h; }
      }
    }
  }
}
