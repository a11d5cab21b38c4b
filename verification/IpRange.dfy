/** The banned-address index: overlapping ranges merged on import, looked up by bisection
    (iprangeparse.py). */
module IpRange {
  import opened Text

  /** A pair (begin, end). A range is proper when `first <= last`; reversed pairs reach `_import`
      too, because the constructor compares the two addresses as texts. */
  datatype Range = Range(first: int, last: int)

  predicate Proper(r: Range) { r.first <= r.last }

  predicate Holds(r: Range, ip: int) { r.first <= ip <= r.last }

  // ---------------------------------------------------------------- what a list of ranges means

  ghost predicate InUnion(entries: set<Range>, ip: int) {
    exists r :: r in entries && Holds(r, ip)
  }

  /** The start of a reversed pair answers true, unless a proper range ends right before it. */
  ghost predicate Stray(entries: set<Range>, ip: int) {
    && (exists r :: r in entries && !Proper(r) && r.first == ip)
    && (forall r :: r in entries && Proper(r) ==> r.last != ip - 1)
  }

  ghost predicate Blocked(entries: set<Range>, ip: int) {
    InUnion(entries, ip) || Stray(entries, ip)
  }

  ghost predicate AllProper(entries: set<Range>) { forall r :: r in entries ==> Proper(r) }

  lemma ProperRangesMeanTheirUnion(entries: set<Range>, ip: int)
    requires AllProper(entries)
    ensures Blocked(entries, ip) <==> InUnion(entries, ip)
  {
  }

  /** A dotted quad as text, and its value (`to_long_ipv4`). */
  function QuadText(a: nat, b: nat, c: nat, d: nat): string {
    Numeral(a) + "." + Numeral(b) + "." + Numeral(c) + "." + Numeral(d)
  }

  function Quad(a: nat, b: nat, c: nat, d: nat): nat { ((a * 256 + b) * 256 + c) * 256 + d }

  /** The textual check accepts the pair 10.0.0.0-9.0.0.0 although 10.0.0.0 is the greater address.
      The reversed pair blocks its own first address, unless a range ends right before it. */
  lemma ReversedPairBlocksItsStart()
    ensures Less(QuadText(10, 0, 0, 0), QuadText(9, 0, 0, 0)) && Quad(10, 0, 0, 0) > Quad(9, 0, 0, 0)
    ensures var ip := Quad(10, 0, 0, 0); var r := Range(ip, Quad(9, 0, 0, 0));
      && Blocked({r}, ip) && !InUnion({r}, ip)
      && !Blocked({r, Range(Quad(4, 0, 0, 0), Quad(9, 255, 255, 255))}, ip)
  {
    assert Numeral(10) == Numeral(1) + [DigitChar(0)];
    assert QuadText(10, 0, 0, 0)[0] == '1' && QuadText(9, 0, 0, 0)[0] == '9';
    var ip := Quad(10, 0, 0, 0);
    var r, below := Range(ip, Quad(9, 0, 0, 0)), Range(Quad(4, 0, 0, 0), Quad(9, 255, 255, 255));
    assert r in {r} && !Proper(r);
    assert below in {r, below} && Proper(below) && below.last == ip - 1;
  }

  // ---------------------------------------------------------------- merged runs

  /** What `includes` checks of one entry. */
  predicate Hit(r: Range, ip: int) { ip == r.first || r.first < ip <= r.last }

  ghost predicate Kept(runs: seq<Range>, ip: int) {
    exists i :: 0 <= i < |runs| && Hit(runs[i], ip)
  }

  /** At least one missing address between the end of a run and any later run. */
  ghost predicate Separated(runs: seq<Range>) {
    forall i, j :: 0 <= i < j < |runs| ==> runs[i].last + 1 < runs[j].first && runs[i].first <= runs[j].first
  }

  ghost predicate AllRunsProper(runs: seq<Range>) {
    forall i :: 0 <= i < |runs| ==> Proper(runs[i])
  }

  /** The run being built bounds every end seen, and its end is one of them. */
  ghost predicate Current(seen: set<Range>, run: Range) {
    && (forall r :: r in seen ==> r.last <= run.last || r.last + 1 < run.first)
    && (exists r :: r in seen && r.last == run.last && (Proper(run) ==> Proper(r)))
  }

  lemma KeptLast(runs: seq<Range>, run: Range, ip: int)
    ensures Kept(runs + [run], ip) <==> Kept(runs, ip) || Hit(run, ip)
  {
    var all := runs + [run];
    if Kept(runs, ip) {
      var i :| 0 <= i < |runs| && Hit(runs[i], ip);
      assert Hit(all[i], ip);
    }
    if Hit(run, ip) { assert Hit(all[|runs|], ip); }
  }

  lemma UnionAdd(seen: set<Range>, r: Range, ip: int)
    ensures InUnion(seen + {r}, ip) <==> InUnion(seen, ip) || Holds(r, ip)
  {
    if Holds(r, ip) { assert r in seen + {r}; }
  }

  /** A later proper entry takes no stray start away. */
  lemma StrayAddProper(seen: set<Range>, r: Range, ip: int)
    requires Proper(r) && forall s :: s in seen ==> s.first <= r.first
    ensures Stray(seen + {r}, ip) <==> Stray(seen, ip)
  {
  }

  lemma StrayAddReversed(seen: set<Range>, r: Range, ip: int)
    requires !Proper(r)
    ensures Stray(seen, ip) ==> Stray(seen + {r}, ip)
    ensures Stray(seen + {r}, ip) ==> Stray(seen, ip) || ip == r.first
    ensures Stray(seen + {r}, r.first) <==> forall s :: s in seen && Proper(s) ==> s.last != r.first - 1
  {
    assert r in seen + {r};
  }

  /** The entry overlaps or touches the current run. */
  lemma MergeStep(runs: seq<Range>, run: Range, seen: set<Range>, r: Range, ip: int)
    requires Current(seen, run) && run.first <= r.first && forall s :: s in seen ==> s.first <= r.first
    requires run.last + 1 >= r.first
    requires Kept(runs + [run], ip) <==> Blocked(seen, ip)
    ensures var next := Range(run.first, if run.last >= r.last then run.last else r.last);
      Kept(runs + [next], ip) <==> Blocked(seen + {r}, ip)
  {
    var next := Range(run.first, if run.last >= r.last then run.last else r.last);
    KeptLast(runs, run, ip);
    KeptLast(runs, next, ip);
    UnionAdd(seen, r, ip);
    hide Kept, InUnion;
    if Proper(r) {
      StrayAddProper(seen, r, ip);
    } else {
      StrayAddReversed(seen, r, ip);
    }
  }

  /** The entry starts a new run. */
  lemma NewRunStep(runs: seq<Range>, run: Range, seen: set<Range>, r: Range, ip: int)
    requires Current(seen, run) && run.first <= r.first && forall s :: s in seen ==> s.first <= r.first
    requires run.last + 1 < r.first
    requires Kept(runs + [run], ip) <==> Blocked(seen, ip)
    ensures Kept(runs + [run] + [r], ip) <==> Blocked(seen + {r}, ip)
  {
    KeptLast(runs + [run], r, ip);
    UnionAdd(seen, r, ip);
    hide Kept, InUnion;
    if Proper(r) {
      StrayAddProper(seen, r, ip);
    } else {
      StrayAddReversed(seen, r, ip);
    }
  }

  // ---------------------------------------------------------------- sorting pairs

  predicate Before(r: Range, s: Range) { r.first < s.first || (r.first == s.first && r.last <= s.last) }

  ghost predicate Sorted(s: seq<Range>) { forall i, j :: 0 <= i < j < |s| ==> Before(s[i], s[j]) }

  function InsertRange(s: seq<Range>, r: Range): seq<Range> {
    if s == [] || Before(r, s[0]) then [r] + s else [s[0]] + InsertRange(s[1..], r)
  }

  /** `entrylist.sort()`. */
  function SortRanges(s: seq<Range>): seq<Range> {
    if s == [] then [] else InsertRange(SortRanges(s[1..]), s[0])
  }

  lemma {:induction false} InsertRangeSorts(s: seq<Range>, r: Range)
    requires Sorted(s)
    ensures Sorted(InsertRange(s, r)) && multiset(InsertRange(s, r)) == multiset(s) + multiset{r}
  {
    if s != [] && !Before(r, s[0]) {
      InsertRangeSorts(s[1..], r);
      var t := InsertRange(s[1..], r);
      assert s == [s[0]] + s[1..];
      forall j | 0 <= j < |t| ensures Before(s[0], t[j]) {
        assert t[j] in multiset(t);
        assert t[j] in s[1..] || t[j] == r;
      }
    }
  }

  lemma {:induction false} SortRangesSorts(s: seq<Range>)
    ensures Sorted(SortRanges(s)) && multiset(SortRanges(s)) == multiset(s)
  {
    if s != [] {
      SortRangesSorts(s[1..]);
      InsertRangeSorts(SortRanges(s[1..]), s[0]);
      assert s == [s[0]] + s[1..];
    }
  }

  lemma SameElements(s: seq<Range>, t: seq<Range>)
    requires multiset(s) == multiset(t)
    ensures Elements(s) == Elements(t)
  {
    forall r ensures r in s <==> r in t { assert r in multiset(s) <==> r in multiset(t); }
  }

  // ---------------------------------------------------------------- the import loop

  ghost predicate Tracks(runs: seq<Range>, run: Range, seen: set<Range>) {
    && Current(seen, run) && Separated(runs + [run])
    && (AllProper(seen) ==> AllRunsProper(runs + [run]))
    && (forall ip :: Kept(runs + [run], ip) <==> Blocked(seen, ip))
  }

  lemma TracksStart(r: Range)
    ensures Tracks([], r, {r})
  {
    assert [] + [r] == [r];
    forall ip ensures Kept([] + [r], ip) <==> Blocked({r}, ip) {
      KeptLast([], r, ip);
      UnionAdd({}, r, ip);
      assert {} + {r} == {r};
      if !Proper(r) { StrayAddReversed({}, r, ip); }
    }
  }

  lemma TracksMerge(runs: seq<Range>, run: Range, seen: set<Range>, r: Range)
    requires Tracks(runs, run, seen) && run.first <= r.first && forall s :: s in seen ==> s.first <= r.first
    requires run.last + 1 >= r.first
    ensures Tracks(runs, Range(run.first, if run.last >= r.last then run.last else r.last), seen + {r})
  {
    var next := Range(run.first, if run.last >= r.last then run.last else r.last);
    forall ip ensures Kept(runs + [next], ip) <==> Blocked(seen + {r}, ip) {
      MergeStep(runs, run, seen, r, ip);
    }
    hide Kept, Blocked;
    assert Current(seen + {r}, next) by {
      assert r in seen + {r};
    }
    assert (runs + [run])[|runs|] == run;
    assert forall i :: 0 <= i < |runs| ==> (runs + [run])[i] == runs[i];
    assert AllProper(seen + {r}) ==> AllProper(seen);
    assert AllProper(seen + {r}) ==> Proper(next);
  }

  lemma TracksNewRun(runs: seq<Range>, run: Range, seen: set<Range>, r: Range)
    requires Tracks(runs, run, seen) && run.first <= r.first && forall s :: s in seen ==> s.first <= r.first
    requires run.last + 1 < r.first
    ensures Tracks(runs + [run], r, seen + {r})
  {
    forall ip ensures Kept(runs + [run] + [r], ip) <==> Blocked(seen + {r}, ip) {
      NewRunStep(runs, run, seen, r, ip);
    }
    hide Kept, Blocked;
    assert r in seen + {r};
    assert (runs + [run])[|runs|] == run;
    assert AllProper(seen + {r}) ==> AllProper(seen) && Proper(r);
  }

  /** The sort and merge loop of `_import_ipv4` and `_import_ipv6`: for every list of pairs, the
      runs are separated and hit exactly the blocked addresses; proper pairs give proper runs. */
  method Merge(entries: seq<Range>) returns (runs: seq<Range>)
    requires entries != []
    ensures Separated(runs) && (AllProper(Elements(entries)) ==> AllRunsProper(runs))
    ensures forall ip :: Kept(runs, ip) <==> Blocked(Elements(entries), ip)
  {
    hide Tracks, Kept, Blocked, Separated, AllRunsProper, AllProper, Sorted;
    SortRangesSorts(entries);
    var s := SortRanges(entries);
    SameElements(s, entries);
    runs := [];
    var run := s[0];
    ghost var seen := {s[0]};
    TracksStart(run);
    for k := 0 to |s|
      invariant Tracks(runs, run, seen) && Ahead(s, k, run, seen)
    {
      var r := s[k];
      AheadNext(s, k, run, seen);
      if run.last + 1 >= r.first {
        TracksMerge(runs, run, seen, r);
        run := Range(run.first, if run.last >= r.last then run.last else r.last);
      } else {
        TracksNewRun(runs, run, seen, r);
        runs := runs + [run];
        run := r;
      }
      seen := seen + {r};
    }
    AheadEnds(s, run, seen);
    TracksMeans(runs, run, seen);
    runs := runs + [run];
  }

  /** What is still to come starts no earlier than the run or anything seen; seen are the first `k`
      entries, and the very first one from the start. */
  ghost predicate Ahead(s: seq<Range>, k: nat, run: Range, seen: set<Range>) {
    && k <= |s| && s != []
    && (k < |s| ==> run.first <= s[k].first && forall r :: r in seen ==> r.first <= s[k].first)
    && (forall r :: r in seen <==> r in s[..k] || r == s[0])
  }

  lemma AheadNext(s: seq<Range>, k: nat, run: Range, seen: set<Range>)
    requires Sorted(s) && Ahead(s, k, run, seen) && k < |s|
    ensures run.first <= s[k].first && forall r :: r in seen ==> r.first <= s[k].first
    ensures forall next: Range :: next.first <= s[k].first ==> Ahead(s, k + 1, next, seen + {s[k]})
  {
    assert s[..k + 1] == s[..k] + [s[k]];
    assert k + 1 < |s| ==> Before(s[k], s[k + 1]);
  }

  lemma AheadEnds(s: seq<Range>, run: Range, seen: set<Range>)
    requires Ahead(s, |s|, run, seen)
    ensures seen == Elements(s)
  {
    assert s[..|s|] == s;
  }

  lemma TracksMeans(runs: seq<Range>, run: Range, seen: set<Range>)
    requires Tracks(runs, run, seen)
    ensures Separated(runs + [run]) && (AllProper(seen) ==> AllRunsProper(runs + [run]))
    ensures forall ip :: Kept(runs + [run], ip) <==> Blocked(seen, ip)
  {
  }

  /** Separated proper runs are a normal form: the set of addresses alone determines them, so the
      order and the overlaps of the imported pairs leave no trace. */
  lemma {:induction false} RunsAreCanonical(a: seq<Range>, b: seq<Range>)
    requires Separated(a) && AllRunsProper(a) && Separated(b) && AllRunsProper(b)
    requires forall ip :: Kept(a, ip) <==> Kept(b, ip)
    ensures a == b
    decreases |a|
  {
    hide Kept, Separated, AllRunsProper;
    NothingKept();
    if a != [] { FirstKept(a); }
    if b != [] { FirstKept(b); }
    if a != [] && b != [] {
      RunsStartTogether(a, b);
      forall ip ensures Kept(a[1..], ip) <==> Kept(b[1..], ip) {
        KeptTail(a, ip);
        KeptTail(b, ip);
        assert Kept(a, ip) <==> Kept(b, ip);
      }
      TailRuns(a);
      TailRuns(b);
      RunsAreCanonical(a[1..], b[1..]);
      assert a == [a[0]] + a[1..] && b == [b[0]] + b[1..];
    }
  }

  lemma NothingKept()
    ensures forall ip :: !Kept([], ip)
  {
  }

  lemma FirstKept(a: seq<Range>)
    requires a != []
    ensures Kept(a, a[0].first)
  {
    assert Hit(a[0], a[0].first);
  }

  lemma TailRuns(a: seq<Range>)
    requires a != [] && Separated(a) && AllRunsProper(a)
    ensures Separated(a[1..]) && AllRunsProper(a[1..])
  {
  }

  lemma KeptTail(a: seq<Range>, ip: int)
    requires a != [] && Separated(a) && AllRunsProper(a)
    ensures Kept(a[1..], ip) <==> Kept(a, ip) && ip > a[0].last
  {
    if Kept(a[1..], ip) {
      var i :| 0 <= i < |a| - 1 && Hit(a[1..][i], ip);
      assert Hit(a[i + 1], ip);
    }
    if Kept(a, ip) && ip > a[0].last {
      var i :| 0 <= i < |a| && Hit(a[i], ip);
      assert i > 0 && Hit(a[1..][i - 1], ip);
    }
  }

  lemma RunsStartTogether(a: seq<Range>, b: seq<Range>)
    requires a != [] && b != [] && Separated(a) && AllRunsProper(a) && Separated(b) && AllRunsProper(b)
    requires forall ip :: Kept(a, ip) <==> Kept(b, ip)
    ensures a[0] == b[0]
  {
    assert Hit(a[0], a[0].first) && Hit(b[0], b[0].first);
    assert Kept(a, a[0].first) && Kept(b, b[0].first);
    assert Kept(b, a[0].first) && Kept(a, b[0].first);
    assert a[0].first == b[0].first;
    EndsNoLater(a, b);
    EndsNoLater(b, a);
  }

  lemma EndsNoLater(a: seq<Range>, b: seq<Range>)
    requires a != [] && b != [] && Separated(a) && AllRunsProper(a) && Separated(b) && AllRunsProper(b)
    requires a[0].first == b[0].first
    requires forall ip :: Kept(a, ip) <==> Kept(b, ip)
    ensures a[0].last >= b[0].last
  {
    var ip := a[0].last + 1;
    assert !Kept(a, ip);
    assert !Hit(b[0], ip);
  }

  // ---------------------------------------------------------------- the index

  /** What the lists of starts and ends say of an address. */
  ghost predicate Lookup(starts: seq<int>, ends: map<int, int>, ip: int)
    requires forall i :: 0 <= i < |starts| ==> starts[i] in ends
  {
    exists i :: 0 <= i < |starts| && Hit(Range(starts[i], ends[starts[i]]), ip)
  }

  /** Ascending starts, each range ending well before the next greater start. */
  ghost predicate IsIndex(starts: seq<int>, ends: map<int, int>) {
    && (forall i :: 0 <= i < |starts| ==> starts[i] in ends)
    && (forall i, j :: 0 <= i < j < |starts| ==> starts[i] <= starts[j])
    && (forall i, j :: 0 <= i < j < |starts| ==> starts[i] == starts[j] || ends[starts[i]] + 1 < starts[j])
  }

  ghost predicate Indexes(starts: seq<int>, ends: map<int, int>, entries: set<Range>) {
    IsIndex(starts, ends) && forall ip :: Lookup(starts, ends, ip) <==> Blocked(entries, ip)
  }

  /** A repeated start keeps its last end. */
  ghost predicate EndsOf(runs: seq<Range>, ends: map<int, int>) {
    && (forall i :: 0 <= i < |runs| ==> runs[i].first in ends)
    && (forall f :: f in ends ==> exists j :: LastWith(runs, f, j) && ends[f] == runs[j].last)
  }

  ghost predicate LastWith(runs: seq<Range>, f: int, j: int) {
    0 <= j < |runs| && runs[j].first == f && forall m :: j < m < |runs| ==> runs[m].first != f
  }

  lemma EndsOfNext(runs: seq<Range>, ends: map<int, int>, r: Range)
    requires EndsOf(runs, ends)
    ensures EndsOf(runs + [r], ends[r.first := r.last])
  {
    var all, more := runs + [r], ends[r.first := r.last];
    forall f | f in more ensures exists j :: LastWith(all, f, j) && more[f] == all[j].last {
      if f == r.first {
        assert LastWith(all, f, |runs|);
      } else {
        var j :| LastWith(runs, f, j) && ends[f] == runs[j].last;
        assert LastWith(all, f, j);
      }
    }
  }

  /** Where the end of a start that occurs in the runs comes from. */
  lemma EndIs(runs: seq<Range>, ends: map<int, int>, i: nat)
    requires Separated(runs) && EndsOf(runs, ends) && i < |runs|
    ensures exists j :: i <= j < |runs| && runs[j] == Range(runs[i].first, ends[runs[i].first])
    ensures ends[runs[i].first] == runs[i].last || !Proper(runs[i])
  {
    var f := runs[i].first;
    var j :| LastWith(runs, f, j) && ends[f] == runs[j].last;
    assert runs[j] == Range(f, ends[f]);
  }

  lemma RunsIndex(runs: seq<Range>, starts: seq<int>, ends: map<int, int>, entries: set<Range>)
    requires Separated(runs) && EndsOf(runs, ends)
    requires |starts| == |runs| && forall i :: 0 <= i < |runs| ==> starts[i] == runs[i].first
    requires forall ip :: Kept(runs, ip) <==> Blocked(entries, ip)
    ensures Indexes(starts, ends, entries)
  {
    hide Blocked;
    forall i, j | 0 <= i < j < |runs| ensures starts[i] == starts[j] || ends[starts[i]] + 1 < starts[j] {
      EndIs(runs, ends, i);
      var k :| i <= k < |runs| && runs[k] == Range(runs[i].first, ends[runs[i].first]);
      if k >= j { assert runs[i].first <= runs[j].first <= runs[k].first; }
    }
    forall ip ensures Lookup(starts, ends, ip) <==> Kept(runs, ip) {
      LookupIsKept(runs, starts, ends, ip);
    }
  }

  lemma LookupIsKept(runs: seq<Range>, starts: seq<int>, ends: map<int, int>, ip: int)
    requires Separated(runs) && EndsOf(runs, ends)
    requires |starts| == |runs| && forall i :: 0 <= i < |runs| ==> starts[i] == runs[i].first
    ensures Lookup(starts, ends, ip) <==> Kept(runs, ip)
  {
    if Lookup(starts, ends, ip) {
      var i :| 0 <= i < |starts| && Hit(Range(starts[i], ends[starts[i]]), ip);
      EndIs(runs, ends, i);
      var j :| i <= j < |runs| && runs[j] == Range(runs[i].first, ends[runs[i].first]);
      assert Hit(runs[j], ip);
    }
    if Kept(runs, ip) {
      var i :| 0 <= i < |runs| && Hit(runs[i], ip);
      EndIs(runs, ends, i);
      assert Hit(Range(starts[i], ends[starts[i]]), ip);
    }
  }

  /** `_import_ipv4` and `_import_ipv6`. */
  method Import(entries: seq<Range>) returns (starts: seq<int>, ends: map<int, int>)
    ensures Indexes(starts, ends, Elements(entries))
    ensures entries == [] ==> starts == []
  {
    starts, ends := [], map[];
    if entries == [] {
      return;
    }
    var runs := Merge(entries);
    hide Separated, Kept, Blocked, LastWith;
    for k := 0 to |runs|
      invariant |starts| == k && forall i :: 0 <= i < k ==> starts[i] == runs[i].first
      invariant EndsOf(runs[..k], ends)
    {
      EndsOfNext(runs[..k], ends, runs[k]);
      assert runs[..k + 1] == runs[..k] + [runs[k]];
      starts := starts + [runs[k].first];
      ends := ends[runs[k].first := runs[k].last];
    }
    assert runs[..|runs|] == runs;
    RunsIndex(runs, starts, ends, Elements(entries));
  }

  // ---------------------------------------------------------------- lookup

  /** `bisect`: how many elements are at most `x`. */
  method Bisect(l: seq<int>, x: int) returns (p: nat)
    requires forall i, j :: 0 <= i < j < |l| ==> l[i] <= l[j]
    ensures p <= |l| && (forall i :: 0 <= i < p ==> l[i] <= x) && (forall i :: p <= i < |l| ==> x < l[i])
  {
    p := 0;
    var hi := |l|;
    while p < hi
      invariant p <= hi <= |l|
      invariant (forall i :: 0 <= i < p ==> l[i] <= x) && (forall i :: hi <= i < |l| ==> x < l[i])
    {
      var mid := (p + hi) / 2;
      if x < l[mid] { hi := mid; } else { p := mid + 1; }
    }
  }

  /** Only the last start not above the address can answer for it. */
  lemma LastStartDecides(starts: seq<int>, ends: map<int, int>, ip: int, p: nat)
    requires IsIndex(starts, ends) && p <= |starts|
    requires (forall i :: 0 <= i < p ==> starts[i] <= ip) && (forall i :: p <= i < |starts| ==> ip < starts[i])
    ensures Lookup(starts, ends, ip) <==> p > 0 && Hit(Range(starts[p - 1], ends[starts[p - 1]]), ip)
  {
    if Lookup(starts, ends, ip) {
      var i :| 0 <= i < |starts| && Hit(Range(starts[i], ends[starts[i]]), ip);
      assert i < p;
    }
  }

  /** The search loop; with no start below the address Python's slice `[-1:]` is the last element. */
  method Search(starts: seq<int>, ends: map<int, int>, ip: int) returns (found: bool)
    requires IsIndex(starts, ends)
    ensures found <==> Lookup(starts, ends, ip)
  {
    var p := Bisect(starts, ip);
    LastStartDecides(starts, ends, ip, p);
    var k := if p > 0 then p - 1 else if starts == [] then 0 else |starts| - 1;
    while k < |starts|
      invariant k >= p ==> !Lookup(starts, ends, ip)
      invariant k >= p - 1
    {
      var first := starts[k];
      if ip == first {
        return true;
      }
      var last := ends[first];
      if ip > first && ip <= last {
        return true;
      }
      k := k + 1;
    }
    return false;
  }

  // ---------------------------------------------------------------- the list object

  datatype Address = V4(n: int) | V6(n: int)
  datatype Entry = Entry4(r: Range) | Entry6(r: Range)

  /** The test for an IPv4-mapped address: a remainder below 2^32 compared with a mask above it. */
  predicate Mapped(n: int) { n % 0x1_0000_0000 == 65535 * 0x1_0000_0000 }

  ghost function Of4(entries: seq<Entry>): set<Range> { set e | e in entries && e.Entry4? :: e.r }
  ghost function Of6(entries: seq<Entry>): set<Range> { set e | e in entries && e.Entry6? :: e.r }

  lemma OfAdd(entries: seq<Entry>, e: Entry)
    ensures Of4(entries + [e]) == Of4(entries) + if e.Entry4? then {e.r} else {}
    ensures Of6(entries + [e]) == Of6(entries) + if e.Entry6? then {e.r} else {}
  {
    var all := entries + [e];
    assert forall x :: x in all <==> x in entries || x == e;
    forall r ensures r in Of4(all) <==> r in Of4(entries) || e == Entry4(r) {
      assert r in Of4(all) <==> Entry4(r) in all;
      assert r in Of4(entries) <==> Entry4(r) in entries;
    }
    forall r ensures r in Of6(all) <==> r in Of6(entries) || e == Entry6(r) {
      assert r in Of6(all) <==> Entry6(r) in all;
      assert r in Of6(entries) <==> Entry6(r) in entries;
    }
  }

  lemma ElementsAdd(s: seq<Range>, r: Range)
    ensures Elements(s + [r]) == Elements(s) + {r}
  {
  }

  class IpRangeList {
    var ipv4list: seq<int>
    var ipv4dict: map<int, int>
    var ipv6list: seq<int>
    var ipv6dict: map<int, int>

    ghost predicate Stores(entries: seq<Entry>)
      reads this
    {
      Indexes(ipv4list, ipv4dict, Of4(entries)) && Indexes(ipv6list, ipv6dict, Of6(entries))
    }

    constructor (entries: seq<Entry>)
      ensures Stores(entries)
    {
      var l4: seq<Range>, l6: seq<Range> := [], [];
      for k := 0 to |entries|
        invariant Elements(l4) == Of4(entries[..k]) && Elements(l6) == Of6(entries[..k])
      {
        var e := entries[k];
        assert entries[..k + 1] == entries[..k] + [e];
        OfAdd(entries[..k], e);
        ElementsAdd(l4, e.r);
        ElementsAdd(l6, e.r);
        if e.Entry4? {
          l4 := l4 + [e.r];
        } else if Mapped(e.r.first) {
          assert false;
        } else {
          l6 := l6 + [e.r];
        }
      }
      assert entries[..|entries|] == entries;
      var s4, d4 := Import(l4);
      var s6, d6 := Import(l6);
      ipv4list, ipv4dict, ipv6list, ipv6dict := s4, d4, s6, d6;
    }

    /** True exactly for the addresses that the entries of the same family block; an IPv4-mapped
        IPv6 address is looked up among the IPv6 entries only. */
    method Includes(ip: Address, ghost entries: seq<Entry>) returns (found: bool)
      requires Stores(entries)
      ensures found <==> Blocked(if ip.V4? then Of4(entries) else Of6(entries), ip.n)
    {
      hide Blocked, Of4, Of6;
      if ipv4list == [] && ipv6list == [] {
        assert !Lookup(ipv4list, ipv4dict, ip.n) && !Lookup(ipv6list, ipv6dict, ip.n);
        return false;
      }
      if ip.V4? {
        found := Search(ipv4list, ipv4dict, ip.n);
      } else if Mapped(ip.n) {
        assert false;
      } else {
        found := Search(ipv6list, ipv6dict, ip.n);
      }
    }
  }
}
