/** The allowed-address index: address blocks as bit prefixes in one sorted list, looked up by
    bisection (subnetparse.py). */
module Subnet {
  import opened Text

  predicate AtMost(a: string, b: string) { a == b || Less(a, b) }

  lemma {:induction false} AtMostTransitive(a: string, b: string, c: string)
    requires AtMost(a, b) && AtMost(b, c)
    ensures AtMost(a, c) && (Less(b, c) ==> Less(a, c))
  {
    if a != b && b != c { LessTransitive(a, b, c); }
  }

  lemma {:induction false} AtMostOrLess(a: string, b: string)
    ensures AtMost(a, b) <==> !Less(b, a)
  {
    LessTotal(a, b);
    if a == b { LessIrreflexive(a); } else if Less(a, b) { LessAsymmetric(a, b); }
  }

  ghost predicate Sorted(l: seq<string>) {
    forall i, j :: 0 <= i < j < |l| ==> AtMost(l[i], l[j])
  }

  // ---------------------------------------------------------------- what the list should answer

  /** Some block contains the address. */
  ghost predicate Covered(l: seq<string>, b: string) {
    exists i :: 0 <= i < |l| && l[i] <= b
  }

  /** Some block lies below the address, does not contain it, and is above every block that does. */
  ghost predicate Shadowed(l: seq<string>, b: string) {
    exists i :: 0 <= i < |l| && Shadows(l, b, i)
  }

  ghost predicate Shadows(l: seq<string>, b: string, i: nat)
    requires i < |l|
  {
    Less(l[i], b) && !(l[i] <= b) && forall j :: 0 <= j < |l| && l[j] <= b ==> Less(l[j], l[i])
  }

  /** No block contains another (equal blocks may repeat). */
  ghost predicate Antichain(l: seq<string>) {
    forall i, j :: 0 <= i < |l| && 0 <= j < |l| && l[i] <= l[j] ==> l[i] == l[j]
  }

  /** `p` is where bisection on `b` stops. */
  ghost predicate Splits(l: seq<string>, b: string, p: nat) {
    && p <= |l|
    && (forall i :: 0 <= i < p ==> AtMost(l[i], b))
    && (forall i :: p <= i < |l| ==> Less(b, l[i]))
  }

  lemma CoverIsBelow(l: seq<string>, b: string, p: nat, j: nat)
    requires Splits(l, b, p) && j < |l| && l[j] <= b
    ensures j < p
  {
    PrefixNotAfter(l[j], b);
    AtMostOrLess(l[j], b);
  }

  /** The last entry not above the address decides: the answer is right unless it is shadowed. */
  lemma LastEntryDecides(l: seq<string>, b: string, p: nat)
    requires Sorted(l) && Splits(l, b, p)
    ensures Covered(l, b) && !Shadowed(l, b) <==> p > 0 && l[p - 1] <= b
  {
    hide Less, Covered;
    if p > 0 && l[p - 1] <= b {
      CoveredBy(l, b, p - 1);
      forall i | 0 <= i < |l| ensures !Shadows(l, b, i) {
        AtMostOrLess(l[i], l[p - 1]);
        if Less(l[i], b) { AtMostOrLess(l[i], b); }
      }
    } else if Covered(l, b) {
      CoveredWitness(l, b);
      var j :| 0 <= j < |l| && l[j] <= b;
      CoverIsBelow(l, b, p, j);
      assert Shadows(l, b, p - 1) by {
        forall j | 0 <= j < |l| && l[j] <= b ensures Less(l[j], l[p - 1]) {
          CoverIsBelow(l, b, p, j);
        }
      }
    }
  }

  lemma CoveredBy(l: seq<string>, b: string, i: nat)
    requires i < |l| && l[i] <= b
    ensures Covered(l, b)
  {
  }

  lemma CoveredWitness(l: seq<string>, b: string)
    requires Covered(l, b)
    ensures exists i :: 0 <= i < |l| && l[i] <= b
  {
  }

  /** Without nested blocks nothing is shadowed: what lies between a block and an address in it
      starts with that block too. */
  lemma AntichainCastsNoShadow(l: seq<string>, b: string)
    requires Antichain(l) && Covered(l, b)
    ensures !Shadowed(l, b)
  {
    hide Less, Shadowed;
    var j :| 0 <= j < |l| && l[j] <= b;
    forall i | 0 <= i < |l| ensures !Shadows(l, b, i) {
      if Less(l[j], l[i]) && Less(l[i], b) {
        BetweenPrefix(l[j], l[i], b);
      }
    }
    NoShadow(l, b);
  }

  lemma NoShadow(l: seq<string>, b: string)
    requires forall i :: 0 <= i < |l| ==> !Shadows(l, b, i)
    ensures !Shadowed(l, b)
  {
  }

  // ---------------------------------------------------------------- lists that are right everywhere

  ghost predicate IsBits(b: string) { forall i :: 0 <= i < |b| ==> b[i] == '0' || b[i] == '1' }

  function Repeat(c: char, n: nat): (s: string)
    ensures |s| == n && forall i :: 0 <= i < n ==> s[i] == c
  {
    if n == 0 then [] else [c] + Repeat(c, n - 1)
  }

  /** The `n`-bit address right after the last one of a block, if there is one. */
  function Next(q: string, n: nat): (s: Option<string>)
    requires |q| <= n
  {
    if q == [] then None
    else
      match Next(q[1..], n - 1)
      case Some(t) => Some([q[0]] + t)
      case None => if q[0] == '0' then Some("1" + Repeat('0', n - 1)) else None
  }

  lemma {:induction false} NextIsAbove(q: string, n: nat)
    requires |q| <= n && IsBits(q) && Next(q, n).Some?
    ensures var s := Next(q, n).value; |s| == n && IsBits(s) && Less(q, s) && !(q <= s)
  {
    var s := Next(q, n).value;
    if Next(q[1..], n - 1).Some? {
      NextIsAbove(q[1..], n - 1);
      assert s[1..] == Next(q[1..], n - 1).value;
    } else {
      assert q[0] != s[0];
    }
  }

  lemma {:induction false} ZerosAreLeast(b: string)
    requires IsBits(b)
    ensures AtMost(Repeat('0', |b|), b)
  {
    if b != [] {
      ZerosAreLeast(b[1..]);
      assert Repeat('0', |b|)[1..] == Repeat('0', |b| - 1);
      assert b == [b[0]] + b[1..];
    }
  }

  /** Every address above a block and outside it is at or after the block's next address. */
  lemma {:induction false} NextIsLeast(q: string, b: string)
    requires |q| <= |b| && IsBits(q) && IsBits(b) && Less(q, b) && !(q <= b)
    ensures Next(q, |b|).Some? && AtMost(Next(q, |b|).value, b)
  {
    var n := |b|;
    assert b == [b[0]] + b[1..];
    if q[0] == b[0] {
      assert q == [q[0]] + q[1..];
      NextIsLeast(q[1..], b[1..]);
      var t := Next(q[1..], n - 1).value;
      assert ([q[0]] + t)[1..] == t;
    } else if Next(q[1..], n - 1).None? {
      ZerosAreLeast(b[1..]);
      assert ("1" + Repeat('0', n - 1))[1..] == Repeat('0', n - 1);
    }
  }

  /** Whenever some block contains both block `i` and the address right after it, another block
      starts at that address. */
  ghost predicate Followed(l: seq<string>, n: nat, i: nat)
    requires i < |l| && |l[i]| <= n
  {
    match Next(l[i], n)
    case None => true
    case Some(s) => (exists p :: 0 <= p < |l| && l[p] <= l[i] && l[p] <= s) ==> (exists j :: 0 <= j < |l| && Less(l[i], l[j]) && l[j] <= s)
  }

  ghost predicate AreBlocks(l: seq<string>, n: nat) {
    forall i :: 0 <= i < |l| ==> |l[i]| <= n && IsBits(l[i])
  }

  ghost predicate RightAt(l: seq<string>, b: string) { Covered(l, b) ==> !Shadowed(l, b) }

  lemma {:induction false} SplitPoint(l: seq<string>, b: string) returns (p: nat)
    requires Sorted(l)
    ensures Splits(l, b, p)
  {
    hide Less;
    p := 0;
    while p < |l| && AtMost(l[p], b)
      invariant p <= |l| && forall i :: 0 <= i < p ==> AtMost(l[i], b)
    {
      p := p + 1;
    }
    if p < |l| {
      AtMostOrLess(l[p], b);
      forall i | p <= i < |l| ensures Less(b, l[i]) {
        if p < i && l[p] != l[i] { LessTransitive(b, l[p], l[i]); }
      }
    }
  }

  lemma FollowedIsRight(l: seq<string>, b: string)
    requires Sorted(l) && AreBlocks(l, |b|) && IsBits(b)
    requires forall i :: 0 <= i < |l| ==> Followed(l, |b|, i)
    ensures RightAt(l, b)
  {
    hide Less, Shadowed, IsBits, Next;
    var p := SplitPoint(l, b);
    LastEntryDecides(l, b, p);
    if Covered(l, b) {
      var c :| 0 <= c < |l| && l[c] <= b;
      CoverIsBelow(l, b, p, c);
      var q := l[p - 1];
      if !(q <= b) {
        NextIsLeast(q, b);
        var s := Next(q, |b|).value;
        NextIsAbove(q, |b|);
        BetweenPrefix(l[c], q, b);
        AtMostTransitive(l[c], q, s);
        BetweenPrefix(l[c], s, b);
        assert Followed(l, |b|, p - 1);
        var j :| 0 <= j < |l| && Less(q, l[j]) && l[j] <= s;
        PrefixNotAfter(l[j], s);
        AtMostTransitive(l[j], s, b);
        AtMostOrLess(l[j], b);
        AtMostOrLess(l[j], q);
        assert false;
      }
    }
  }

  lemma {:induction false} RightIsFollowed(l: seq<string>, n: nat, i: nat)
    requires AreBlocks(l, n) && i < |l|
    requires Next(l[i], n).Some? ==> RightAt(l, Next(l[i], n).value)
    ensures Followed(l, n, i)
  {
    hide Less, IsBits, Next;
    if Next(l[i], n).Some? {
      var s := Next(l[i], n).value;
      NextIsAbove(l[i], n);
      if p :| 0 <= p < |l| && l[p] <= l[i] && l[p] <= s {
        assert !Shadows(l, s, i);
        var j :| 0 <= j < |l| && l[j] <= s && !Less(l[j], l[i]);
        AtMostOrLess(l[i], l[j]);
      }
    }
  }

  /** The index is right for every `n`-bit address if and only if every block that lies inside a
      larger one reaching past it is followed at once by another block. */
  lemma RightEverywhereExactly(l: seq<string>, n: nat)
    requires Sorted(l) && AreBlocks(l, n)
    ensures (forall b :: |b| == n && IsBits(b) ==> RightAt(l, b)) <==> (forall i :: 0 <= i < |l| ==> Followed(l, n, i))
  {
    hide Less, RightAt, Followed, Sorted, IsBits, Next;
    if forall b :: |b| == n && IsBits(b) ==> RightAt(l, b) {
      forall i | 0 <= i < |l| ensures Followed(l, n, i) {
        if Next(l[i], n).Some? { NextIsAbove(l[i], n); }
        RightIsFollowed(l, n, i);
      }
    }
    if forall i :: 0 <= i < |l| ==> Followed(l, n, i) {
      forall b | |b| == n && IsBits(b) ensures RightAt(l, b) { FollowedIsRight(l, b); }
    }
  }

  // ---------------------------------------------------------------- bisection

  /** `bisect`: how many elements are at most `x`. */
  method Bisect(l: seq<string>, x: string) returns (p: nat)
    requires Sorted(l)
    ensures Splits(l, x, p)
  {
    hide Less;
    p := 0;
    var hi := |l|;
    while p < hi
      invariant p <= hi <= |l|
      invariant forall i :: 0 <= i < p ==> AtMost(l[i], x)
      invariant forall i :: hi <= i < |l| ==> Less(x, l[i])
    {
      var mid := (p + hi) / 2;
      AtMostOrLess(l[mid], x);
      if Less(x, l[mid]) {
        forall i | mid <= i < |l| ensures Less(x, l[i]) {
          if mid < i && l[mid] != l[i] { LessTransitive(x, l[mid], l[i]); }
        }
        hi := mid;
      } else {
        forall i | 0 <= i <= mid ensures AtMost(l[i], x) {
          if i < mid { AtMostTransitive(l[i], l[mid], x); }
        }
        p := mid + 1;
      }
    }
  }

  /** `insort`. */
  method Insort(l: seq<string>, x: string) returns (r: seq<string>)
    requires Sorted(l)
    ensures Sorted(r) && multiset(r) == multiset(l) + multiset{x}
  {
    hide Less;
    var p := Bisect(l, x);
    r := l[..p] + [x] + l[p..];
    assert l == l[..p] + l[p..];
  }

  /** `list.sort`. */
  method SortList(l: seq<string>) returns (r: seq<string>)
    ensures Sorted(r) && multiset(r) == multiset(l)
  {
    r := [];
    for k := 0 to |l|
      invariant Sorted(r) && multiset(r) == multiset(l[..k])
    {
      r := Insort(r, l[k]);
      assert l[..k + 1] == l[..k] + [l[k]];
    }
    assert l[..|l|] == l;
  }

  /** The search loop of `includes`: for every sorted list and address the answer is "covered and
      not shadowed". */
  method Search(l: seq<string>, b: string) returns (found: bool)
    requires Sorted(l)
    ensures found <==> Covered(l, b) && !Shadowed(l, b)
  {
    hide Less, Covered, Shadowed;
    var p := Bisect(l, b);
    LastEntryDecides(l, b, p);
    var k := if p > 0 then p - 1 else if l == [] then 0 else |l| - 1;
    while k < |l|
      invariant k >= p - 1
      invariant k >= p ==> !(p > 0 && l[p - 1] <= b)
    {
      if l[k] <= b {
        CoverIsBelow(l, b, p, k);
        return true;
      }
      if Less(b, l[k]) {
        AtMostOrLess(l[k], b);
        return false;
      }
      k := k + 1;
    }
    return false;
  }

  // ---------------------------------------------------------------- the list object

  /** An address as its bit field: 32 bits, or 128. */
  datatype Address = V4(bits: string) | V6(bits: string)

  ghost predicate IsAddress(a: Address) {
    |a.bits| == if a.V4? then 32 else 128
  }

  /** The first 96 bits of ::ffff:0:0. */
  function Mask(): string { Repeat('0', 80) + Repeat('1', 16) }

  /** The bits looked up: an IPv4-mapped address counts as IPv4. */
  function Key(a: Address): (b: string)
    requires IsAddress(a)
    ensures |b| == 32 || |b| == 128
    ensures |b| == 32 <==> a.V4? || Mask() <= a.bits
  {
    if a.V6? && Mask() <= a.bits then a.bits[96..] else a.bits
  }

  /** Python's `s[:n]`. */
  function Front(s: string, n: int): (r: string)
    ensures r <= s
  {
    if n >= |s| then s else if n >= 0 then s[..n] else if n + |s| >= 0 then s[..n + |s|] else []
  }

  /** A block: the first `depth` bits, counted from bit 96 for a mapped address. */
  function Block(a: Address, depth: int): string
    requires IsAddress(a)
  {
    Front(Key(a), if a.V6? && Mask() <= a.bits then depth - 96 else depth)
  }

  datatype Entry = Entry(address: Address, depth: int)

  ghost predicate AreEntries(entries: seq<Entry>) {
    forall i :: 0 <= i < |entries| ==> IsAddress(entries[i].address)
  }

  /** The blocks of one family, in the order they were entered. */
  ghost function Blocks(entries: seq<Entry>, width: nat): (l: seq<string>)
    requires AreEntries(entries)
  {
    if entries == [] then []
    else
      var rest, e := Blocks(entries[..|entries| - 1], width), entries[|entries| - 1];
      if |Key(e.address)| == width then rest + [Block(e.address, e.depth)] else rest
  }

  lemma NoBlocks()
    ensures Blocks([], 32) == [] && Blocks([], 128) == []
  {
  }

  lemma {:induction false} BlocksAdd(entries: seq<Entry>, e: Entry, width: nat)
    requires AreEntries(entries) && IsAddress(e.address)
    ensures AreEntries(entries + [e])
    ensures Blocks(entries + [e], width)
      == Blocks(entries, width) + if |Key(e.address)| == width then [Block(e.address, e.depth)] else []
  {
    assert (entries + [e])[..|entries|] == entries;
  }

  /** Cover and nesting do not depend on the order of the list. */
  lemma SameBlocks(l: seq<string>, m: seq<string>, b: string)
    requires multiset(l) == multiset(m)
    ensures (Covered(l, b) <==> Covered(m, b)) && (Antichain(l) <==> Antichain(m))
    ensures Shadowed(l, b) <==> Shadowed(m, b)
  {
    BlocksIn(l, m, b);
    BlocksIn(m, l, b);
  }

  lemma BlocksIn(l: seq<string>, m: seq<string>, b: string)
    requires multiset(l) == multiset(m)
    ensures (Covered(l, b) ==> Covered(m, b)) && (Antichain(l) ==> Antichain(m))
    ensures Shadowed(l, b) ==> Shadowed(m, b)
  {
    hide Less;
    forall x ensures x in l <==> x in m { assert x in multiset(l) <==> x in multiset(m); }
    if Covered(l, b) {
      var i :| 0 <= i < |l| && l[i] <= b;
      assert l[i] in m;
    }
    if Shadowed(l, b) {
      var i :| 0 <= i < |l| && Shadows(l, b, i);
      assert l[i] in m;
      var k :| 0 <= k < |m| && m[k] == l[i];
      forall j | 0 <= j < |m| && m[j] <= b ensures Less(m[j], m[k]) { assert m[j] in l; }
      assert Shadows(m, b, k);
    }
    if Antichain(l) {
      forall i, j | 0 <= i < |m| && 0 <= j < |m| && m[i] <= m[j] ensures m[i] == m[j] {
        assert m[i] in l && m[j] in l;
      }
    }
  }

  // ---------------------------------------------------------------- what an entry contains

  /** Every address as 128 bits; an IPv4 address is mapped behind 80 zeros and 16 ones. */
  function Full(a: Address): string { if a.V4? then Repeat('0', 80) + Repeat('1', 16) + a.bits else a.bits }

  /** The first 96 bits say whether the address is, or stands for, an IPv4 address. */
  predicate IsFour(a: Address)
    requires IsAddress(a)
  {
    Full(a)[..96] == Repeat('0', 80) + Repeat('1', 16)
  }

  /** How many of the 128 bits an entry fixes; a depth beyond the end fixes them all. */
  function Fixed(e: Entry): int {
    var n := if e.address.V4? then e.depth + 96 else e.depth;
    if n > 128 then 128 else n
  }

  /** The depths a block can have: not negative, and at least 96 for a mapped address. */
  predicate InRange(e: Entry)
    requires IsAddress(e.address)
  {
    Fixed(e) >= if IsFour(e.address) then 96 else 0
  }

  /** The entry and the address agree on all the bits the entry fixes. */
  predicate Agrees(e: Entry, a: Address)
    requires IsAddress(e.address) && IsAddress(a) && InRange(e)
  {
    (IsFour(e.address) <==> IsFour(a)) && Full(e.address)[..Fixed(e)] == Full(a)[..Fixed(e)]
  }

  lemma KeyIs(a: Address)
    requires IsAddress(a)
    ensures |Key(a)| == 32 <==> IsFour(a)
    ensures Full(a) == if IsFour(a) then Mask() + Key(a) else Key(a)
  {
    if a.V4? {
      assert Full(a)[..96] == Mask();
    } else {
      assert Mask() <= a.bits <==> a.bits[..96] == Mask();
      if Mask() <= a.bits { assert a.bits == a.bits[..96] + a.bits[96..]; }
    }
  }

  /** A stored block is a prefix of an address's key exactly when entry and address agree. */
  lemma BlockExactly(e: Entry, a: Address)
    requires IsAddress(e.address) && IsAddress(a) && InRange(e) && |Key(e.address)| == |Key(a)|
    ensures Block(e.address, e.depth) <= Key(a) <==> Agrees(e, a)
  {
    KeyIs(e.address);
    KeyIs(a);
    hide Repeat, Key;
    var n, k, l := Fixed(e), Key(e.address), Key(a);
    if IsFour(e.address) {
      assert Full(e.address)[..n] == Mask() + k[..n - 96] && Full(a)[..n] == Mask() + l[..n - 96];
      PrefixAfterMask(k, l, n - 96);
      BlockIs(e, n - 96);
    } else {
      BlockIs(e, n);
    }
    PrefixCut(k, l, if IsFour(e.address) then n - 96 else n);
  }

  lemma BlockIs(e: Entry, n: nat)
    requires IsAddress(e.address) && InRange(e) && n == Fixed(e) - if IsFour(e.address) then 96 else 0
    ensures n <= |Key(e.address)| && Block(e.address, e.depth) == Key(e.address)[..n]
  {
    KeyIs(e.address);
    hide Repeat;
  }

  lemma PrefixCut(k: string, l: string, n: nat)
    requires n <= |k| == |l|
    ensures k[..n] <= l <==> k[..n] == l[..n]
  {
  }

  lemma PrefixAfterMask(k: string, l: string, n: nat)
    requires n <= |k| == |l|
    ensures Mask() + k[..n] == Mask() + l[..n] <==> k[..n] == l[..n]
  {
    hide Mask;
    var m := Mask();
    if m + k[..n] == m + l[..n] { assert (m + k[..n])[|m|..] == k[..n] && (m + l[..n])[|m|..] == l[..n]; }
  }

  /** For any list of entries: the address is covered exactly when it agrees with some entry. */
  lemma {:induction false} CoveredExactly(entries: seq<Entry>, a: Address)
    requires AreEntries(entries) && IsAddress(a) && forall i :: 0 <= i < |entries| ==> InRange(entries[i])
    ensures Covered(Blocks(entries, |Key(a)|), Key(a)) <==> exists i :: 0 <= i < |entries| && Agrees(entries[i], a)
    decreases |entries|
  {
    hide Agrees, Key, Block, InRange, Covered;
    if entries == [] {
      NothingCovered(Key(a));
    } else {
      var n := |entries| - 1;
      var front, e, b := entries[..n], entries[n], Key(a);
      CoveredExactly(front, a);
      assert entries == front + [e];
      AgreesFamily(e, a);
      if |Key(e.address)| == |b| {
        BlockExactly(e, a);
        CoveredLast(Blocks(front, |b|), Block(e.address, e.depth), b);
      }
      assert forall i :: 0 <= i < n ==> front[i] == entries[i];
    }
  }

  lemma AgreesFamily(e: Entry, a: Address)
    requires IsAddress(e.address) && IsAddress(a) && InRange(e)
    ensures Agrees(e, a) ==> |Key(e.address)| == |Key(a)|
  {
    KeyIs(e.address);
    KeyIs(a);
  }

  lemma CoveredLast(l: seq<string>, x: string, b: string)
    ensures Covered(l + [x], b) <==> Covered(l, b) || x <= b
  {
    var all := l + [x];
    if Covered(l, b) {
      var i :| 0 <= i < |l| && l[i] <= b;
      assert all[i] <= b;
    }
    if x <= b { assert all[|l|] <= b; }
  }

  // ---------------------------------------------------------------- a nested block

  /** The low `width` bits of a number, as text (`chrbinmap` for eight). */
  function Bits(n: nat, width: nat): (s: string)
    ensures |s| == width
  {
    if width == 0 then [] else Bits(n / 2, width - 1) + [if n % 2 == 1 then '1' else '0']
  }

  /** A dotted quad (`to_bitfield_ipv4`). */
  function Quad(a: nat, b: nat, c: nat, d: nat): (r: Address)
    ensures IsAddress(r)
  {
    V4(Bits(a, 8) + Bits(b, 8) + Bits(c, 8) + Bits(d, 8))
  }

  lemma {:induction false} LessAfter(p: string, a: string, b: string)
    requires Less(a, b)
    ensures Less(p + a, p + b)
  {
    if p == [] {
      assert p + a == a && p + b == b;
    } else {
      LessAfter(p[1..], a, b);
      assert (p + a)[1..] == p[1..] + a && (p + b)[1..] == p[1..] + b;
    }
  }

  /** A block `p` with a nested block `p + q`, and an address of `p` past the nested one. */
  lemma {:induction false} InnerHidesOuter(p: string, q: string, rest: string)
    requires Less(q, rest) && !(q <= rest)
    ensures var l, b := [p, p + q], p + rest; Covered(l, b) && Shadowed(l, b)
  {
    hide Less;
    var l, b := [p, p + q], p + rest;
    assert l[0] <= b;
    LessAfter(p, q, rest);
    assert b[|p|..] == rest && (p + q)[|p|..] == q;
    assert !(p + q <= b);
    PrefixNotAfter(p, p + q);
    assert q != [];
    assert Shadows(l, b, 1);
  }

  lemma {:induction false} NextTo(z: string)
    ensures var q, rest := Bits(0, 8), Bits(1, 8) + z; Less(q, rest) && !(q <= rest)
  {
    hide Bits;
    var seven := Bits(0, 7);
    LastBit(0, 7);
    LastBit(1, 7);
    assert "1" + z != [] && ("1" + z)[0] == '1';
    assert Less("0", "1" + z);
    LessAfter(seven, "0", "1" + z);
    Assoc(seven, "1", z);
    assert (seven + "0")[7] == '0' && (seven + "1" + z)[7] == '1';
  }

  lemma LastBit(n: nat, width: nat)
    requires n < 2
    ensures Bits(n, width + 1) == Bits(0, width) + if n == 1 then "1" else "0"
  {
  }

  /** A nested block hides its surroundings: with 10.0.0.0/8 and 10.0.0.0/16 in the list, 10.1.0.0
      is in a block and the list denies it. */
  lemma {:induction false} NestedBlockShadows()
    ensures var entries, address := [Entry(Quad(10, 0, 0, 0), 8), Entry(Quad(10, 0, 0, 0), 16)], Quad(10, 1, 0, 0);
      var l, b := Blocks(entries, 32), Key(address);
      |b| == 32 && Covered(l, b) && Shadowed(l, b)
  {
    hide Bits, Less, Covered, Shadowed;
    var outer, inner := Entry(Quad(10, 0, 0, 0), 8), Entry(Quad(10, 0, 0, 0), 16);
    var ten, zero, one := Bits(10, 8), Bits(0, 8), Bits(1, 8);
    assert [outer, inner][..1] == [outer] && [outer][..0] == [];
    assert Block(outer.address, 8) == ten && Block(inner.address, 16) == ten + zero;
    assert Blocks([outer], 32) == [ten];
    assert Blocks([outer, inner], 32) == [ten, ten + zero];
    NextTo(zero + zero);
    Assoc(one, zero, zero);
    Assoc(ten, one, zero);
    Assoc(ten, one + zero, zero);
    InnerHidesOuter(ten, zero, one + (zero + zero));
  }

  class IpList {
    var ipv4list: seq<string>
    var ipv6list: seq<string>

    ghost predicate Collected(entries: seq<Entry>)
      reads this
    {
      && AreEntries(entries)
      && multiset(ipv4list) == multiset(Blocks(entries, 32))
      && multiset(ipv6list) == multiset(Blocks(entries, 128))
    }

    ghost predicate Stores(entries: seq<Entry>)
      reads this
    {
      Collected(entries) && Sorted(ipv4list) && Sorted(ipv6list)
    }

    constructor (entries: seq<Entry>)
      requires AreEntries(entries)
      ensures Stores(entries)
    {
      hide Blocks, Sorted, Less;
      ipv4list, ipv6list := [], [];
      new;
      NoBlocks();
      assert entries[..0] == [];
      for k := 0 to |entries|
        invariant Collected(entries[..k])
      {
        AppendUnsorted(entries[k], entries[..k]);
        assert entries[..k + 1] == entries[..k] + [entries[k]];
      }
      assert entries[..|entries|] == entries;
      ipv4list := SortList(ipv4list);
      ipv6list := SortList(ipv6list);
    }

    /** `_append`. */
    method AppendUnsorted(e: Entry, ghost entries: seq<Entry>)
      requires Collected(entries) && IsAddress(e.address)
      modifies this
      ensures Collected(entries + [e])
    {
      BlocksAdd(entries, e, 32);
      BlocksAdd(entries, e, 128);
      if |Key(e.address)| == 32 {
        ipv4list := ipv4list + [Block(e.address, e.depth)];
      } else {
        ipv6list := ipv6list + [Block(e.address, e.depth)];
      }
    }

    method Append(e: Entry, ghost entries: seq<Entry>)
      requires Stores(entries) && IsAddress(e.address)
      modifies this
      ensures Stores(entries + [e])
    {
      BlocksAdd(entries, e, 32);
      BlocksAdd(entries, e, 128);
      if |Key(e.address)| == 32 {
        ipv4list := Insort(ipv4list, Block(e.address, e.depth));
      } else {
        ipv6list := Insort(ipv6list, Block(e.address, e.depth));
      }
    }

    /** For every list of entries and every address: true exactly when a block of the address's
        family contains it and no block shadows it; without nested blocks, exactly when a block
        contains it. */
    method Includes(a: Address, ghost entries: seq<Entry>) returns (found: bool)
      requires Stores(entries) && IsAddress(a)
      ensures var b := Key(a); var l := Blocks(entries, |b|);
        && (found <==> Covered(l, b) && !Shadowed(l, b))
        && (Antichain(l) ==> (found <==> Covered(l, b)))
    {
      hide Covered, Shadowed, Antichain, Sorted, Blocks, Less;
      var b := Key(a);
      ghost var blocks := Blocks(entries, |b|);
      var l := if |b| > 32 then ipv6list else ipv4list;
      SameBlocks(l, blocks, b);
      if Antichain(blocks) && Covered(blocks, b) { AntichainCastsNoShadow(blocks, b); }
      if ipv4list == [] && ipv6list == [] {
        NothingCovered(b);
        return false;
      }
      found := Search(l, b);
    }
  }

  lemma NothingCovered(b: string)
    ensures !Covered([], b)
  {
  }
}
