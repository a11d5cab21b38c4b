/** Byte strings as the Python sources use them: the ordering behind `sort` and `>=` on
    strings, and the decimal numerals behind `str` and `int`. */
module Text {

  datatype Option<+T> = None | Some(value: T)

  // ---------------------------------------------------------------- string order

  /** Python's `<` on byte strings: lexicographic, a proper prefix being smaller. */
  predicate Less(a: string, b: string) {
    if b == [] then false
    else if a == [] then true
    else a[0] < b[0] || (a[0] == b[0] && Less(a[1..], b[1..]))
  }

  lemma {:induction false} LessIrreflexive(a: string)
    ensures !Less(a, a)
  {
    if a != [] { LessIrreflexive(a[1..]); }
  }

  lemma {:induction false} LessTransitive(a: string, b: string, c: string)
    requires Less(a, b) && Less(b, c)
    ensures Less(a, c)
  {
    if a != [] && a[0] == b[0] && b[0] == c[0] {
      LessTransitive(a[1..], b[1..], c[1..]);
    }
  }

  lemma {:induction false} LessTotal(a: string, b: string)
    ensures a == b || Less(a, b) || Less(b, a)
  {
    if a != [] && b != [] && a[0] == b[0] {
      LessTotal(a[1..], b[1..]);
      assert a == [a[0]] + a[1..] && b == [b[0]] + b[1..];
    }
  }

  /** A proper prefix is less, and otherwise the first difference decides. */
  ghost predicate Differs(a: string, b: string, i: nat) {
    i <= |a| && i < |b| && a[..i] == b[..i] && (i == |a| || a[i] as int < b[i] as int)
  }

  lemma {:induction false} LessExactly(a: string, b: string)
    ensures Less(a, b) <==> exists i: nat :: Differs(a, b, i)
  {
    if a == [] {
      assert b != [] ==> Differs(a, b, 0);
    } else if b != [] {
      if a[0] == b[0] {
        LessExactly(a[1..], b[1..]);
        DiffersTail(a, b);
      } else if a[0] < b[0] {
        assert Differs(a, b, 0);
      } else {
        forall i: nat ensures !Differs(a, b, i) {
          if 0 < i <= |a| && i < |b| { assert a[..i][0] == a[0] && b[..i][0] == b[0]; }
        }
      }
    }
  }

  lemma DiffersTail(a: string, b: string)
    requires a != [] && b != [] && a[0] == b[0]
    ensures (exists i: nat :: Differs(a, b, i)) <==> (exists i: nat :: Differs(a[1..], b[1..], i))
  {
    if i: nat :| Differs(a[1..], b[1..], i) {
      assert a[..i + 1] == [a[0]] + a[1..][..i] && b[..i + 1] == [b[0]] + b[1..][..i];
      assert Differs(a, b, i + 1);
    }
    if i: nat :| Differs(a, b, i) {
      assert i > 0;
      assert a[1..][..i - 1] == a[..i][1..] && b[1..][..i - 1] == b[..i][1..];
      assert Differs(a[1..], b[1..], i - 1);
    }
  }

  lemma {:induction false} LessAsymmetric(a: string, b: string)
    requires Less(a, b)
    ensures a != b && !Less(b, a)
  {
    LessIrreflexive(a);
    if Less(b, a) { LessTransitive(a, b, a); }
  }

  /** Everything lexicographically between a prefix `p` and a string that starts with `p`
      also starts with `p`. */
  lemma {:induction false} BetweenPrefix(p: string, q: string, b: string)
    requires p <= b
    requires p == q || Less(p, q)
    requires q == b || Less(q, b)
    ensures p <= q
  {
    if p != [] && p != q && q != b {
      BetweenPrefix(p[1..], q[1..], b[1..]);
      assert p == [p[0]] + p[1..] && q == [q[0]] + q[1..];
    }
  }

  lemma {:induction false} PrefixNotAfter(p: string, b: string)
    requires p <= b
    ensures p == b || Less(p, b)
  {
    if p != [] {
      PrefixNotAfter(p[1..], b[1..]);
      assert p == [p[0]] + p[1..] && b == [b[0]] + b[1..];
    }
  }

  // ---------------------------------------------------------------- sorting

  ghost predicate Ascending(s: seq<string>) {
    forall i, j :: 0 <= i < j < |s| ==> Less(s[i], s[j])
  }

  ghost predicate Distinct<T>(s: seq<T>) {
    forall i, j :: 0 <= i < j < |s| ==> s[i] != s[j]
  }

  ghost function Elements<T>(s: seq<T>): set<T> {
    set x | x in s
  }

  function Insert(s: seq<string>, x: string): seq<string> {
    if s == [] || Less(x, s[0]) then [x] + s else [s[0]] + Insert(s[1..], x)
  }

  /** `list.sort` on a list of distinct strings. */
  function Sort(items: seq<string>): seq<string> {
    if items == [] then [] else Insert(Sort(items[1..]), items[0])
  }

  lemma {:induction false} InsertSorts(s: seq<string>, x: string)
    requires Ascending(s) && x !in s
    ensures Ascending(Insert(s, x)) && |Insert(s, x)| == |s| + 1
    ensures forall y :: y in Insert(s, x) <==> y in s || y == x
  {
    if s != [] {
      if Less(x, s[0]) {
        forall j | 0 < j < |s| ensures Less(x, s[j]) { LessTransitive(x, s[0], s[j]); }
      } else {
        LessTotal(x, s[0]);
        InsertSorts(s[1..], x);
        assert s == [s[0]] + s[1..];
        var r := Insert(s[1..], x);
        forall j | 0 <= j < |r| ensures Less(s[0], r[j]) { assert r[j] in r; }
      }
    }
  }

  lemma {:induction false} SortSorts(items: seq<string>)
    requires Distinct(items)
    ensures Ascending(Sort(items)) && |Sort(items)| == |items| && Elements(Sort(items)) == Elements(items)
  {
    if items != [] {
      var rest := items[1..];
      SortSorts(rest);
      assert items == [items[0]] + rest;
      assert items[0] !in Elements(rest);
      assert items[0] !in Sort(rest) by { assert forall y :: y in Sort(rest) ==> y in Elements(Sort(rest)); }
      InsertSorts(Sort(rest), items[0]);
      assert forall y :: y in Sort(items) <==> y in Elements(rest) || y == items[0];
    }
  }

  lemma AscendingDistinct(s: seq<string>)
    requires Ascending(s)
    ensures Distinct(s)
  {
    forall i, j | 0 <= i < j < |s| ensures s[i] != s[j] {
      LessAsymmetric(s[i], s[j]);
    }
  }

  /** An ascending listing of a set is unique, so sorting forgets the iteration order. */
  lemma {:induction false} AscendingUnique(a: seq<string>, b: seq<string>)
    requires Ascending(a) && Ascending(b) && Elements(a) == Elements(b)
    ensures a == b
    decreases |a|
  {
    if a == [] {
      ElementsEmpty(b);
    } else {
      assert a[0] in Elements(b);
      assert b != [];
      assert b[0] in Elements(a);
      if a[0] != b[0] {
        assert exists i :: 0 < i < |a| && a[i] == b[0];
        assert Less(a[0], b[0]);
        assert exists i :: 0 < i < |b| && b[i] == a[0];
        assert Less(b[0], a[0]);
        LessAsymmetric(a[0], b[0]);
      }
      AscendingDistinct(a);
      AscendingDistinct(b);
      ElementsTail(a);
      ElementsTail(b);
      AscendingUnique(a[1..], b[1..]);
      assert a == [a[0]] + a[1..] && b == [b[0]] + b[1..];
    }
  }

  /** A set of strings in sorted order. */
  ghost function InOrder(keys: set<string>): (r: seq<string>)
    ensures Ascending(r) && Elements(r) == keys
    ensures forall k :: k in r <==> k in keys
  {
    OrderExists(keys);
    var r :| Ascending(r) && Elements(r) == keys;
    assert forall k :: k in r <==> k in Elements(r);
    r
  }

  lemma {:induction false} OrderExists(keys: set<string>)
    ensures exists r :: Ascending(r) && Elements(r) == keys
    decreases keys
  {
    if keys == {} {
      assert Ascending([]) && Elements<string>([]) == keys;
    } else {
      var k :| k in keys;
      OrderExists(keys - {k});
      var r :| Ascending(r) && Elements(r) == keys - {k};
      InsertSorts(r, k);
      assert Elements(Insert(r, k)) == keys by {
        assert forall y :: y in Insert(r, k) <==> y in Elements(r) || y == k;
      }
    }
  }

  lemma ElementsEmpty<T>(s: seq<T>)
    ensures Elements(s) == {} <==> s == []
  {
    if s != [] { assert s[0] in Elements(s); }
  }

  lemma ElementsTail<T>(s: seq<T>)
    requires s != [] && Distinct(s)
    ensures Elements(s[1..]) == Elements(s) - {s[0]}
  {
    assert s == [s[0]] + s[1..];
    forall x | x in Elements(s) && x != s[0] ensures x in s[1..] { }
  }

  /** The keys of a dictionary, met in whatever order, then sorted. */
  method SortedKeys(names: set<string>) returns (keys: seq<string>)
    ensures keys == InOrder(names)
  {
    keys := [];
    var todo := names;
    while todo != {}
      invariant todo <= names && Distinct(keys)
      invariant forall k :: k in keys <==> k in names - todo
    {
      var k :| k in todo;
      assert k !in keys;
      keys := keys + [k];
      todo := todo - {k};
    }
    assert Elements(keys) == names;
    SortSorts(keys);
    keys := Sort(keys);
    AscendingUnique(keys, InOrder(names));
  }

  // ---------------------------------------------------------------- searching

  /** First occurrence of `c` at or after `f`, or the length of the text. */
  function Find(s: string, c: char, f: nat): (i: nat)
    requires f <= |s|
    ensures f <= i <= |s| && c !in s[f..i] && (i < |s| ==> s[i] == c)
    decreases |s| - f
  {
    if f == |s| || s[f] == c then f
    else
      var i := Find(s, c, f + 1);
      assert s[f..i] == [s[f]] + s[f + 1..i];
      i
  }

  lemma {:induction false} FindIs(s: string, c: char, f: nat, i: nat)
    requires f <= i <= |s| && c !in s[f..i] && (i < |s| ==> s[i] == c)
    ensures Find(s, c, f) == i
    decreases i - f
  {
    if f < i {
      assert s[f..i][0] == s[f];
      assert s[f..i] == [s[f]] + s[f + 1..i];
      FindIs(s, c, f + 1, i);
    }
  }

  function LowerChar(c: char): char { if 'A' <= c <= 'Z' then c - 'A' + 'a' else c }

  /** `s.lower()`. */
  function Lower(s: string): string { if s == [] then [] else [LowerChar(s[0])] + Lower(s[1..]) }

  lemma {:induction false} LowerAt(s: string)
    ensures |Lower(s)| == |s|
    ensures forall i :: 0 <= i < |s| ==> Lower(s)[i] as int == s[i] as int + if 65 <= s[i] as int <= 90 then 32 else 0
  {
    if s != [] { LowerAt(s[1..]); }
  }

  lemma Assoc(a: string, b: string, c: string)
    ensures a + b + c == a + (b + c)
  {
  }

  // ---------------------------------------------------------------- decimal numerals

  predicate IsDigit(c: char) { '0' <= c <= '9' }

  function DigitChar(d: nat): (c: char)
    requires d < 10
    ensures IsDigit(c) && DigitValue(c) == d
  {
    '0' + d as char
  }

  function DigitValue(c: char): nat
    requires IsDigit(c)
  {
    (c - '0') as nat
  }

  predicate AllDigits(s: string) {
    forall i :: 0 <= i < |s| ==> IsDigit(s[i])
  }

  /** `str(n)` for a non-negative integer. */
  function Numeral(n: nat): (s: string)
    ensures s != [] && AllDigits(s)
    ensures |s| > 1 ==> s[0] != '0'
    ensures (s[0] == '0') == (n == 0)
  {
    if n < 10 then [DigitChar(n)] else Numeral(n / 10) + [DigitChar(n % 10)]
  }

  /** The number a run of digits denotes. */
  function NumeralValue(s: string): nat
    requires AllDigits(s)
  {
    if s == [] then 0 else 10 * NumeralValue(s[..|s| - 1]) + DigitValue(s[|s| - 1])
  }

  lemma {:induction false} NumeralValueOfNumeral(n: nat)
    ensures NumeralValue(Numeral(n)) == n
  {
    if n < 10 {
      assert NumeralValue([DigitChar(n)][..0]) == 0;
    } else {
      NumeralValueOfNumeral(n / 10);
      assert Numeral(n)[..|Numeral(n)| - 1] == Numeral(n / 10);
    }
  }

  /** Only the printed form of a number is a numeral without leading zeros. */
  lemma {:induction false} NumeralOfNumeralValue(s: string)
    requires s != [] && AllDigits(s) && (|s| > 1 ==> s[0] != '0')
    ensures Numeral(NumeralValue(s)) == s
    ensures s[0] != '0' ==> NumeralValue(s) > 0
  {
    var front, d := s[..|s| - 1], DigitValue(s[|s| - 1]);
    assert s == front + [DigitChar(d)];
    if front != [] {
      NumeralOfNumeralValue(front);
      var v := NumeralValue(front);
      assert NumeralValue(s) / 10 == v && NumeralValue(s) % 10 == d;
    } else {
      assert NumeralValue(front) == 0;
    }
  }

  /** `str(i)` for any integer. */
  function IntText(i: int): (s: string)
    ensures s != [] && (i < 0 <==> s[0] == '-')
  {
    if i < 0 then "-" + Numeral(-i) else Numeral(i)
  }

  /** `int(s)` on plain decimal numerals, an optional minus sign and at least one digit. */
  function ParseInt(s: string): Option<int> {
    if s != [] && AllDigits(s) then Some(NumeralValue(s))
    else if |s| > 1 && s[0] == '-' && AllDigits(s[1..]) then Some(0 - NumeralValue(s[1..]))
    else None
  }

  lemma ParseIntOfIntText(i: int)
    ensures ParseInt(IntText(i)) == Some(i)
  {
    if i < 0 {
      NumeralValueOfNumeral(-i);
      assert IntText(i)[1..] == Numeral(-i);
      assert !IsDigit(IntText(i)[0]);
    } else {
      NumeralValueOfNumeral(i);
    }
  }
}
