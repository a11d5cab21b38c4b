/** Bencoding (bencode.py): what the printer writes, and the position-based parser as functions. */
module Bencode {
  import opened Text

  datatype Value =
    | Int(i: int)
    | Str(s: string)
    | List(items: seq<Value>)
    | Dict(entries: map<string, Value>)

  // ---------------------------------------------------------------- printed form

  function EncodeStr(s: string): string { Numeral(|s|) + ":" + s }

  ghost function Encode(v: Value): string
    decreases v, 1
  {
    match v
    case Int(i) => "i" + IntText(i) + "e"
    case Str(s) => EncodeStr(s)
    case List(items) => "l" + EncodeItems(items) + "e"
    case Dict(entries) => "d" + EncodeEntries(v, InOrder(entries.Keys)) + "e"
  }

  ghost function EncodeItems(items: seq<Value>): string {
    if items == [] then [] else Encode(items[0]) + EncodeItems(items[1..])
  }

  ghost function EncodeEntries(v: Value, keys: seq<string>): string
    requires v.Dict? && forall k :: k in keys ==> k in v.entries
    decreases v, 0, keys
  {
    if keys == [] then []
    else EncodeStr(keys[0]) + Encode(v.entries[keys[0]]) + EncodeEntries(v, keys[1..])
  }

  // ---------------------------------------------------------------- parser

  /** `x.index(c, f)`. */
  function IndexOf(x: string, c: char, f: nat): (r: Option<nat>)
    ensures r.Some? ==> f <= r.value < |x| && x[r.value] == c && c !in x[f..r.value]
  {
    if f > |x| then None
    else
      var i := Find(x, c, f);
      if i == |x| then None else Some(i)
  }

  /** The value read and the position after it, or `None` for the source's exceptions. */
  type Parsed<T> = Option<(T, nat)>

  function DecodeInt(x: string, f: nat): (r: Parsed<Value>)
    requires f < |x|
    ensures r.Some? ==> f < r.value.1
  {
    match IndexOf(x, 'e', f + 1)
    case None => None
    case Some(newf) =>
      var text := x[f + 1..newf];
      match ParseInt(text)
      case None => None
      case Some(n) =>
        if text[0] == '-' then
          if text[1] == '0' then None else Some((Int(n), newf + 1))
        else if text[0] == '0' && newf != f + 2 then None
        else Some((Int(n), newf + 1))
  }

  /** Length prefixes are plain digit runs. The slice is cut short when the text ends early. */
  function DecodeString(x: string, f: nat): (r: Parsed<string>)
    ensures r.Some? ==> f < r.value.1
  {
    match IndexOf(x, ':', f)
    case None => None
    case Some(colon) =>
      var text := x[f..colon];
      if text == [] || !AllDigits(text) then None
      else if text[0] == '0' && colon != f + 1 then None
      else
        var begin, n := colon + 1, NumeralValue(text);
        Some((x[begin..if begin + n < |x| then begin + n else |x|], begin + n))
  }

  function Decode(x: string, f: nat): (r: Parsed<Value>)
    ensures r.Some? ==> f < r.value.1
    decreases |x| - f, 0
  {
    if f >= |x| then None
    else if x[f] == 'i' then DecodeInt(x, f)
    else if x[f] == 'l' then
      match DecodeItems(x, f + 1)
      case None => None
      case Some((items, g)) => Some((List(items), g))
    else if x[f] == 'd' then
      match DecodeEntries(x, f + 1, None)
      case None => None
      case Some((entries, g)) => Some((Dict(entries), g))
    else if IsDigit(x[f]) then
      match DecodeString(x, f)
      case None => None
      case Some((s, g)) => Some((Str(s), g))
    else None
  }

  function DecodeItems(x: string, f: nat): (r: Parsed<seq<Value>>)
    ensures r.Some? ==> f < r.value.1 <= |x|
    decreases |x| - f, 1
  {
    if f >= |x| then None
    else if x[f] == 'e' then Some(([], f + 1))
    else
      match Decode(x, f)
      case None => None
      case Some((v, g)) =>
        match DecodeItems(x, g)
        case None => None
        case Some((rest, h)) => Some(([v] + rest, h))
  }

  /** Python's `lastkey >= k`, with no key yet comparing below everything. */
  predicate NotAbove(k: string, lastkey: Option<string>) {
    lastkey.Some? && (k == lastkey.value || Less(k, lastkey.value))
  }

  function DecodeEntries(x: string, f: nat, lastkey: Option<string>): (r: Parsed<map<string, Value>>)
    ensures r.Some? ==> f < r.value.1 <= |x|
    decreases |x| - f, 1
  {
    if f >= |x| then None
    else if x[f] == 'e' then Some((map[], f + 1))
    else
      match DecodeString(x, f)
      case None => None
      case Some((k, g)) =>
        if NotAbove(k, lastkey) then None
        else
          match Decode(x, g)
          case None => None
          case Some((v, h)) =>
            match DecodeEntries(x, h, Some(k))
            case None => None
            case Some((rest, e)) => Some((rest[k := v], e))
  }

  /** `bdecode`; `sloppy` skips the test that the whole text was used. */
  function BDecode(x: string, sloppy: bool): Option<Value> {
    match Decode(x, 0)
    case None => None
    case Some((v, l)) => if !sloppy && l != |x| then None else Some(v)
  }

  // ---------------------------------------------------------------- text at a position

  predicate At(x: string, f: nat, s: string) {
    f + |s| <= |x| && x[f..f + |s|] == s
  }

  lemma AtSplit(x: string, f: nat, a: string, b: string)
    ensures At(x, f, a + b) <==> At(x, f, a) && At(x, f + |a|, b)
  {
    if f + |a + b| <= |x| {
      var s := x[f..f + |a + b|];
      assert s[..|a|] == x[f..f + |a|] && s[|a|..] == x[f + |a|..f + |a| + |b|];
      assert (a + b)[..|a|] == a && (a + b)[|a|..] == b;
      if At(x, f, a) && At(x, f + |a|, b) { assert s == s[..|a|] + s[|a|..]; }
    }
  }

  lemma AtChar(x: string, f: nat, c: char)
    ensures At(x, f, [c]) <==> f < |x| && x[f] == c
  {
    if f < |x| { assert x[f..f + 1] == [x[f]]; }
  }

  lemma AtStart(x: string, f: nat, s: string)
    requires At(x, f, s) && s != []
    ensures f < |x| && x[f] == s[0]
  {
    assert x[f..f + |s|][0] == x[f];
  }

  lemma NoChar(s: string, c: char)
    requires AllDigits(s) && !IsDigit(c)
    ensures c !in s
  {
  }

  // ---------------------------------------------------------------- strings and integers

  /** A string is read back from its printed form, and only from it, when it fits the text. */
  lemma StringExact(x: string, f: nat, s: string, g: nat)
    ensures DecodeString(x, f) == Some((s, g)) && g <= |x| <==> At(x, f, EncodeStr(s)) && g == f + |EncodeStr(s)|
  {
    if DecodeString(x, f) == Some((s, g)) && g <= |x| {
      StringCanonical(x, f, s, g);
    }
    if At(x, f, EncodeStr(s)) && g == f + |EncodeStr(s)| {
      StringRoundTrip(x, f, s);
    }
  }

  /** Digits followed by a terminator: `index` finds the terminator and the slice is the digits. */
  lemma FindEnd(x: string, f: nat, text: string, c: char)
    requires At(x, f, text + [c]) && c !in text
    ensures IndexOf(x, c, f) == Some(f + |text|) && x[f..f + |text|] == text
  {
    AtSplit(x, f, text, [c]);
    AtChar(x, f + |text|, c);
    FindIs(x, c, f, f + |text|);
  }

  /** The converse: what lies before the first terminator, and the terminator. */
  lemma FoundEnd(x: string, f: nat, c: char, i: nat)
    requires IndexOf(x, c, f) == Some(i)
    ensures At(x, f, x[f..i] + [c])
  {
    assert x[f..i + 1] == x[f..i] + [x[i]];
  }

  lemma StringRoundTrip(x: string, f: nat, s: string)
    requires At(x, f, EncodeStr(s))
    ensures DecodeString(x, f) == Some((s, f + |EncodeStr(s)|))
  {
    var num := Numeral(|s|);
    AtSplit(x, f, num + ":", s);
    NoChar(num, ':');
    FindEnd(x, f, num, ':');
    NumeralValueOfNumeral(|s|);
  }

  /** What the slice read after the colon says when it lies within the text. */
  lemma StringBody(x: string, f: nat, s: string, g: nat) returns (colon: nat)
    requires DecodeString(x, f) == Some((s, g)) && g <= |x|
    ensures IndexOf(x, ':', f) == Some(colon) && f < colon < |x| && AllDigits(x[f..colon])
    ensures x[f] != '0' || colon == f + 1
    ensures |s| == NumeralValue(x[f..colon]) && At(x, colon + 1, s) && g == colon + 1 + |s|
  {
    hide AllDigits, NumeralValue;
    colon := IndexOf(x, ':', f).value;
  }

  lemma StringCanonical(x: string, f: nat, s: string, g: nat)
    requires DecodeString(x, f) == Some((s, g)) && g <= |x|
    ensures At(x, f, EncodeStr(s)) && g == f + |EncodeStr(s)|
  {
    hide At, IndexOf, DecodeString, AllDigits, NumeralValue, Numeral;
    var colon := StringBody(x, f, s, g);
    var text := x[f..colon];
    FoundEnd(x, f, ':', colon);
    NumeralOfNumeralValue(text);
    AtSplit(x, f, text + ":", s);
  }

  lemma IntTextHasNoE(i: int)
    ensures 'e' !in IntText(i)
  {
  }

  /** No leading zero and no minus zero. */
  lemma IntTextIsPlain(i: int)
    ensures var s := IntText(i); if s[0] == '-' then |s| > 1 && s[1] != '0' else s[0] == '0' ==> |s| == 1
  {
  }

  lemma IntRoundTrip(x: string, f: nat, i: int)
    requires At(x, f, "i" + (IntText(i) + "e"))
    ensures f < |x| && x[f] == 'i' && DecodeInt(x, f) == Some((Int(i), f + |IntText(i)| + 2))
  {
    hide At, IntText, ParseInt;
    AtSplit(x, f, "i", IntText(i) + "e");
    AtChar(x, f, 'i');
    IntTextHasNoE(i);
    IntTextIsPlain(i);
    FindEnd(x, f + 1, IntText(i), 'e');
    ParseIntOfIntText(i);
  }

  /** The two checks after `long` leave exactly the printed form of the number. */
  lemma PlainNumeral(text: string, n: int)
    requires ParseInt(text) == Some(n)
    requires if text[0] == '-' then text[1] != '0' else text[0] == '0' ==> |text| == 1
    ensures IntText(n) == text
  {
    if text[0] == '-' {
      NumeralOfNumeralValue(text[1..]);
      assert text == "-" + text[1..];
    } else {
      NumeralOfNumeralValue(text);
    }
  }

  lemma IntCanonical(x: string, f: nat, v: Value, g: nat)
    requires f < |x| && x[f] == 'i' && DecodeInt(x, f) == Some((v, g))
    ensures v.Int? && g <= |x| && At(x, f, "i" + (IntText(v.i) + "e")) && g == f + |IntText(v.i)| + 2
  {
    hide At;
    var newf := IndexOf(x, 'e', f + 1).value;
    PlainNumeral(x[f + 1..newf], v.i);
    FoundEnd(x, f + 1, 'e', newf);
    AtChar(x, f, 'i');
    AtSplit(x, f, "i", IntText(v.i) + "e");
  }

  // ---------------------------------------------------------------- reading back what was printed

  lemma Bracketed(open: string, body: string)
    ensures open + body + "e" == open + (body + "e")
    ensures |open + body + "e"| == |open| + |body| + 1
  {
  }

  /** Decoding at the start of a printed value, in any surrounding text, gives the value back and
      stops right after it. */
  lemma {:induction false} RoundTrip(x: string, f: nat, v: Value)
    requires At(x, f, Encode(v))
    ensures Decode(x, f) == Some((v, f + |Encode(v)|))
    decreases v, 1
  {
    hide At, DecodeInt, DecodeString, EncodeItems, EncodeEntries, IntText, EncodeStr;
    match v
    case Int(i) =>
      Bracketed("i", IntText(i));
      IntRoundTrip(x, f, i);
    case Str(s) =>
      StringRoundTrip(x, f, s);
      StringStarts(s);
      AtStart(x, f, EncodeStr(s));
    case List(items) =>
      Bracketed("l", EncodeItems(items));
      AtSplit(x, f, "l", EncodeItems(items) + "e");
      AtChar(x, f, 'l');
      ItemsRoundTrip(x, f + 1, items);
    case Dict(entries) =>
      var keys := InOrder(entries.Keys);
      Bracketed("d", EncodeEntries(v, keys));
      AtSplit(x, f, "d", EncodeEntries(v, keys) + "e");
      AtChar(x, f, 'd');
      EntriesRoundTrip(x, f + 1, v, keys, None);
      assert (map k | k in keys :: v.entries[k]) == entries;
  }

  lemma StringStarts(s: string)
    ensures EncodeStr(s) != [] && IsDigit(EncodeStr(s)[0])
  {
  }

  lemma {:induction false} ValueStarts(v: Value)
    ensures Encode(v) != [] && Encode(v)[0] != 'e'
  {
    if v.Str? { StringStarts(v.s); }
  }

  lemma {:induction false} ItemsRoundTrip(x: string, f: nat, items: seq<Value>)
    requires At(x, f, EncodeItems(items) + "e")
    ensures DecodeItems(x, f) == Some((items, f + |EncodeItems(items)| + 1))
    decreases items, 0
  {
    hide At, Encode, Decode;
    if items == [] {
      assert EncodeItems(items) + "e" == "e";
      AtChar(x, f, 'e');
    } else {
      var first, rest := Encode(items[0]), EncodeItems(items[1..]);
      assert EncodeItems(items) + "e" == first + (rest + "e");
      AtSplit(x, f, first, rest + "e");
      ValueStarts(items[0]);
      AtStart(x, f, first);
      RoundTrip(x, f, items[0]);
      ItemsRoundTrip(x, f + |first|, items[1..]);
      assert items == [items[0]] + items[1..];
    }
  }

  lemma {:induction false} EntriesRoundTrip(x: string, f: nat, v: Value, keys: seq<string>, lastkey: Option<string>)
    requires v.Dict? && (forall k :: k in keys ==> k in v.entries) && Ascending(keys)
    requires lastkey.Some? ==> forall k :: k in keys ==> Less(lastkey.value, k)
    requires At(x, f, EncodeEntries(v, keys) + "e")
    ensures DecodeEntries(x, f, lastkey)
      == Some((map k | k in keys :: v.entries[k], f + |EncodeEntries(v, keys)| + 1))
    decreases v, 0, keys
  {
    hide At, Encode, Decode, DecodeString, EncodeStr, Less;
    if keys == [] {
      assert EncodeEntries(v, keys) + "e" == "e";
      AtChar(x, f, 'e');
    } else {
      var k := keys[0];
      var key, first, rest := EncodeStr(k), Encode(v.entries[k]), EncodeEntries(v, keys[1..]);
      EntriesHead(v, keys);
      AtSplit(x, f, key, first + (rest + "e"));
      AtSplit(x, f + |key|, first, rest + "e");
      StringRoundTrip(x, f, k);
      StringStarts(k);
      AtStart(x, f, key);
      RoundTrip(x, f + |key|, v.entries[k]);
      if lastkey.Some? { LessAsymmetric(lastkey.value, k); }
      assert keys == [k] + keys[1..];
      EntriesRoundTrip(x, f + |key| + |first|, v, keys[1..], Some(k));
      FirstEntry(v, keys);
    }
  }

  lemma {:induction false} EntriesHead(v: Value, keys: seq<string>)
    requires v.Dict? && keys != [] && forall k :: k in keys ==> k in v.entries
    ensures var k, rest := keys[0], EncodeEntries(v, keys[1..]);
      && EncodeEntries(v, keys) + "e" == EncodeStr(k) + (Encode(v.entries[k]) + (rest + "e"))
      && |EncodeEntries(v, keys)| == |EncodeStr(k)| + |Encode(v.entries[k])| + |rest|
  {
    hide EncodeStr, Encode;
  }

  lemma {:induction false} FirstEntry(v: Value, keys: seq<string>)
    requires v.Dict? && keys != [] && forall k :: k in keys ==> k in v.entries
    ensures (map j | j in keys :: v.entries[j]) == (map j | j in keys[1..] :: v.entries[j])[keys[0] := v.entries[keys[0]]]
  {
    assert keys == [keys[0]] + keys[1..];
  }

  // ---------------------------------------------------------------- only what was printed is read

  /** Whatever the parser accepts within the text is exactly the printed form of what it returns. */
  lemma {:induction false} Canonical(x: string, f: nat, v: Value, g: nat)
    requires Decode(x, f) == Some((v, g)) && g <= |x|
    ensures At(x, f, Encode(v)) && g == f + |Encode(v)|
    decreases |x| - f, 0
  {
    hide At, DecodeInt, DecodeString, EncodeItems, EncodeEntries, IntText, EncodeStr;
    if x[f] == 'i' {
      IntCanonical(x, f, v, g);
      Bracketed("i", IntText(v.i));
    } else if x[f] == 'l' {
      ItemsCanonical(x, f + 1, v.items, g);
      AtChar(x, f, 'l');
      AtSplit(x, f, "l", EncodeItems(v.items) + "e");
      Bracketed("l", EncodeItems(v.items));
    } else if x[f] == 'd' {
      EntriesCanonical(x, f + 1, v.entries, g, None);
      var body := EncodeEntries(v, InOrder(v.entries.Keys));
      AtChar(x, f, 'd');
      AtSplit(x, f, "d", body + "e");
      Bracketed("d", body);
    } else {
      StringCanonical(x, f, v.s, g);
    }
  }

  lemma {:induction false} ItemsCanonical(x: string, f: nat, items: seq<Value>, g: nat)
    requires DecodeItems(x, f) == Some((items, g))
    ensures At(x, f, EncodeItems(items) + "e") && g == f + |EncodeItems(items)| + 1
    decreases |x| - f, 1
  {
    hide At, Encode, Decode;
    if x[f] == 'e' {
      AtChar(x, f, 'e');
      assert EncodeItems(items) + "e" == "e";
    } else {
      var (v, h) := Decode(x, f).value;
      var rest := DecodeItems(x, h).value.0;
      assert items == [v] + rest && items[1..] == rest;
      Canonical(x, f, v, h);
      ItemsCanonical(x, h, rest, g);
      AtSplit(x, f, Encode(v), EncodeItems(rest) + "e");
      assert EncodeItems(items) + "e" == Encode(v) + (EncodeItems(rest) + "e");
    }
  }

  lemma {:induction false} EntriesAgree(v: Value, w: Value, keys: seq<string>)
    requires v.Dict? && w.Dict?
    requires forall k :: k in keys ==> k in v.entries && k in w.entries && v.entries[k] == w.entries[k]
    ensures EncodeEntries(v, keys) == EncodeEntries(w, keys)
  {
    if keys != [] { EntriesAgree(v, w, keys[1..]); }
  }

  lemma {:induction false} OrderWithLeast(keys: set<string>, k: string)
    requires k !in keys && forall j :: j in keys ==> Less(k, j)
    ensures InOrder(keys + {k}) == [k] + InOrder(keys)
  {
    var r := [k] + InOrder(keys);
    assert forall j :: j in r <==> j == k || j in InOrder(keys);
    assert Ascending(r);
    assert Elements(r) == keys + {k};
    AscendingUnique(InOrder(keys + {k}), r);
  }

  lemma {:induction false} EntriesCanonical(x: string, f: nat, entries: map<string, Value>, g: nat, lastkey: Option<string>)
    requires DecodeEntries(x, f, lastkey) == Some((entries, g))
    ensures lastkey.Some? ==> forall k :: k in entries ==> Less(lastkey.value, k)
    ensures var body := EncodeEntries(Dict(entries), InOrder(entries.Keys));
      At(x, f, body + "e") && g == f + |body| + 1
    decreases |x| - f, 1
  {
    hide At, Encode, Decode, DecodeString, EncodeStr, Less;
    if x[f] == 'e' {
      AtChar(x, f, 'e');
      ElementsEmpty(InOrder(entries.Keys));
      assert EncodeEntries(Dict(entries), []) + "e" == "e";
    } else {
      var (k, h) := DecodeString(x, f).value;
      var (v, h') := Decode(x, h).value;
      var (rest, _) := DecodeEntries(x, h', Some(k)).value;
      StringCanonical(x, f, k, h);
      Canonical(x, h, v, h');
      EntriesCanonical(x, h', rest, g, Some(k));
      OneMoreEntry(x, f, entries, rest, k, v, h');
      if lastkey.Some? {
        LessTotal(lastkey.value, k);
        forall j | j in rest ensures Less(lastkey.value, j) { LessTransitive(lastkey.value, k, j); }
      }
    }
  }

  lemma {:induction false} OneMoreEntry(x: string, f: nat, entries: map<string, Value>, rest: map<string, Value>,
                     k: string, v: Value, h: nat)
    requires entries == rest[k := v] && forall j :: j in rest ==> Less(k, j)
    requires At(x, f, EncodeStr(k)) && At(x, f + |EncodeStr(k)|, Encode(v)) && h == f + |EncodeStr(k)| + |Encode(v)|
    requires At(x, h, EncodeEntries(Dict(rest), InOrder(rest.Keys)) + "e")
    ensures var body := EncodeEntries(Dict(entries), InOrder(entries.Keys));
      At(x, f, body + "e") && f + |body| == h + |EncodeEntries(Dict(rest), InOrder(rest.Keys))|
  {
    LessIrreflexive(k);
    hide At, Encode, EncodeStr, Less;
    OrderWithLeast(rest.Keys, k);
    assert entries.Keys == rest.Keys + {k};
    var keys := InOrder(rest.Keys);
    EntriesAgree(Dict(entries), Dict(rest), keys);
    var tail := EncodeEntries(Dict(rest), keys);
    assert ([k] + keys)[1..] == keys;
    var body := EncodeEntries(Dict(entries), [k] + keys);
    assert body + "e" == EncodeStr(k) + (Encode(v) + (tail + "e"));
    AtSplit(x, f + |EncodeStr(k)|, Encode(v), tail + "e");
    AtSplit(x, f, EncodeStr(k), Encode(v) + (tail + "e"));
  }

  // ---------------------------------------------------------------- main results

  /** Reading at a position and printing are inverse, in any surrounding text. */
  lemma {:induction false} DecodeExactly(x: string, f: nat, v: Value, g: nat)
    ensures Decode(x, f) == Some((v, g)) && g <= |x| <==> At(x, f, Encode(v)) && g == f + |Encode(v)|
  {
    if Decode(x, f) == Some((v, g)) && g <= |x| { Canonical(x, f, v, g); }
    if At(x, f, Encode(v)) { RoundTrip(x, f, v); }
  }

  /** `bdecode` accepts exactly the printed texts: an over-long length, a leading zero, a minus
      zero, unsorted or repeated keys or trailing text are all refused. */
  lemma {:induction false} BDecodeExactly(x: string, v: Value)
    ensures BDecode(x, false) == Some(v) <==> x == Encode(v)
  {
    DecodeExactly(x, 0, v, |x|);
    if |Encode(v)| == |x| { assert x[0..|x|] == x; }
    assert At(x, 0, Encode(v)) && |x| == |Encode(v)| <==> x == Encode(v);
  }

  lemma {:induction false} EncodeInjective(v: Value, w: Value)
    requires Encode(v) == Encode(w)
    ensures v == w
  {
    BDecodeExactly(Encode(v), v);
    BDecodeExactly(Encode(v), w);
  }

  lemma {:induction false} ListText(items: seq<Value>, a: Value, b: Value)
    requires items == [a, b]
    ensures Encode(List(items)) == "l" + (Encode(a) + Encode(b)) + "e"
  {
    hide Encode;
    assert items[1..] == [b] && [b][1..] == [];
    assert EncodeItems([]) == [] && Encode(b) + [] == Encode(b);
    assert EncodeItems([b]) == Encode(b);
    assert EncodeItems(items) == Encode(a) + Encode(b);
    ListIs(items);
  }

  lemma {:induction false} ListIs(items: seq<Value>)
    ensures Encode(List(items)) == "l" + EncodeItems(items) + "e"
  {
  }

  lemma DictIs(entries: map<string, Value>)
    ensures Encode(Dict(entries)) == "d" + EncodeEntries(Dict(entries), InOrder(entries.Keys)) + "e"
  {
  }

  lemma {:induction false} Digits()
    ensures Numeral(3) == "3" && Numeral(4) == "4" && Numeral(25) == "25" && Numeral(123456789) == "123456789" && IntText(-10) == "-10"
  {
    assert Numeral(2) == "2" && Numeral(1) == "1";
    assert Numeral(12) == "12";
    assert Numeral(123) == "123";
    assert Numeral(1234) == "1234";
    assert Numeral(12345) == "12345";
    assert Numeral(123456) == "123456";
    assert Numeral(1234567) == "1234567";
    assert Numeral(12345678) == "12345678";
    assert Numeral(10) == "10";
  }

  lemma {:induction false} AgeBeforeEyes()
    ensures InOrder({"age", "eyes"}) == ["age", "eyes"]
  {
    var keys := ["age", "eyes"];
    assert Less("age", "eyes");
    assert Elements(keys) == {"age", "eyes"};
    AscendingUnique(keys, InOrder({"age", "eyes"}));
  }

  /** The texts the module's own checks expect. */
  lemma {:induction false} KnownTexts()
    ensures Encode(Int(4)) == "i4e" && Encode(Int(-10)) == "i-10e" && Encode(Int(123456789)) == "i123456789e"
    ensures Encode(Str("abc")) == "3:abc" && Encode(List([Int(4), Str("abc")])) == "li4e3:abce"
  {
    Digits();
    hide Numeral, IntText;
    IntIs(4);
    IntIs(123456789);
    assert Encode(Str("abc")) == "3:abc";
    ListText([Int(4), Str("abc")], Int(4), Str("abc"));
  }

  lemma {:induction false} KnownDict()
    ensures Encode(Dict(map["age" := Int(25), "eyes" := Str("blue")])) == "d3:agei25e4:eyes4:bluee"
  {
    hide Numeral, IntText, InOrder, EncodeEntries, Encode, EncodeStr;
    var v := Dict(map["age" := Int(25), "eyes" := Str("blue")]);
    AgeBeforeEyes();
    assert v.entries.Keys == {"age", "eyes"};
    DictIs(v.entries);
    TwoEntries(v, "age", "eyes");
    KnownPieces();
    Joined();
  }

  lemma {:induction false} KnownPieces()
    ensures Encode(Int(25)) == "i25e" && EncodeStr("age") == "3:age" && Encode(Str("blue")) == "4:blue" && EncodeStr("eyes") == "4:eyes"
  {
    Digits();
    hide Numeral, IntText;
    IntIs(25);
    assert EncodeStr("blue") == "4:blue";
  }

  lemma Joined()
    ensures "d" + ("3:age" + "i25e" + ("4:eyes" + "4:blue")) + "e" == "d3:agei25e4:eyes4:bluee"
  {
  }

  lemma {:induction false} IntIs(n: nat)
    ensures IntText(n) == Numeral(n)
  {
  }

  lemma {:induction false} TwoEntries(v: Value, a: string, b: string)
    requires v.Dict? && a in v.entries && b in v.entries
    ensures EncodeEntries(v, [a, b]) == EncodeStr(a) + Encode(v.entries[a]) + (EncodeStr(b) + Encode(v.entries[b]))
  {
    hide Encode, EncodeStr;
    assert [a, b][1..] == [b] && [b][1..] == [];
    assert EncodeEntries(v, []) == [];
    assert EncodeEntries(v, [b]) == EncodeStr(b) + Encode(v.entries[b]);
  }

  /** A bare string whose text ends before the announced length. */
  predicate CutShort(x: string, s: string, n: nat) {
    n > |s| && x == Numeral(n) + ":" + s
  }

  lemma CutShortReads(x: string, s: string, n: nat)
    requires CutShort(x, s, n)
    ensures BDecode(x, true) == Some(Str(s))
  {
    var num := Numeral(n);
    assert x[0..|num| + 1] == num + ":";
    NoChar(num, ':');
    FindEnd(x, 0, num, ':');
    NumeralValueOfNumeral(n);
    assert x[0] == num[0];
    assert x[|num| + 1..|x|] == s;
  }

  lemma OverrunIsCutShort(x: string, s: string, g: nat)
    requires DecodeString(x, 0) == Some((s, g)) && g > |x|
    ensures CutShort(x, s, g - |x| + |s|)
  {
    var colon := IndexOf(x, ':', 0).value;
    FoundEnd(x, 0, ':', colon);
    NumeralOfNumeralValue(x[0..colon]);
    assert x == x[0..colon + 1] + x[colon + 1..|x|];
  }

  /** Without the length test exactly two kinds of text get through: those that start with the
      printed value, and a bare string cut short. */
  lemma {:induction false} SloppyExactly(x: string, v: Value)
    ensures BDecode(x, true) == Some(v) <==> At(x, 0, Encode(v)) || (v.Str? && exists n :: CutShort(x, v.s, n))
  {
    if BDecode(x, true) == Some(v) {
      var g := Decode(x, 0).value.1;
      if g <= |x| {
        DecodeExactly(x, 0, v, g);
      } else if x[0] == 'i' {
        IntCanonical(x, 0, v, g);
      } else {
        OverrunIsCutShort(x, v.s, g);
      }
    }
    if At(x, 0, Encode(v)) {
      RoundTrip(x, 0, v);
    } else if v.Str? {
      if n :| CutShort(x, v.s, n) { CutShortReads(x, v.s, n); }
    }
  }
}

/** The parser's loops over a moving position and the printer's shared output list, as the source
    writes them, each equal to the function of `Bencode` it computes. */
module BencodeLoops {
  import opened Text
  import opened Bencode

  function Append(done: seq<Value>, r: Parsed<seq<Value>>): Parsed<seq<Value>> {
    match r
    case None => None
    case Some((rest, g)) => Some((done + rest, g))
  }

  function Merge(done: map<string, Value>, r: Parsed<map<string, Value>>): Parsed<map<string, Value>> {
    match r
    case None => None
    case Some((rest, g)) => Some((done + rest, g))
  }

  lemma AppendFacts(done: seq<Value>, v: Value, r: Parsed<seq<Value>>)
    ensures Append([], r) == r
    ensures Append(done + [v], r) == Append(done, Append([v], r))
    ensures r.Some? && r.value.0 == [] ==> Append(done, r) == Some((done, r.value.1))
  {
    if r.Some? {
      assert [] + r.value.0 == r.value.0;
      if r.value.0 == [] { assert done + r.value.0 == done; }
      assert (done + [v]) + r.value.0 == done + ([v] + r.value.0);
    }
  }

  lemma MergeFacts(done: map<string, Value>, k: string, v: Value, r: Parsed<map<string, Value>>)
    ensures Merge(map[], r) == r
    ensures r.Some? && k !in r.value.0 ==> Merge(done[k := v], r) == Merge(done, Some((r.value.0[k := v], r.value.1)))
    ensures r.Some? && r.value.0 == map[] ==> Merge(done, r) == Some((done, r.value.1))
  {
    if r.Some? {
      assert map[] + r.value.0 == r.value.0;
      if k !in r.value.0 { assert done[k := v] + r.value.0 == done + r.value.0[k := v]; }
      if r.value.0 == map[] { assert done + r.value.0 == done; }
    }
  }

  lemma MergeNone(done: map<string, Value>)
    ensures Merge(done, None) == None
    ensures Merge(map[], None) == None
  {
  }

  method Read(x: string, f: nat) returns (r: Parsed<Value>)
    ensures r == Decode(x, f)
    decreases |x| - f, 0
  {
    if f >= |x| {
      return None;
    }
    if x[f] == 'i' {
      return DecodeInt(x, f);
    }
    if x[f] == 'l' {
      var items := ReadList(x, f);
      return match items case None => None case Some((vs, g)) => Some((List(vs), g));
    }
    if x[f] == 'd' {
      var entries := ReadDict(x, f);
      return match entries case None => None case Some((m, g)) => Some((Dict(m), g));
    }
    if IsDigit(x[f]) {
      return match DecodeString(x, f) case None => None case Some((s, g)) => Some((Str(s), g));
    }
    return None;
  }

  method ReadList(x: string, start: nat) returns (r: Parsed<seq<Value>>)
    requires start < |x|
    ensures r == DecodeItems(x, start + 1)
    decreases |x| - start - 1, 2
  {
    var done: seq<Value>, f := [], start + 1;
    AppendFacts([], Int(0), DecodeItems(x, f));
    while f < |x| && x[f] != 'e'
      invariant f > start
      invariant DecodeItems(x, start + 1) == Append(done, DecodeItems(x, f))
      decreases |x| - f
    {
      var v := Read(x, f);
      if v == None {
        return None;
      }
      AppendFacts(done, v.value.0, DecodeItems(x, v.value.1));
      done := done + [v.value.0];
      f := v.value.1;
    }
    AppendFacts(done, Int(0), DecodeItems(x, f));
    return if f < |x| then Some((done, f + 1)) else None;
  }

  lemma {:induction false} KeysAbove(x: string, f: nat, k: string)
    ensures var r := DecodeEntries(x, f, Some(k)); r.Some? ==> k !in r.value.0
  {
    var r := DecodeEntries(x, f, Some(k));
    if r.Some? {
      EntriesCanonical(x, f, r.value.0, r.value.1, Some(k));
      LessIrreflexive(k);
    }
  }

  method ReadDict(x: string, start: nat) returns (r: Parsed<map<string, Value>>)
    requires start < |x|
    ensures r == DecodeEntries(x, start + 1, None)
    decreases |x| - start - 1, 2
  {
    var done: map<string, Value>, f := map[], start + 1;
    var lastkey: Option<string> := None;
    MergeFacts(map[], "", Int(0), DecodeEntries(x, f, None));
    hide DecodeString, Decode, Less, Merge;
    while f < |x| && x[f] != 'e'
      invariant f > start
      invariant DecodeEntries(x, start + 1, None) == Merge(done, DecodeEntries(x, f, lastkey))
      decreases |x| - f
    {
      MergeNone(done);
      var key := DecodeString(x, f);
      if key == None {
        return None;
      }
      var (k, g) := key.value;
      if NotAbove(k, lastkey) {
        return None;
      }
      var v := Read(x, g);
      if v == None {
        return None;
      }
      var (value, h) := v.value;
      KeysAbove(x, h, k);
      MergeFacts(done, k, value, DecodeEntries(x, h, Some(k)));
      MergeNone(done);
      done := done[k := value];
      lastkey := Some(k);
      f := h;
    }
    MergeNone(done);
    MergeFacts(done, "", Int(0), DecodeEntries(x, f, lastkey));
    return if f < |x| then Some((done, f + 1)) else None;
  }

  // ---------------------------------------------------------------- printing

  /** `''.join(r)`. */
  function Join(r: seq<string>): string {
    if r == [] then [] else Join(r[..|r| - 1]) + r[|r| - 1]
  }

  lemma {:induction false} JoinMore(r: seq<string>, more: seq<string>)
    ensures Join(r + more) == Join(r) + Join(more)
  {
    if more == [] {
      assert r + more == r;
    } else {
      assert (r + more)[..|r + more| - 1] == r + more[..|more| - 1];
      JoinMore(r, more[..|more| - 1]);
    }
  }

  lemma {:induction false} JoinThree(r: seq<string>, a: string, b: string, c: string)
    ensures Join(r + [a, b, c]) == Join(r) + (a + b + c)
  {
    JoinMore(r, [a, b, c]);
    assert [a, b, c][..2] == [a, b] && [a, b][..1] == [a] && [a][..0] == [];
    assert Join([a]) == a && Join([a, b]) == a + b;
  }

  lemma {:induction false} JoinOne(r: seq<string>, a: string)
    ensures Join(r + [a]) == Join(r) + a
  {
    assert (r + [a])[..|r|] == r;
  }

  method Write(v: Value, r: seq<string>) returns (r': seq<string>)
    ensures Join(r') == Join(r) + Encode(v)
    decreases v, 1
  {
    match v
    case Int(i) =>
      r' := r + ["i", IntText(i), "e"];
      JoinThree(r, "i", IntText(i), "e");
    case Str(s) =>
      r' := WriteStr(s, r);
    case List(items) =>
      r' := WriteList(v, r);
    case Dict(entries) =>
      r' := WriteDict(v, r);
  }

  method WriteStr(s: string, r: seq<string>) returns (r': seq<string>)
    ensures Join(r') == Join(r) + EncodeStr(s)
  {
    r' := r + [Numeral(|s|), ":", s];
    JoinThree(r, Numeral(|s|), ":", s);
  }

  lemma {:induction false} ItemsSnoc(items: seq<Value>, n: nat)
    requires n < |items|
    ensures EncodeItems(items[..n + 1]) == EncodeItems(items[..n]) + Encode(items[n])
  {
    if n == 0 {
      assert items[..1] == [items[0]] && items[..0] == [];
      assert EncodeItems([items[0]][1..]) == [];
    } else {
      ItemsSnoc(items[1..], n - 1);
      hide Encode;
      assert items[..n + 1][1..] == items[1..][..n] && items[..n][1..] == items[1..][..n - 1];
      Assoc(Encode(items[0]), EncodeItems(items[1..][..n - 1]), Encode(items[n]));
    }
  }

  method WriteList(v: Value, r: seq<string>) returns (r': seq<string>)
    requires v.List?
    ensures Join(r') == Join(r) + Encode(v)
    decreases v, 0
  {
    r' := r + ["l"];
    JoinOne(r, "l");
    assert v.items[..0] == [];
    ghost var pre := Join(r');
    assert pre + [] == pre;
    hide Join, EncodeItems;
    for i := 0 to |v.items|
      invariant Join(r') == pre + EncodeItems(v.items[..i])
    {
      ItemsSnoc(v.items, i);
      Assoc(pre, EncodeItems(v.items[..i]), Encode(v.items[i]));
      r' := Write(v.items[i], r');
    }
    assert v.items[..|v.items|] == v.items;
    JoinOne(r', "e");
    r' := r' + ["e"];
    Close(Join(r), "l", EncodeItems(v.items));
  }

  lemma Close(pre: string, open: string, body: string)
    ensures pre + open + body + "e" == pre + (open + body + "e")
  {
  }

  lemma {:induction false} EntriesSnoc(v: Value, keys: seq<string>, n: nat)
    requires v.Dict? && (forall k :: k in keys ==> k in v.entries) && n < |keys|
    ensures EncodeEntries(v, keys[..n + 1])
      == EncodeEntries(v, keys[..n]) + (EncodeStr(keys[n]) + Encode(v.entries[keys[n]]))
  {
    if n == 0 {
      assert keys[..1] == [keys[0]] && keys[..0] == [];
      assert EncodeEntries(v, [keys[0]][1..]) == [];
    } else {
      EntriesSnoc(v, keys[1..], n - 1);
      hide Encode, EncodeStr;
      assert keys[..n + 1][1..] == keys[1..][..n] && keys[..n][1..] == keys[1..][..n - 1];
      Assoc(EncodeStr(keys[0]) + Encode(v.entries[keys[0]]), EncodeEntries(v, keys[1..][..n - 1]),
            EncodeStr(keys[n]) + Encode(v.entries[keys[n]]));
    }
  }

  method WriteDict(v: Value, r: seq<string>) returns (r': seq<string>)
    requires v.Dict?
    ensures Join(r') == Join(r) + Encode(v)
    decreases v, 0
  {
    r' := r + ["d"];
    JoinOne(r, "d");
    var keys := SortedKeys(v.entries.Keys);
    assert keys[..0] == [];
    ghost var pre := Join(r');
    assert pre + [] == pre;
    hide Join, EncodeEntries, EncodeStr;
    for i := 0 to |keys|
      invariant Join(r') == pre + EncodeEntries(v, keys[..i])
    {
      EntriesSnoc(v, keys, i);
      ghost var key, value := EncodeStr(keys[i]), Encode(v.entries[keys[i]]);
      Assoc(Join(r'), key, value);
      Assoc(pre, EncodeEntries(v, keys[..i]), key + value);
      r' := WriteStr(keys[i], r');
      r' := Write(v.entries[keys[i]], r');
    }
    assert keys[..|keys|] == keys;
    JoinOne(r', "e");
    r' := r' + ["e"];
    Close(Join(r), "d", EncodeEntries(v, keys));
  }

  /** `bencode` followed by `bdecode` on the result. */
  method BEncode(v: Value) returns (s: string)
    ensures s == Encode(v) && BDecode(s, false) == Some(v)
  {
    var r := Write(v, []);
    s := Join(r);
    BDecodeExactly(s, v);
  }
}
