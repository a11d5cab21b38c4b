/** Events printed as `Name key=value key=value ...` and read back (Events.py, EventLogging.py). */
module EventText {
  import opened Text

  datatype Attr = StrV(s: string) | IntV(i: int)

  /** An event: its attribute `eventName` and the others, `eventTime` among them. */
  datatype Event = Event(name: string, attrs: map<string, Attr>)

  function AttrText(a: Attr): string {
    match a case StrV(s) => s case IntV(i) => IntText(i)
  }

  predicate Lacks(s: string, c: char) { c !in s }

  predicate KeyOk(k: string) { k != [] && Lacks(k, ' ') && Lacks(k, '=') && Lacks(k, '\n') }

  predicate ValueOk(a: Attr) { Lacks(AttrText(a), '=') && Lacks(AttrText(a), '\n') }

  // ---------------------------------------------------------------- printing

  function Field(k: string, a: Attr): string { k + "=" + AttrText(a) }

  /** The attributes as printed after the class name, each with a space in front. */
  function Fields(attrs: map<string, Attr>, keys: seq<string>): string
    requires forall k :: k in keys ==> k in attrs
  {
    if keys == [] then [] else " " + Field(keys[0], attrs[keys[0]]) + Fields(attrs, keys[1..])
  }

  /** `__str__`: `None` when one of its assertions fails. */
  ghost function Save(e: Event): Option<string> {
    if forall k :: k in e.attrs ==> ValueOk(e.attrs[k])
    then Some(e.name + Fields(e.attrs, InOrder(e.attrs.Keys)))
    else None
  }

  // ---------------------------------------------------------------- reading

  /** Last occurrence of `c`, or `None`. */
  function FindLast(s: string, c: char): (r: Option<nat>)
    ensures r.Some? ==> r.value < |s| && s[r.value] == c && Lacks(s[r.value + 1..], c)
    ensures r.None? ==> Lacks(s, c)
  {
    if s == [] then None
    else if s[|s| - 1] == c then Some(|s| - 1)
    else
      var r := FindLast(s[..|s| - 1], c);
      assert s == s[..|s| - 1] + [s[|s| - 1]];
      assert r.Some? ==> s[r.value + 1..] == s[..|s| - 1][r.value + 1..] + [s[|s| - 1]];
      r
  }

  /** The groups of `^(.+?)=([^=]*)(.*)$` on a text without newlines. */
  datatype Groups = Groups(key: string, middle: string, rest: string)

  function Match(s: string): (r: Option<Groups>)
    ensures r.Some? ==> s == r.value.key + "=" + r.value.middle + r.value.rest
  {
    if s == [] then None
    else
      var eq := Find(s, '=', 1);
      if eq == |s| then None
      else
        var end := Find(s, '=', eq + 1);
        Some(Groups(s[..eq], s[eq + 1..end], s[end..]))
  }

  /** `dataType(value)` for the type the attribute already has. */
  function Convert(old_: Attr, value: string): Option<Attr> {
    match old_
    case StrV(_) => Some(StrV(value))
    case IntV(_) =>
      match ParseInt(value)
      case None => None
      case Some(i) => Some(IntV(i))
  }

  /** One turn of the loop in `load`: the attributes and the text still to read. */
  function LoadOne(attrs: map<string, Attr>, data: string): (r: Option<(map<string, Attr>, string)>)
    ensures r.Some? ==> |r.value.1| < |data|
  {
    match Match(data)
    case None => None
    case Some(Groups(key, middle, rest)) =>
      var split := FindLast(middle, ' ');
      if rest != [] && split.None? then None
      else
        var value := if rest == [] then middle else middle[..split.value];
        var left := if rest == [] then [] else middle[split.value + 1..] + rest;
        if key !in attrs then None
        else
          match Convert(attrs[key], value)
          case None => None
          case Some(a) => Some((attrs[key := a], left))
  }

  function Load(attrs: map<string, Attr>, data: string): Option<map<string, Attr>>
    decreases |data|
  {
    if data == [] then Some(attrs)
    else
      match LoadOne(attrs, data)
      case None => None
      case Some((more, left)) => Load(more, left)
  }

  /** The attributes when the loop ends, normally or by an exception: every field read before the
      one that raises is set. */
  function LoadedSoFar(attrs: map<string, Attr>, data: string): map<string, Attr>
    decreases |data|
  {
    if data == [] then attrs
    else
      match LoadOne(attrs, data)
      case None => attrs
      case Some((more, left)) => LoadedSoFar(more, left)
  }

  /** Whatever the text, loading never adds an attribute, drops one or changes its type, and where
      it succeeds the attributes are the loaded ones. */
  lemma {:induction false} LoadKeepsShape(attrs: map<string, Attr>, data: string)
    ensures SameShape(attrs, LoadedSoFar(attrs, data))
    ensures Load(attrs, data).Some? ==> LoadedSoFar(attrs, data) == Load(attrs, data).value
    decreases |data|
  {
    if data != [] && LoadOne(attrs, data).Some? {
      var (more, left) := LoadOne(attrs, data).value;
      LoadKeepsShape(more, left);
    }
  }

  function DropNewlines(s: string): string {
    if s == [] then [] else (if s[0] == '\n' then [] else [s[0]]) + DropNewlines(s[1..])
  }

  /** The classes that can be loaded, each with the attributes a fresh instance has besides
      `eventName`. */
  type Classes = map<string, map<string, Attr>>

  /** All attributes of the instance in one dictionary, as `load` sees them. */
  function Dict(e: Event): map<string, Attr> { e.attrs["eventName" := StrV(e.name)] }

  predicate IsDict(attrs: map<string, Attr>) { "eventName" in attrs && attrs["eventName"].StrV? }

  function FromDict(attrs: map<string, Attr>): Event
    requires IsDict(attrs)
  {
    Event(attrs["eventName"].s, attrs - {"eventName"})
  }

  /** `load_event`; a field named `eventName` in the line renames the event. */
  function LoadEvent(classes: Classes, line: string): Option<Event> {
    var data := DropNewlines(line);
    var sp := Find(data, ' ', 0);
    if sp == |data| || data[..sp] !in classes then None
    else
      var instance := Dict(Event(data[..sp], classes[data[..sp]]));
      LoadKeepsShape(instance, data[sp + 1..]);
      match Load(instance, data[sp + 1..])
      case None => None
      case Some(attrs) => Some(FromDict(attrs))
  }

  // ---------------------------------------------------------------- inverse

  lemma {:induction false} FindLastIs(a: string, b: string, c: char)
    requires Lacks(b, c)
    ensures FindLast(a + [c] + b, c) == Some(|a|)
  {
    var s := a + [c] + b;
    if b != [] {
      FindLastIs(a, b[..|b| - 1], c);
      assert s[..|s| - 1] == a + [c] + b[..|b| - 1];
      assert s[|s| - 1] == b[|b| - 1];
    }
  }

  /** The lazy key stops at the first `=`, and the value runs to the next one. */
  lemma MatchField(key: string, middle: string, rest: string)
    requires key != [] && Lacks(key, '=') && Lacks(middle, '=') && (rest == [] || rest[0] == '=')
    ensures Match(key + "=" + middle + rest) == Some(Groups(key, middle, rest))
  {
    var s := key + "=" + middle + rest;
    var eq, end := |key|, |key| + 1 + |middle|;
    assert s[1..eq] == key[1..] && s[eq] == '=';
    FindIs(s, '=', 1, eq);
    assert s[eq + 1..end] == middle;
    assert end < |s| ==> s[end] == rest[0];
    FindIs(s, '=', eq + 1, end);
    assert s[..eq] == key && s[end..] == rest;
  }

  lemma LoadLastField(attrs: map<string, Attr>, key: string, a: Attr)
    requires KeyOk(key) && ValueOk(a) && key in attrs && Convert(attrs[key], AttrText(a)) == Some(a)
    ensures LoadOne(attrs, Field(key, a)) == Some((attrs[key := a], []))
  {
    MatchField(key, AttrText(a), []);
    assert Field(key, a) + [] == Field(key, a);
  }

  /** Everything up to the last space before the next `=` is the value; what follows is the next
      key, so the boundary is found although values may contain spaces. */
  lemma LoadField(attrs: map<string, Attr>, key: string, a: Attr, next: string, tail: string)
    requires KeyOk(key) && ValueOk(a) && key in attrs && Convert(attrs[key], AttrText(a)) == Some(a)
    requires KeyOk(next) && tail != [] && tail[0] == '='
    ensures LoadOne(attrs, Field(key, a) + (" " + (next + tail))) == Some((attrs[key := a], next + tail))
  {
    hide Match, FindLast, Convert, AttrText;
    var value := AttrText(a);
    var middle := value + " " + next;
    MatchField(key, middle, tail);
    assert key + "=" + middle + tail == Field(key, a) + (" " + (next + tail));
    FindLastIs(value, next, ' ');
    assert middle[..|value|] == value && middle[|value| + 1..] == next;
  }

  /** `attrs` and `target` have the same keys with the same types. */
  ghost predicate SameShape(attrs: map<string, Attr>, target: map<string, Attr>) {
    attrs.Keys == target.Keys && forall k :: k in attrs ==> attrs[k].StrV? == target[k].StrV?
  }

  lemma ConvertBack(old_: Attr, a: Attr)
    requires old_.StrV? == a.StrV?
    ensures Convert(old_, AttrText(a)) == Some(a)
  {
    if a.IntV? { ParseIntOfIntText(a.i); }
  }

  function Updated(attrs: map<string, Attr>, target: map<string, Attr>, keys: seq<string>): map<string, Attr>
    requires attrs.Keys == target.Keys
  {
    map k | k in attrs :: if k in keys then target[k] else attrs[k]
  }

  lemma UpdatedCons(attrs: map<string, Attr>, target: map<string, Attr>, keys: seq<string>)
    requires attrs.Keys == target.Keys && keys != [] && keys[0] in attrs
    ensures Updated(attrs, target, keys) == Updated(attrs[keys[0] := target[keys[0]]], target, keys[1..])
  {
    assert keys == [keys[0]] + keys[1..];
  }

  lemma FieldStarts(key: string, a: Attr, rest: string)
    ensures " " + Field(key, a) + rest == " " + (key + ("=" + AttrText(a) + rest))
    ensures Field(key, a) + rest == key + ("=" + AttrText(a) + rest)
  {
  }

  lemma {:induction false} LoadFields(attrs: map<string, Attr>, target: map<string, Attr>, keys: seq<string>)
    requires SameShape(attrs, target) && keys != []
    requires forall k :: k in keys ==> k in target && KeyOk(k) && ValueOk(target[k])
    ensures Load(attrs, Field(keys[0], target[keys[0]]) + Fields(target, keys[1..])) == Some(Updated(attrs, target, keys))
    decreases |keys|
  {
    hide LoadOne, Convert, KeyOk, ValueOk, Field;
    var k, rest := keys[0], keys[1..];
    var more := attrs[k := target[k]];
    ConvertBack(attrs[k], target[k]);
    UpdatedCons(attrs, target, keys);
    if rest == [] {
      LoadLastField(attrs, k, target[k]);
      assert Field(k, target[k]) + [] == Field(k, target[k]);
      assert Updated(more, target, []) == more;
    } else {
      var next := rest[0];
      var tail := "=" + AttrText(target[next]) + Fields(target, rest[1..]);
      FieldStarts(next, target[next], Fields(target, rest[1..]));
      LoadField(attrs, k, target[k], next, tail);
      LoadFields(more, target, rest);
    }
    FieldNotEmpty(k, target[k]);
  }

  lemma FieldNotEmpty(k: string, a: Attr)
    ensures |Field(k, a)| > 0
  {
  }

  lemma {:induction false} DropNothing(s: string)
    requires Lacks(s, '\n')
    ensures DropNewlines(s) == s && DropNewlines(s + "\n") == s
  {
    if s != [] {
      assert s == [s[0]] + s[1..];
      assert (s + "\n")[1..] == s[1..] + "\n";
      DropNothing(s[1..]);
    } else {
      assert s + "\n" == "\n" && "\n"[1..] == [];
    }
  }

  lemma {:induction false} FieldsClean(attrs: map<string, Attr>, keys: seq<string>)
    requires forall k :: k in keys ==> k in attrs && KeyOk(k) && ValueOk(attrs[k])
    ensures Lacks(Fields(attrs, keys), '\n')
  {
    if keys != [] { FieldsClean(attrs, keys[1..]); }
  }

  /** An event that prints has printed text without `=` or newline in its values; loading the
      logged line gives the event back, attribute for attribute. Spaces and empty values are fine. */
  lemma SaveThenLoad(classes: Classes, e: Event)
    requires Save(e).Some? && e.attrs != map[] && "eventName" !in e.attrs
    requires Lacks(e.name, ' ') && Lacks(e.name, '\n') && forall k :: k in e.attrs ==> KeyOk(k)
    requires e.name in classes && SameShape(classes[e.name], e.attrs)
    ensures LoadEvent(classes, Save(e).value + "\n") == Some(e)
    ensures Lacks(Save(e).value, '\n')
  {
    var keys := InOrder(e.attrs.Keys);
    ElementsEmpty(keys);
    FieldsClean(e.attrs, keys);
    FieldsHead(e.attrs, keys);
    hide Fields, Field, Load, Find, DropNewlines, KeyOk, ValueOk;
    var body := Field(keys[0], e.attrs[keys[0]]) + Fields(e.attrs, keys[1..]);
    var text := Save(e).value;
    DropNothing(text);
    SplitLine(e.name, body);
    LoadInstance(classes[e.name], e, keys);
    DictBack(e);
    hide Dict, FromDict;
  }

  /** Loading the printed fields into a fresh instance gives the event's dictionary. */
  lemma {:induction false} LoadInstance(blank: map<string, Attr>, e: Event, keys: seq<string>)
    requires SameShape(blank, e.attrs) && "eventName" !in e.attrs && keys != []
    requires forall k :: k in keys <==> k in e.attrs
    requires forall k :: k in keys ==> KeyOk(k) && ValueOk(e.attrs[k])
    ensures Load(Dict(Event(e.name, blank)), Field(keys[0], e.attrs[keys[0]]) + Fields(e.attrs, keys[1..])) == Some(Dict(e))
  {
    hide Fields, Field, Load, KeyOk, ValueOk;
    var instance, target := Dict(Event(e.name, blank)), Dict(e);
    FieldsSame(e.attrs, target, keys);
    LoadFields(instance, target, keys);
    assert Updated(instance, target, keys) == target;
  }

  lemma DictBack(e: Event)
    requires "eventName" !in e.attrs
    ensures IsDict(Dict(e)) && FromDict(Dict(e)) == e
  {
    assert Dict(e) - {"eventName"} == e.attrs;
  }

  lemma {:induction false} FieldsSame(a: map<string, Attr>, b: map<string, Attr>, keys: seq<string>)
    requires forall k :: k in keys ==> k in a && k in b && a[k] == b[k]
    ensures Fields(a, keys) == Fields(b, keys)
    ensures keys != [] ==> Fields(a, keys[1..]) == Fields(b, keys[1..])
  {
    if keys != [] { FieldsSame(a, b, keys[1..]); }
  }

  /** Loading raises on a text without an equals sign, on a key the instance does not have, and on a
      number that is not one. */
  lemma {:induction false} LoadRaises(attrs: map<string, Attr>, key: string, value: string)
    requires key != [] && Lacks(key, '=') && Lacks(value, '=')
    ensures Load(attrs, key) == None
    ensures key !in attrs ==> Load(attrs, key + "=" + value) == None
    ensures key in attrs && attrs[key].IntV? && ParseInt(value) == None ==> Load(attrs, key + "=" + value) == None
  {
    assert key[1..|key|] == key[1..];
    FindIs(key, '=', 1, |key|);
    assert Match(key) == None;
    MatchField(key, value, []);
    assert key + "=" + value + [] == key + "=" + value;
    hide Match;
  }

  /** A line of an unknown class raises. */
  lemma UnknownClassRaises(classes: Classes, name: string, body: string)
    requires Lacks(name, ' ') && Lacks(name, '\n') && Lacks(body, '\n') && name !in classes
    ensures LoadEvent(classes, name + (" " + body) + "\n") == None
  {
    hide Load, DropNewlines, Find;
    DropNothing(name + (" " + body));
    SplitLine(name, body);
  }

  /** Which events print: those without an equals sign or a newline in any value. */
  lemma SavesExactly(e: Event)
    ensures Save(e).Some? <==> forall k :: k in e.attrs ==> '=' !in AttrText(e.attrs[k]) && '\n' !in AttrText(e.attrs[k])
  {
    hide Fields, AttrText;
  }

  /** A line as it stands in the log. */
  lemma {:induction false} KnownLine(e: Event)
    requires e == Event("BankPayment", map["source" := StrV("a b"), "amount" := IntV(7)])
    ensures Save(e) == Some("BankPayment amount=7 source=a b")
  {
    hide Fields, AttrText, InOrder, Save, ValueOk;
    KnownOrder();
    assert e.attrs.Keys == {"amount", "source"};
    KnownValues();
    ValueOkIs(IntV(7));
    ValueOkIs(StrV("a b"));
    SaveSucceeds(e, ["amount", "source"]);
    KnownFields(e.attrs);
    assert "BankPayment" + " amount=7 source=a b" == "BankPayment amount=7 source=a b";
  }

  lemma {:induction false} KnownOrder()
    ensures InOrder({"amount", "source"}) == ["amount", "source"]
  {
    var keys := ["amount", "source"];
    assert Less("amount", "source");
    assert Elements(keys) == {"amount", "source"};
    AscendingUnique(keys, InOrder({"amount", "source"}));
  }

  lemma KnownValues()
    ensures AttrText(IntV(7)) == "7" && AttrText(StrV("a b")) == "a b"
  {
    assert Numeral(7) == "7";
  }

  lemma {:induction false} KnownFields(attrs: map<string, Attr>)
    requires attrs == map["source" := StrV("a b"), "amount" := IntV(7)]
    ensures Fields(attrs, ["amount", "source"]) == " amount=7 source=a b"
  {
    KnownValues();
    hide AttrText;
    assert ["amount", "source"][1..] == ["source"] && ["source"][1..] == [];
    assert Fields(attrs, []) == [];
    assert Fields(attrs, ["source"]) == " " + ("source" + "=" + "a b");
  }

  lemma {:induction false} FieldsHead(attrs: map<string, Attr>, keys: seq<string>)
    requires keys != [] && forall k :: k in keys ==> k in attrs
    ensures Fields(attrs, keys) == " " + (Field(keys[0], attrs[keys[0]]) + Fields(attrs, keys[1..]))
  {
    hide Field;
  }

  lemma SplitLine(name: string, body: string)
    requires Lacks(name, ' ')
    ensures var text := name + (" " + body);
      Find(text, ' ', 0) == |name| < |text| && text[..|name|] == name && text[|name| + 1..] == body
  {
    var text := name + (" " + body);
    assert text[0..|name|] == name && text[|name|] == ' ';
    FindIs(text, ' ', 0, |name|);
  }

  /** The event object: `__str__` and `load` as loops over its attributes. */
  class ServerEvent {
    var attrs: map<string, Attr>

    constructor (name: string, attrs: map<string, Attr>)
      requires "eventName" !in attrs
      ensures IsDict(this.attrs) && FromDict(this.attrs) == Event(name, attrs)
    {
      this.attrs := attrs["eventName" := StrV(name)];
      assert attrs["eventName" := StrV(name)] - {"eventName"} == attrs;
    }

    /** `load`; on an exception the attributes set so far stay set. */
    method LoadText(data: string) returns (ok: bool)
      modifies this
      ensures ok <==> Load(old(attrs), data).Some?
      ensures attrs == LoadedSoFar(old(attrs), data) && SameShape(old(attrs), attrs)
      ensures IsDict(old(attrs)) ==> IsDict(attrs)
      ensures ok ==> attrs == Load(old(attrs), data).value
    {
      LoadKeepsShape(attrs, data);
      var rest := data;
      while rest != []
        invariant Load(attrs, rest) == Load(old(attrs), data)
        invariant LoadedSoFar(attrs, rest) == LoadedSoFar(old(attrs), data)
        decreases |rest|
      {
        var step := LoadOne(attrs, rest);
        if step == None {
          return false;
        }
        attrs := step.value.0;
        rest := step.value.1;
      }
      return true;
    }

    /** `__str__`. */
    method Print() returns (text: Option<string>)
      requires IsDict(attrs)
      ensures text == Save(FromDict(attrs))
    {
      var name, others := attrs["eventName"].s, attrs - {"eventName"};
      text := PrintFields(name, others);
    }

    /** The loop over the sorted keys. */
    static method PrintFields(name: string, attrs: map<string, Attr>) returns (text: Option<string>)
      ensures text == Save(Event(name, attrs))
    {
      hide Fields, AttrText, Field, ValueOk, Save;
      var keys := SortedKeys(attrs.Keys);
      var data := name;
      NoFields(name, attrs);
      for i := 0 to |keys|
        invariant data == name + Fields(attrs, keys[..i])
        invariant forall j :: 0 <= j < i ==> ValueOk(attrs[keys[j]])
      {
        var a := attrs[keys[i]];
        ValueOkIs(a);
        if '=' in AttrText(a) || '\n' in AttrText(a) {
          SaveFails(Event(name, attrs), keys[i]);
          return None;
        }
        FieldsSnoc(name, attrs, keys, i);
        data := data + " " + keys[i] + "=" + AttrText(a);
      }
      assert keys[..|keys|] == keys;
      SaveSucceeds(Event(name, attrs), keys);
      return Some(data);
    }
  }

  lemma {:induction false} NoFields(name: string, attrs: map<string, Attr>)
    ensures name == name + Fields(attrs, [])
  {
  }

  lemma ValueOkIs(a: Attr)
    ensures ValueOk(a) <==> '=' !in AttrText(a) && '\n' !in AttrText(a)
  {
  }

  lemma SaveFails(e: Event, k: string)
    requires k in e.attrs && !ValueOk(e.attrs[k])
    ensures Save(e) == None
  {
  }

  lemma {:induction false} SaveSucceeds(e: Event, keys: seq<string>)
    requires keys == InOrder(e.attrs.Keys) && forall j :: 0 <= j < |keys| ==> ValueOk(e.attrs[keys[j]])
    ensures Save(e) == Some(e.name + Fields(e.attrs, keys))
  {
    hide Fields, ValueOk;
    assert forall k :: k in e.attrs ==> k in keys;
  }

  lemma {:induction false} FieldsSnoc(pre: string, attrs: map<string, Attr>, keys: seq<string>, n: nat)
    requires n < |keys| && forall k :: k in keys ==> k in attrs
    ensures pre + Fields(attrs, keys[..n + 1])
      == pre + Fields(attrs, keys[..n]) + " " + keys[n] + "=" + AttrText(attrs[keys[n]])
  {
    hide *;
    FieldsAppend(attrs, keys, n);
    var sofar, k, t := Fields(attrs, keys[..n]), keys[n], AttrText(attrs[keys[n]]);
    FieldIs(k, attrs[k]);
    Assoc(pre, sofar, " " + (k + "=" + t));
    Assoc(pre + sofar, " ", k + "=" + t);
    Assoc(pre + sofar + " ", k + "=", t);
    Assoc(pre + sofar + " ", k, "=");
  }

  lemma FieldIs(k: string, a: Attr)
    ensures Field(k, a) == k + "=" + AttrText(a)
  {
  }

  lemma {:induction false} FieldsAppend(attrs: map<string, Attr>, keys: seq<string>, n: nat)
    requires n < |keys| && forall k :: k in keys ==> k in attrs
    ensures Fields(attrs, keys[..n + 1]) == Fields(attrs, keys[..n]) + (" " + Field(keys[n], attrs[keys[n]]))
  {
    hide Field;
    if n == 0 {
      assert keys[..1] == [keys[0]];
      assert Fields(attrs, []) == [];
    } else {
      FieldsAppend(attrs, keys[1..], n - 1);
      assert keys[..n + 1][1..] == keys[1..][..n] && keys[..n][1..] == keys[1..][..n - 1];
    }
  }
}
