/** Reading event files that are still being written, into one table per event class with
    one row per hour and source (EventLogging.py, Events.py, and the caller in fetch.py). */
module EventLog {
  import opened Text
  import opened EventText

  const HOUR := 3600

  /** What an aggregate event contributes, and to which table. */
  datatype Entry = Entry(table: string, time: int, source: string, amount: int)

  datatype Row = Row(table: string, hour: int, source: string, amount: int)

  function HourOf(time: int): int { time - time % HOUR }

  // ---------------------------------------------------------------- the tables

  predicate Matches(r: Row, e: Entry) { r.table == e.table && r.hour == HourOf(e.time) && r.source == e.source }

  function NewRow(e: Entry): Row { Row(e.table, HourOf(e.time), e.source, e.amount) }

  function Bumped(r: Row, e: Entry): Row {
    if Matches(r, e) then r.(amount := r.amount + e.amount) else r
  }

  /** `UPDATE ... SET amount = amount + ...` on every matching row. */
  function Bump(rows: seq<Row>, e: Entry): seq<Row> {
    if rows == [] then [] else [Bumped(rows[0], e)] + Bump(rows[1..], e)
  }

  predicate HasRow(rows: seq<Row>, e: Entry) { exists r :: r in rows && Matches(r, e) }

  /** `AggregateEvent.insert`. */
  function Record(rows: seq<Row>, e: Entry): seq<Row> {
    if HasRow(rows, e) then Bump(rows, e) else rows + [NewRow(e)]
  }

  function RecordAll(rows: seq<Row>, es: seq<Entry>): seq<Row> {
    if es == [] then rows else Record(RecordAll(rows, es[..|es| - 1]), es[|es| - 1])
  }

  /** The amounts logged for the table, hour and source of a row. */
  function Total(es: seq<Entry>, r: Row): int {
    if es == [] then 0
    else
      var e := es[|es| - 1];
      Total(es[..|es| - 1], r) + if Matches(r, e) then e.amount else 0
  }

  /** Exactly one row for each table, hour and source that occurs, and no other, holding the sum of
      its amounts. */
  ghost predicate Sums(rows: seq<Row>, es: seq<Entry>) {
    && OneRowEach(rows)
    && (forall i :: 0 <= i < |rows| ==> rows[i].amount == Total(es, rows[i]))
    && (forall e :: e in es ==> HasRow(rows, e))
    && (forall i :: 0 <= i < |rows| ==> Occurs(es, rows[i]))
  }

  predicate SamePlace(a: Row, b: Row) { a.table == b.table && a.hour == b.hour && a.source == b.source }

  /** No two rows for the same table, hour and source. */
  ghost predicate OneRowEach(rows: seq<Row>) {
    forall i, j :: 0 <= i < j < |rows| ==> !SamePlace(rows[i], rows[j])
  }

  ghost predicate Occurs(es: seq<Entry>, r: Row) { exists e :: e in es && Matches(r, e) }

  lemma {:induction false} BumpAt(rows: seq<Row>, e: Entry)
    ensures |Bump(rows, e)| == |rows|
    ensures forall i :: 0 <= i < |rows| ==> Bump(rows, e)[i] == Bumped(rows[i], e)
  {
    if rows != [] { BumpAt(rows[1..], e); }
  }

  lemma {:induction false} NoEventsNoAmount(es: seq<Entry>, r: Row)
    requires forall e :: e in es ==> !Matches(r, e)
    ensures Total(es, r) == 0
  {
    if es != [] { NoEventsNoAmount(es[..|es| - 1], r); }
  }

  lemma {:induction false} TotalByPlace(es: seq<Entry>, a: Row, b: Row)
    requires SamePlace(a, b)
    ensures Total(es, a) == Total(es, b)
  {
    if es != [] { TotalByPlace(es[..|es| - 1], a, b); }
  }

  lemma RecordOneRowEach(rows: seq<Row>, e: Entry)
    requires OneRowEach(rows)
    ensures OneRowEach(Record(rows, e))
  {
    hide HourOf;
    BumpAt(rows, e);
    if !HasRow(rows, e) {
      forall i | 0 <= i < |rows| ensures !Matches(rows[i], e) { assert rows[i] in rows; }
    }
  }

  lemma HasRowAt(rows: seq<Row>, e: Entry, i: nat)
    requires i < |rows| && Matches(rows[i], e)
    ensures HasRow(rows, e)
  {
    assert rows[i] in rows;
  }

  lemma {:induction false} BumpSums(rows: seq<Row>, es: seq<Entry>, e: Entry)
    requires Sums(rows, es) && HasRow(rows, e)
    ensures Sums(Bump(rows, e), es + [e])
  {
    hide Occurs, Bump, HourOf;
    var more := Bump(rows, e);
    BumpAt(rows, e);
    assert (es + [e])[..|es|] == es;
    forall i | 0 <= i < |more| ensures more[i].amount == Total(es + [e], more[i]) { TotalByPlace(es, rows[i], more[i]); }
    forall d | d in es + [e] ensures HasRow(more, d) {
      assert HasRow(rows, d);
      var r :| r in rows && Matches(r, d);
      var i :| 0 <= i < |rows| && rows[i] == r;
      HasRowAt(more, d, i);
    }
    forall i | 0 <= i < |more| ensures Occurs(es + [e], more[i]) { OccursStill(es, e, rows[i], more[i]); }
  }

  lemma OccursStill(es: seq<Entry>, e: Entry, r: Row, r': Row)
    requires Occurs(es, r) && SamePlace(r, r')
    ensures Occurs(es + [e], r')
  {
    var d :| d in es && Matches(r, d);
    assert d in es + [e] && Matches(r', d);
  }

  lemma AddRowSums(rows: seq<Row>, es: seq<Entry>, e: Entry)
    requires Sums(rows, es) && !HasRow(rows, e)
    ensures Sums(rows + [NewRow(e)], es + [e])
  {
    hide HourOf, Occurs, Total;
    var row := NewRow(e);
    var more := rows + [row];
    assert (es + [e])[..|es|] == es;
    forall d | d in es ensures !Matches(row, d) {
      assert HasRow(rows, d);
      var r :| r in rows && Matches(r, d);
    }
    NoEventsNoAmount(es, row);
    forall i | 0 <= i < |more| ensures Total(es + [e], more[i]) == Total(es, more[i]) + if Matches(more[i], e) then e.amount else 0 {
      TotalNext(es, e, more[i]);
    }
    forall d | d in es + [e] ensures HasRow(more, d) {
      if d in es {
        var r :| r in rows && Matches(r, d);
        assert r in more;
      } else {
        HasRowAt(more, d, |rows|);
      }
    }
    forall i | 0 <= i < |rows| ensures !Matches(rows[i], e) && Occurs(es + [e], more[i]) {
      assert rows[i] in rows;
      OccursStill(es, e, rows[i], more[i]);
    }
    OccursLast(es, e, row);
  }

  lemma OccursLast(es: seq<Entry>, e: Entry, r: Row)
    requires Matches(r, e)
    ensures Occurs(es + [e], r)
  {
    assert e in es + [e];
  }

  lemma {:induction false} TotalNext(es: seq<Entry>, e: Entry, r: Row)
    ensures Total(es + [e], r) == Total(es, r) + if Matches(r, e) then e.amount else 0
  {
    assert (es + [e])[..|es|] == es;
  }

  /** Inserting keeps one row per table, hour and source, and every row the sum of its amounts. */
  lemma RecordSums(rows: seq<Row>, es: seq<Entry>, e: Entry)
    requires Sums(rows, es)
    ensures Sums(Record(rows, e), es + [e])
  {
    if HasRow(rows, e) { BumpSums(rows, es, e); } else { AddRowSums(rows, es, e); }
  }

  lemma {:induction false} RecordAllSums(rows: seq<Row>, es: seq<Entry>, more: seq<Entry>)
    requires Sums(rows, es)
    ensures Sums(RecordAll(rows, more), es + more)
  {
    if more == [] {
      assert es + more == es;
    } else {
      var front, e := more[..|more| - 1], more[|more| - 1];
      RecordAllSums(rows, es, front);
      RecordSums(RecordAll(rows, front), es + front, e);
      assert es + front + [e] == es + more;
    }
  }

  // ---------------------------------------------------------------- what the rows mean

  /** The event belongs to the row: same table and source, and within the row's 3600 seconds. */
  predicate InRow(r: Row, e: Entry) {
    r.table == e.table && r.source == e.source && r.hour <= e.time < r.hour + 3600
  }

  function AmountIn(es: seq<Entry>, r: Row): int {
    if es == [] then 0
    else AmountIn(es[..|es| - 1], r) + if InRow(r, es[|es| - 1]) then es[|es| - 1].amount else 0
  }

  /** A row starts on a full hour, has an event in it, and holds the amounts of exactly those. */
  ghost predicate RowOk(es: seq<Entry>, r: Row) {
    r.hour % 3600 == 0 && r.amount == AmountIn(es, r) && exists e :: e in es && InRow(r, e)
  }

  predicate RowAt(rows: seq<Row>, e: Entry, i: int) { 0 <= i < |rows| && InRow(rows[i], e) }

  ghost predicate InOneRow(rows: seq<Row>, e: Entry) {
    exists i :: RowAt(rows, e, i) && forall j :: RowAt(rows, e, j) ==> j == i
  }

  ghost predicate ShareRow(rows: seq<Row>, d: Entry, e: Entry) {
    exists i :: RowAt(rows, d, i) && RowAt(rows, e, i)
  }

  predicate SameHour(d: Entry, e: Entry) {
    d.table == e.table && d.source == e.source && d.time / 3600 == e.time / 3600
  }

  /** Every row is right, every event is in exactly one row, and two events are in the same row if
      and only if table, source and hour of the clock agree. */
  ghost predicate Hourly(rows: seq<Row>, es: seq<Entry>) {
    && (forall i :: 0 <= i < |rows| ==> RowOk(es, rows[i]))
    && (forall e :: e in es ==> InOneRow(rows, e))
    && (forall d, e :: d in es && e in es ==> (ShareRow(rows, d, e) <==> SameHour(d, e)))
  }

  lemma MatchesIsInRow(r: Row, e: Entry)
    requires r.hour % 3600 == 0
    ensures Matches(r, e) <==> InRow(r, e)
  {
  }

  lemma MatchesAligned(r: Row, e: Entry)
    requires Matches(r, e)
    ensures r.hour % 3600 == 0
  {
  }

  lemma InRowShared(r: Row, d: Entry, e: Entry)
    requires r.hour % 3600 == 0 && InRow(r, d)
    ensures InRow(r, e) <==> SameHour(d, e)
  {
  }

  lemma {:induction false} TotalIsAmount(es: seq<Entry>, r: Row)
    requires r.hour % 3600 == 0
    ensures Total(es, r) == AmountIn(es, r)
  {
    if es != [] {
      TotalIsAmount(es[..|es| - 1], r);
      MatchesIsInRow(r, es[|es| - 1]);
    }
  }

  lemma SumsRowOk(rows: seq<Row>, es: seq<Entry>, i: nat)
    requires Sums(rows, es) && i < |rows|
    ensures RowOk(es, rows[i])
  {
    hide Matches, InRow, Total, AmountIn;
    var r := rows[i];
    assert Occurs(es, r);
    var e :| e in es && Matches(r, e);
    MatchesAligned(r, e);
    MatchesIsInRow(r, e);
    TotalIsAmount(es, r);
  }

  lemma SumsInOneRow(rows: seq<Row>, es: seq<Entry>, e: Entry)
    requires Sums(rows, es) && e in es
    ensures InOneRow(rows, e)
  {
    hide Matches, InRow, Total, AmountIn, Occurs;
    assert HasRow(rows, e);
    var r :| r in rows && Matches(r, e);
    var i :| 0 <= i < |rows| && rows[i] == r;
    SumsRowOk(rows, es, i);
    MatchesIsInRow(rows[i], e);
    forall j | RowAt(rows, e, j) ensures j == i {
      SumsRowOk(rows, es, j);
      SamePlaceByEvent(rows[i], rows[j], e);
    }
    assert RowAt(rows, e, i);
  }

  lemma SumsShareRow(rows: seq<Row>, es: seq<Entry>, d: Entry, e: Entry)
    requires Sums(rows, es) && d in es
    ensures ShareRow(rows, d, e) <==> SameHour(d, e)
  {
    hide InRow, SameHour, Sums;
    SumsInOneRow(rows, es, d);
    var i :| RowAt(rows, d, i);
    SumsRowOk(rows, es, i);
    InRowShared(rows[i], d, e);
    if ShareRow(rows, d, e) {
      var j :| RowAt(rows, d, j) && RowAt(rows, e, j);
      SumsRowOk(rows, es, j);
      InRowShared(rows[j], d, e);
    }
  }

  /** The rows kept by matching rounded times are the hourly rows. */
  lemma SumsAreHourly(rows: seq<Row>, es: seq<Entry>)
    requires Sums(rows, es)
    ensures Hourly(rows, es)
  {
    hide Sums, RowOk, InOneRow, ShareRow, SameHour;
    forall i | 0 <= i < |rows| ensures RowOk(es, rows[i]) { SumsRowOk(rows, es, i); }
    forall e | e in es ensures InOneRow(rows, e) { SumsInOneRow(rows, es, e); }
    forall d, e | d in es && e in es ensures ShareRow(rows, d, e) <==> SameHour(d, e) { SumsShareRow(rows, es, d, e); }
  }

  lemma SamePlaceByEvent(a: Row, b: Row, e: Entry)
    requires a.hour % 3600 == 0 && b.hour % 3600 == 0 && InRow(a, e) && InRow(b, e)
    ensures SamePlace(a, b)
  {
  }

  // ---------------------------------------------------------------- lines of a growing file

  /** The complete lines of a file, newlines included; an unfinished last line is not one. */
  function Lines(file: string): seq<string>
    decreases |file|
  {
    var i := Find(file, '\n', 0);
    if i == |file| then [] else [file[..i + 1]] + Lines(file[i + 1..])
  }

  lemma {:induction false} LinesFirst(file: string)
    ensures var i := Find(file, '\n', 0);
      Lines(file) == if i == |file| then [] else [file[..i + 1]] + Lines(file[i + 1..])
  {
  }

  /** Appending never changes the lines already complete. */
  lemma {:induction false} LinesGrow(file: string, text: string)
    ensures Lines(file) <= Lines(file + text)
    decreases |file|
  {
    hide Lines;
    LinesFirst(file);
    var i := Find(file, '\n', 0);
    if i < |file| {
      var both := file + text;
      LinesFirst(both);
      assert both[0..i] == file[0..i];
      FindIs(both, '\n', 0, i);
      assert both[..i + 1] == file[..i + 1] && both[i + 1..] == file[i + 1..] + text;
      LinesGrow(file[i + 1..], text);
    }
  }

  // ---------------------------------------------------------------- passes

  /** Reading a line as an aggregate event; `None` is an exception. */
  type Loader = string -> Option<Entry>

  /** The file, the count of lines parsed as kept by the caller, the lines inserted so far in
      order, and the table. */
  datatype Log = Log(file: string, seen: nat, inserted: seq<string>, rows: seq<Row>)

  datatype Step = Append(text: string) | Pass

  function Loadable(load: Loader, lines: seq<string>): (k: nat)
    ensures k <= |lines| && (forall i :: 0 <= i < k ==> load(lines[i]).Some?)
    ensures k < |lines| ==> load(lines[k]).None?
  {
    if lines == [] || load(lines[0]).None? then 0 else 1 + Loadable(load, lines[1..])
  }

  function Entries(load: Loader, lines: seq<string>): seq<Entry>
    requires forall i :: 0 <= i < |lines| ==> load(lines[i]).Some?
  {
    seq(|lines|, i requires 0 <= i < |lines| => load(lines[i]).value)
  }

  function NewLines(log: Log): seq<string> {
    var lines := Lines(log.file);
    if log.seen <= |lines| then lines[log.seen..] else []
  }

  /** One parse of the file by the collector: rows inserted before a bad line are committed, but
      the count of lines moves on only if every line loads. */
  function ParsePass(load: Loader, log: Log): Log {
    var recent := NewLines(log);
    var k := Loadable(load, recent);
    log.(inserted := log.inserted + recent[..k],
         rows := RecordAll(log.rows, Entries(load, recent[..k])),
         seen := if k == |recent| then |Lines(log.file)| else log.seen)
  }

  function Next(load: Loader, log: Log, step: Step): Log {
    match step
    case Append(text) => log.(file := log.file + text)
    case Pass => ParsePass(load, log)
  }

  function Run(load: Loader, log: Log, steps: seq<Step>): Log {
    if steps == [] then log else Next(load, Run(load, log, steps[..|steps| - 1]), steps[|steps| - 1])
  }

  const NewLog := Log([], 0, [], [])

  /** The lines inserted are exactly the first `seen` complete lines, once each and in order. */
  ghost predicate ExactlyOnce(log: Log) {
    log.seen <= |Lines(log.file)| && log.inserted == Lines(log.file)[..log.seen]
  }

  ghost predicate AllLoad(load: Loader, lines: seq<string>) {
    forall i :: 0 <= i < |lines| ==> load(lines[i]).Some?
  }

  /** Inserted lines all loaded, and the table sums them. */
  ghost predicate Tabled(load: Loader, log: Log) {
    AllLoad(load, log.inserted) && Sums(log.rows, Entries(load, log.inserted))
  }

  /** Exactly when a pass keeps the once-only property: no new line fails to load, or the very
      first one does. A failure further on leaves the lines before it to be inserted again. */
  lemma PassKeepsOnceExactly(load: Loader, log: Log)
    requires ExactlyOnce(log)
    ensures var k := Loadable(load, NewLines(log));
      ExactlyOnce(ParsePass(load, log)) <==> k == |NewLines(log)| || k == 0
  {
    var lines := Lines(log.file);
    assert lines[..log.seen] + lines[log.seen..] == lines;
    assert NewLines(log)[..|NewLines(log)|] == NewLines(log);
    assert log.inserted + [] == log.inserted;
    assert lines[..|lines|] == lines;
  }

  lemma PassTables(load: Loader, log: Log)
    requires Tabled(load, log)
    ensures Tabled(load, ParsePass(load, log))
  {
    var k := Loadable(load, NewLines(log));
    var more := NewLines(log)[..k];
    RecordAllSums(log.rows, Entries(load, log.inserted), Entries(load, more));
    assert Entries(load, log.inserted + more) == Entries(load, log.inserted) + Entries(load, more);
  }

  lemma AppendKeepsOnce(log: Log, text: string)
    requires ExactlyOnce(log)
    ensures ExactlyOnce(log.(file := log.file + text))
  {
    LinesGrow(log.file, text);
    var before, after := Lines(log.file), Lines(log.file + text);
    assert before == after[..|before|];
    assert before[..log.seen] == after[..log.seen];
  }

  /** For any interleaving of appends, partial lines included, and passes in which every line
      loads, each complete line is inserted exactly once and in order, and the tables hold one
      row per class, hour and source with the sum of its amounts. */
  lemma {:induction false} LinesInsertedExactlyOnce(load: Loader, steps: seq<Step>)
    requires AllLoad(load, Lines(Run(load, NewLog, steps).file))
    ensures var log := Run(load, NewLog, steps);
      && ExactlyOnce(log) && Tabled(load, log)
      && (steps != [] && steps[|steps| - 1] == Pass ==> log.inserted == Lines(log.file))
  {
    if steps != [] {
      var front := steps[..|steps| - 1];
      var before, step := Run(load, NewLog, front), steps[|steps| - 1];
      if step.Append? {
        LinesGrow(before.file, step.text);
        LinesInsertedExactlyOnce(load, front);
        AppendKeepsOnce(before, step.text);
      } else {
        LinesInsertedExactlyOnce(load, front);
        PassKeepsOnceExactly(load, before);
        PassTables(load, before);
        var after := ParsePass(load, before);
        assert after.seen == |Lines(after.file)|;
        assert Lines(after.file)[..|Lines(after.file)|] == Lines(after.file);
      }
    }
  }

  // ---------------------------------------------------------------- bad lines

  /** A pass from here stops at a bad line after inserting at least one good one. */
  predicate Stumbles(load: Loader, log: Log) {
    0 < Loadable(load, NewLines(log)) < |NewLines(log)|
  }

  ghost predicate StumblesAt(load: Loader, steps: seq<Step>, i: nat) {
    i < |steps| && steps[i] == Pass && Stumbles(load, Run(load, NewLog, steps[..i]))
  }

  /** Some pass of the run met a bad line after a loadable one. */
  ghost predicate Stumbled(load: Loader, steps: seq<Step>) { exists i: nat :: StumblesAt(load, steps, i) }

  lemma StumbledFront(load: Loader, steps: seq<Step>)
    requires steps != []
    ensures var front := steps[..|steps| - 1];
      Stumbled(load, steps) <==>
        Stumbled(load, front) || (steps[|steps| - 1] == Pass && Stumbles(load, Run(load, NewLog, front)))
  {
    hide Stumbles, Run;
    var front := steps[..|steps| - 1];
    forall i: nat | i < |front| ensures StumblesAt(load, steps, i) <==> StumblesAt(load, front, i) {
      assert front[..i] == steps[..i];
    }
    assert StumblesAt(load, steps, |front|) <==> steps[|front|] == Pass && Stumbles(load, Run(load, NewLog, front));
  }

  /** The good lines before the bad one. */
  function Stretch(load: Loader, log: Log): seq<string> { NewLines(log)[..Loadable(load, NewLines(log))] }

  lemma {:induction false} LoadablePrefix(load: Loader, lines: seq<string>, more: seq<string>)
    requires lines <= more && Loadable(load, lines) < |lines|
    ensures Loadable(load, more) == Loadable(load, lines)
  {
    if load(lines[0]).Some? { LoadablePrefix(load, lines[1..], more[1..]); }
  }

  /** Nothing written to the file later gets a pass over the bad line. */
  lemma AppendStumbles(load: Loader, log: Log, text: string)
    requires Stumbles(load, log)
    ensures var r := log.(file := log.file + text); Stumbles(load, r) && Stretch(load, r) == Stretch(load, log)
  {
    hide Lines;
    var r := log.(file := log.file + text);
    LinesGrow(log.file, text);
    var a, b := Lines(log.file), Lines(r.file);
    assert a[log.seen..] <= b[log.seen..];
    LoadablePrefix(load, NewLines(log), NewLines(r));
  }

  lemma PassStumbles(load: Loader, log: Log)
    requires Stumbles(load, log)
    ensures var r := ParsePass(load, log);
      && Stumbles(load, r) && Stretch(load, r) == Stretch(load, log)
      && r.seen == log.seen && r.inserted == log.inserted + Stretch(load, log)
  {
    assert NewLines(ParsePass(load, log)) == NewLines(log);
  }

  function Passes(steps: seq<Step>): nat {
    if steps == [] then 0 else Passes(steps[..|steps| - 1]) + if steps[|steps| - 1] == Pass then 1 else 0
  }

  function Times(lines: seq<string>, n: nat): seq<string> {
    if n == 0 then [] else Times(lines, n - 1) + lines
  }

  /** From then on, whatever is appended, the count of parsed lines never moves again and every
      further pass inserts the same good lines once more; the table sums all the copies. */
  lemma {:induction false} StuckForever(load: Loader, log: Log, steps: seq<Step>)
    requires Stumbles(load, log)
    ensures var r := Run(load, log, steps);
      && Stumbles(load, r) && Stretch(load, r) == Stretch(load, log)
      && r.seen == log.seen && r.inserted == log.inserted + Times(Stretch(load, log), Passes(steps))
      && (Tabled(load, log) ==> Tabled(load, r))
  {
    hide Stumbles, Stretch, Tabled, ParsePass;
    if steps == [] {
      assert log.inserted + [] == log.inserted;
    } else {
      var front, step := steps[..|steps| - 1], steps[|steps| - 1];
      StuckForever(load, log, front);
      var before := Run(load, log, front);
      if step.Append? {
        AppendStumbles(load, before, step.text);
        AppendTabled(load, before, step.text);
      } else {
        PassStumbles(load, before);
        if Tabled(load, before) { PassTables(load, before); }
      }
    }
  }

  lemma AppendTabled(load: Loader, log: Log, text: string)
    ensures Tabled(load, log.(file := log.file + text)) <==> Tabled(load, log)
  {
  }

  /** Over every run: the lines inserted are the complete lines parsed so far, once each and in
      order, if and only if no pass met a bad line after a loadable one. Otherwise more lines were
      inserted than parsed, and the next pass stumbles again. */
  lemma {:induction false} OnceExactly(load: Loader, steps: seq<Step>)
    ensures var log := Run(load, NewLog, steps);
      && (ExactlyOnce(log) <==> !Stumbled(load, steps))
      && (Stumbled(load, steps) ==> Stumbles(load, log) && |log.inserted| > log.seen)
  {
    hide Stumbles, Stumbled, Lines, NewLines;
    if steps == [] {
      NothingStumbled(load);
    } else {
      var front := steps[..|steps| - 1];
      OnceExactly(load, front);
      StumbledFront(load, steps);
      var before := Run(load, NewLog, front);
      match steps[|steps| - 1]
      case Append(text) =>
        if Stumbled(load, front) { AppendStumbles(load, before, text); } else { AppendKeepsOnce(before, text); }
      case Pass =>
        if Stumbled(load, front) {
          PassStumbles(load, before);
        } else {
          PassOnceOrStumbles(load, before);
        }
    }
  }

  lemma NothingStumbled(load: Loader)
    ensures ExactlyOnce(NewLog) && !Stumbled(load, [])
  {
  }

  lemma PassOnceOrStumbles(load: Loader, log: Log)
    requires ExactlyOnce(log)
    ensures var r := ParsePass(load, log);
      && (ExactlyOnce(r) <==> !Stumbles(load, log))
      && (Stumbles(load, log) ==> Stumbles(load, r) && |r.inserted| > r.seen)
  {
    PassKeepsOnceExactly(load, log);
    if Stumbles(load, log) { PassStumbles(load, log); }
  }

  /** A file with one good and one bad line: the second pass inserts the good line again and
      doubles its row. */
  lemma BadLineDoubles(load: Loader, good: string, bad: string, e: Entry)
    requires Lacks(good, '\n') && Lacks(bad, '\n') && load(good + "\n") == Some(e) && load(bad + "\n") == None
    ensures var g, b := good + "\n", bad + "\n"; var log := Run(load, NewLog, [Append(g + b), Pass, Pass]);
      log.inserted == [g, g] && log.rows == [NewRow(e.(amount := e.amount + e.amount))]
  {
    TwoLines(good, bad);
    DoublePass(load, good + "\n", bad + "\n", e);
  }

  lemma {:induction false} DoublePass(load: Loader, g: string, b: string, e: Entry)
    requires Lines(g + b) == [g, b] && load(g) == Some(e) && load(b) == None
    ensures var log := Run(load, NewLog, [Append(g + b), Pass, Pass]);
      log.inserted == [g, g] && log.rows == [NewRow(e.(amount := e.amount + e.amount))]
  {
    hide Lines, ParsePass, Record, Run, HourOf;
    var log := Log(g + b, 0, [], []);
    RunThree(load, NewLog, Append(g + b), Pass, Pass);
    assert [] + (g + b) == g + b;
    OnePass(load, log, g, b, e);
    OnePass(load, ParsePass(load, log), g, b, e);
    RecordTwice(e);
  }

  lemma {:induction false} TwoLines(good: string, bad: string)
    requires Lacks(good, '\n') && Lacks(bad, '\n')
    ensures Lines(good + "\n" + (bad + "\n")) == [good + "\n", bad + "\n"]
  {
    FirstLine(good, bad + "\n");
    FirstLine(bad, "");
    assert bad + "\n" + "" == bad + "\n";
    NoLine("");
  }

  lemma {:induction false} RunThree(load: Loader, log: Log, a: Step, b: Step, c: Step)
    ensures Run(load, log, [a, b, c]) == Next(load, Next(load, Next(load, log, a), b), c)
  {
    hide Next;
    assert [a, b, c][..2] == [a, b] && [a, b][..1] == [a] && [a][..0] == [];
    assert Run(load, log, [a]) == Next(load, log, a);
    assert Run(load, log, [a, b]) == Next(load, Run(load, log, [a]), b);
  }

  lemma {:induction false} RecordTwice(e: Entry)
    ensures Record(Record([], e), e) == [NewRow(e.(amount := e.amount + e.amount))]
  {
    var row := NewRow(e);
    assert Record([], e) == [row];
    assert row in [row] && Matches(row, e);
    assert HasRow([row], e);
    assert [row][1..] == [] && Bump([row][1..], e) == [];
    assert Bump([row], e) == [Bumped(row, e)];
  }

  lemma OnePass(load: Loader, log: Log, good: string, bad: string, e: Entry)
    requires Lines(log.file) == [good, bad] && log.seen == 0 && load(good) == Some(e) && load(bad) == None
    ensures var r := ParsePass(load, log);
      r == log.(inserted := log.inserted + [good], rows := Record(log.rows, e))
  {
    var recent := NewLines(log);
    assert recent == [good, bad] && recent[1..] == [bad];
    assert Loadable(load, recent) == 1;
    assert Entries(load, recent[..1]) == [e] && [e][..0] == [];
    assert RecordAll(log.rows, [e]) == Record(log.rows, e);
  }

  // ---------------------------------------------------------------- from events to totals

  /** `_get_table_name`: each class of events has a table of its own. */
  function TableOf(name: string): string { Lower(name) + "_events" }

  /** Two classes share a table exactly when their names differ in case only. */
  lemma {:induction false} TableExactly(a: string, b: string)
    ensures TableOf(a) == TableOf(b) <==> Lower(a) == Lower(b)
  {
    hide Lower;
    if TableOf(a) == TableOf(b) {
      assert TableOf(a)[..|TableOf(a)| - 7] == Lower(a) && TableOf(b)[..|TableOf(b)| - 7] == Lower(b);
    }
  }

  lemma {:induction false} BankTable()
    ensures TableOf("BankPayment") == "bankpayment_events"
  {
    hide Lower;
    LowerAt("BankPayment");
    assert Lower("BankPayment") == "bankpayment";
  }

  /** What an event adds to its table, if it is an aggregate event. */
  function Contribution(e: Event): Option<Entry> {
    if && "eventTime" in e.attrs && e.attrs["eventTime"].IntV?
       && "source" in e.attrs && e.attrs["source"].StrV?
       && "amount" in e.attrs && e.attrs["amount"].IntV?
    then Some(Entry(TableOf(e.name), e.attrs["eventTime"].i, e.attrs["source"].s, e.attrs["amount"].i))
    else None
  }

  function Contributions(es: seq<Event>): seq<Entry> {
    if es == [] then []
    else (match Contribution(es[0]) case Some(c) => [c] case None => []) + Contributions(es[1..])
  }

  /** An aggregate event of a known class whose keys and name are plain words, and which prints. */
  ghost predicate Loggable(classes: Classes, e: Event) {
    && Contribution(e).Some? && Save(e).Some?
    && Lacks(e.name, ' ') && Lacks(e.name, '\n') && "eventName" !in e.attrs && (forall k :: k in e.attrs ==> KeyOk(k))
    && e.name in classes && SameShape(classes[e.name], e.attrs)
  }

  ghost predicate AllLoggable(classes: Classes, es: seq<Event>) {
    forall i :: 0 <= i < |es| ==> Loggable(classes, es[i])
  }

  /** The line the log handler writes; an event that does not print writes nothing. */
  ghost function LineOf(e: Event): string {
    match Save(e) case Some(text) => text + "\n" case None => []
  }

  ghost function Written(es: seq<Event>): string {
    if es == [] then [] else LineOf(es[0]) + Written(es[1..])
  }

  ghost predicate LoadsLike(classes: Classes, load: Loader) {
    forall line :: load(line) == match LoadEvent(classes, line) case None => None case Some(e) => Contribution(e)
  }

  lemma LineLoads(classes: Classes, load: Loader, e: Event)
    requires LoadsLike(classes, load) && Loggable(classes, e)
    ensures load(LineOf(e)) == Contribution(e)
    ensures exists text :: LineOf(e) == text + "\n" && Lacks(text, '\n')
  {
    hide LoadEvent;
    assert e.attrs != map[];
    SaveThenLoad(classes, e);
    assert LineOf(e) == Save(e).value + "\n";
  }

  lemma {:induction false} FirstLine(text: string, rest: string)
    requires Lacks(text, '\n')
    ensures Lines(text + "\n" + rest) == [text + "\n"] + Lines(rest)
  {
    var file := text + "\n" + rest;
    assert file[0..|text|] == text && file[|text|] == '\n';
    FindIs(file, '\n', 0, |text|);
    assert file[..|text| + 1] == text + "\n" && file[|text| + 1..] == rest;
  }

  lemma {:induction false} NoLine(tail: string)
    requires Lacks(tail, '\n')
    ensures Lines(tail) == []
  {
    assert tail[0..|tail|] == tail;
    FindIs(tail, '\n', 0, |tail|);
  }

  lemma {:induction false} WrittenLines(classes: Classes, load: Loader, es: seq<Event>, tail: string)
    requires LoadsLike(classes, load) && AllLoggable(classes, es) && Lacks(tail, '\n')
    ensures var lines := Lines(Written(es) + tail); AllLoad(load, lines) && Entries(load, lines) == Contributions(es)
    decreases |es|
  {
    hide LoadsLike, Loggable, LineOf, Lines;
    if es == [] {
      assert [] + tail == tail;
      NoLine(tail);
    } else {
      LineLoads(classes, load, es[0]);
      WrittenLines(classes, load, es[1..], tail);
      var rest := Written(es[1..]) + tail;
      var text :| LineOf(es[0]) == text + "\n" && Lacks(text, '\n');
      assert Written(es) + tail == text + "\n" + rest;
      FirstLine(text, rest);
      LoggableContributes(classes, es[0]);
      assert Entries(load, [LineOf(es[0])] + Lines(rest)) == [Contribution(es[0]).value] + Entries(load, Lines(rest));
    }
  }

  lemma LoggableContributes(classes: Classes, e: Event)
    requires Loggable(classes, e)
    ensures Contribution(e).Some?
  {
  }

  /** End to end: whatever the pieces in which the log of `es` reaches the file and whenever it is
      parsed meanwhile, after a last pass the tables have, for every class, hour and source, the sum
      of the amounts of exactly those events. */
  lemma {:induction false} PipelineTotals(classes: Classes, load: Loader, es: seq<Event>, tail: string, steps: seq<Step>)
    requires LoadsLike(classes, load) && AllLoggable(classes, es) && Lacks(tail, '\n')
    requires steps != [] && steps[|steps| - 1] == Pass
    requires Run(load, NewLog, steps).file == Written(es) + tail
    ensures Hourly(Run(load, NewLog, steps).rows, Contributions(es)) && |Contributions(es)| == |es|
    ensures forall i :: 0 <= i < |es| ==> Contribution(es[i]) == Some(Contributions(es)[i])
  {
    WrittenLines(classes, load, es, tail);
    ContributionsCount(classes, es);
    hide LoadsLike, AllLoggable, Lines, Run, Hourly, Sums, Contribution;
    LinesInsertedExactlyOnce(load, steps);
    SumsAreHourly(Run(load, NewLog, steps).rows, Contributions(es));
  }

  /** The same with real lines: an event of a known class, then a line without a space. The second
      pass doubles the event's row. */
  lemma BadLogLineDoubles(classes: Classes, load: Loader, e: Event, bad: string)
    requires LoadsLike(classes, load) && Loggable(classes, e) && Lacks(bad, ' ') && Lacks(bad, '\n')
    ensures var log := Run(load, NewLog, [Append(LineOf(e) + (bad + "\n")), Pass, Pass]); var c := Contribution(e).value;
      log.inserted == [LineOf(e), LineOf(e)] && log.rows == [NewRow(c.(amount := c.amount + c.amount))]
  {
    hide Loggable, LineOf, Run, LoadEvent, Contribution;
    LoggableContributes(classes, e);
    LineLoads(classes, load, e);
    BadLineRaises(classes, bad);
    var text :| LineOf(e) == text + "\n" && Lacks(text, '\n');
    BadLineDoubles(load, text, bad, Contribution(e).value);
  }

  lemma BadLineRaises(classes: Classes, bad: string)
    requires Lacks(bad, ' ') && Lacks(bad, '\n')
    ensures LoadEvent(classes, bad + "\n") == None
  {
    DropNothing(bad);
    assert bad[0..|bad|] == bad;
    FindIs(bad, ' ', 0, |bad|);
  }

  lemma {:induction false} ContributionsCount(classes: Classes, es: seq<Event>)
    requires AllLoggable(classes, es)
    ensures |Contributions(es)| == |es|
    ensures forall i :: 0 <= i < |es| ==> Contribution(es[i]) == Some(Contributions(es)[i])
    decreases |es|
  {
    hide Loggable, Contribution;
    if es != [] {
      LoggableContributes(classes, es[0]);
      ContributionsCount(classes, es[1..]);
      assert forall i :: 1 <= i < |es| ==> es[i] == es[1..][i - 1];
    }
  }

  // ---------------------------------------------------------------- the code's loops

  class Tables {
    var rows: seq<Row>

    constructor ()
      ensures rows == [] && OneRowEach(rows)
    {
      rows := [];
    }

    /** `AggregateEvent.insert`: count the matching rows, then update or insert. The count is never
        more than one, as the source asserts. */
    method InsertEntry(e: Entry)
      requires OneRowEach(rows)
      modifies this
      ensures OneRowEach(rows) && rows == Record(old(rows), e)
    {
      RecordOneRowEach(rows, e);
      hide OneRowEach, Bump, HasRow, HourOf;
      var count := CountRows(e);
      if count > 0 {
        assert count == 1;
        UpdateRows(e);
      } else {
        rows := rows + [NewRow(e)];
      }
    }

    /** `SELECT COUNT(*)`: at most one row matches. */
    method CountRows(e: Entry) returns (count: nat)
      requires OneRowEach(rows)
      ensures count <= 1 && (count == 1 <==> HasRow(rows, e))
    {
      count := 0;
      ghost var at := 0;
      for i := 0 to |rows|
        invariant count <= 1
        invariant if count == 1 then at < i && Matches(rows[at], e) else forall j :: 0 <= j < i ==> !Matches(rows[j], e)
      {
        if Matches(rows[i], e) {
          count := count + 1;
          at := i;
        }
      }
      if count == 1 { assert rows[at] in rows; }
    }

    /** `UPDATE` of the matching rows. */
    method UpdateRows(e: Entry)
      modifies this
      ensures rows == Bump(old(rows), e)
    {
      var before := rows;
      var done: seq<Row> := [];
      for i := 0 to |before|
        invariant rows == before && done + Bump(before[i..], e) == Bump(before, e)
      {
        var r := before[i];
        assert before[i..][0] == r && before[i..][1..] == before[i + 1..];
        done := done + [Bumped(r, e)];
      }
      rows := done;
    }

    /** Load one new line and insert its event. */
    method TakeLine(load: Loader, line: string, earliest: Option<int>,
                    ghost recent: seq<string>, ghost rows0: seq<Row>, ghost k: nat)
      returns (ok: bool, earliest': Option<int>)
      requires OneRowEach(rows)
      requires Progress(load, recent, rows0, rows, earliest, k) && k < |recent| && recent[k] == line
      modifies this
      ensures OneRowEach(rows)
      ensures ok <==> load(line).Some?
      ensures Progress(load, recent, rows0, rows, earliest', if ok then k + 1 else k)
    {
      match load(line)
      case None => return false, earliest;
      case Some(e) =>
        MoreProgress(load, recent, rows0, rows, earliest, k);
        InsertEntry(e);
        return true, if earliest == None then Some(e.time) else earliest;
    }

    /** `parse_events`: returns the first new event's time, if any, and the number of complete
        lines, or `None` if a line does not load. */
    method ParseEvents(load: Loader, file: string, numLines: nat) returns (r: Option<(Option<int>, nat)>)
      requires OneRowEach(rows)
      modifies this
      ensures OneRowEach(rows) && PassResult(load, file, numLines, old(rows), rows, r)
    {
      hide *;
      ghost var recent := NewLines(Log(file, numLines, [], []));
      var earliest: Option<int> := None;
      var rest, lineNum := file, 0;
      NoProgress(load, recent, rows, numLines);
      StartOfFile(file);
      while true
        invariant AtLine(file, rest, lineNum) && OneRowEach(rows)
        invariant Progress(load, recent, old(rows), rows, earliest, Parsed(lineNum, numLines))
        decreases |rest|
      {
        var complete, line, left := ReadLine(rest);
        lineNum := lineNum + 1;
        if !complete {
          EndOfFile(file, rest, lineNum - 1);
          break;
        }
        NextLine(file, rest, line, left, lineNum - 1, numLines);
        rest := left;
        if lineNum > numLines {
          var ok;
          ok, earliest := TakeLine(load, line, earliest, recent, old(rows), lineNum - 1 - numLines);
          if !ok {
            PassFails(load, file, numLines, old(rows), rows, earliest, lineNum - 1 - numLines);
            return None;
          }
        }
      }
      PassSucceeds(load, file, numLines, old(rows), rows, earliest, lineNum - 1);
      return Some((earliest, lineNum - 1));
    }
  }

  /** The complete lines of `rest` are those of `file` after the first `n`. */
  ghost predicate AtLine(file: string, rest: string, n: nat) {
    n <= |Lines(file)| && Lines(file)[n..] == Lines(rest)
  }

  lemma StartOfFile(file: string)
    ensures AtLine(file, file, 0)
  {
  }

  lemma {:induction false} EndOfFile(file: string, rest: string, n: nat)
    requires AtLine(file, rest, n) && Lines(rest) == []
    ensures n == |Lines(file)|
  {
  }

  lemma {:induction false} NextLine(file: string, rest: string, line: string, left: string, n: nat, numLines: nat)
    requires AtLine(file, rest, n) && Lines(rest) == [line] + Lines(left)
    ensures AtLine(file, left, n + 1)
    ensures Parsed(n, numLines) == (if n < numLines then 0 else n - numLines)
    ensures Parsed(n + 1, numLines) == (if n < numLines then 0 else n + 1 - numLines)
    ensures var recent := NewLines(Log(file, numLines, [], []));
      n >= numLines ==> n - numLines < |recent| && recent[n - numLines] == line
  {
    var lines := Lines(file);
    assert lines[n] == lines[n..][0] == line;
    assert lines[n + 1..] == lines[n..][1..];
  }

  /** `readline`: a line with its newline, or what is left without one. */
  method ReadLine(rest: string) returns (complete: bool, line: string, left: string)
    ensures complete ==> Lines(rest) == [line] + Lines(left) && |left| < |rest|
    ensures !complete ==> Lines(rest) == []
  {
    var end := Find(rest, '\n', 0);
    if end == |rest| {
      return false, rest, [];
    }
    return true, rest[..end + 1], rest[end + 1..];
  }

  /** What a parse of `file` from line `numLines` on leaves and returns: all new lines up to the
      first bad one are in the table; without a bad one, the time of the first new event and the
      number of complete lines. */
  ghost predicate PassResult(load: Loader, file: string, numLines: nat, rows0: seq<Row>, rows: seq<Row>,
                             r: Option<(Option<int>, nat)>) {
    var recent := NewLines(Log(file, numLines, [], []));
    var k := Loadable(load, recent);
    && rows == RecordAll(rows0, Entries(load, recent[..k]))
    && r == if k < |recent| then None
            else Some((if recent == [] then None else Some(load(recent[0]).value.time), |Lines(file)|))
  }

  lemma PassFails(load: Loader, file: string, numLines: nat, rows0: seq<Row>, rows: seq<Row>, earliest: Option<int>, n: nat)
    requires var recent := NewLines(Log(file, numLines, [], []));
      Progress(load, recent, rows0, rows, earliest, n) && n < |recent| && load(recent[n]).None?
    ensures PassResult(load, file, numLines, rows0, rows, None)
  {
    ProgressEnds(load, NewLines(Log(file, numLines, [], [])), rows0, rows, earliest, n);
  }

  lemma {:induction false} PassSucceeds(load: Loader, file: string, numLines: nat, rows0: seq<Row>, rows: seq<Row>,
                     earliest: Option<int>, lineNum: nat)
    requires lineNum == |Lines(file)|
    requires Progress(load, NewLines(Log(file, numLines, [], [])), rows0, rows, earliest, Parsed(lineNum, numLines))
    ensures PassResult(load, file, numLines, rows0, rows, Some((earliest, lineNum)))
  {
    ProgressEnds(load, NewLines(Log(file, numLines, [], [])), rows0, rows, earliest, Parsed(lineNum, numLines));
  }

  /** The method's outcome is the abstract pass. */
  lemma PassResultIsPass(load: Loader, log: Log, rows: seq<Row>, r: Option<(Option<int>, nat)>)
    requires PassResult(load, log.file, log.seen, log.rows, rows, r)
    ensures ParsePass(load, log).rows == rows
    ensures ParsePass(load, log).seen == if r.Some? then r.value.1 else log.seen
  {
  }

  function Parsed(lineNum: nat, numLines: nat): nat {
    if lineNum <= numLines then 0 else lineNum - numLines
  }

  /** The state of a pass after its first `n` new lines. */
  ghost predicate Progress(load: Loader, recent: seq<string>, rows0: seq<Row>, rows: seq<Row>, earliest: Option<int>, n: nat) {
    && n <= Loadable(load, recent)
    && rows == RecordAll(rows0, Entries(load, recent[..n]))
    && earliest == if n == 0 then None else Some(load(recent[0]).value.time)
  }

  lemma NoProgress(load: Loader, recent: seq<string>, rows: seq<Row>, numLines: nat)
    ensures Progress(load, recent, rows, rows, None, Parsed(0, numLines))
  {
  }

  lemma MoreProgress(load: Loader, recent: seq<string>, rows0: seq<Row>, rows: seq<Row>, earliest: Option<int>, n: nat)
    requires Progress(load, recent, rows0, rows, earliest, n) && n < |recent| && load(recent[n]).Some?
    ensures var e := load(recent[n]).value;
      Progress(load, recent, rows0, Record(rows, e), if earliest == None then Some(e.time) else earliest, n + 1)
  {
    LoadableAt(load, recent, n);
    EntriesSnoc(load, recent, n, rows0);
  }

  /** A pass stops at the first line that does not load, or at the end. */
  lemma {:induction false} ProgressEnds(load: Loader, recent: seq<string>, rows0: seq<Row>, rows: seq<Row>, earliest: Option<int>, n: nat)
    requires Progress(load, recent, rows0, rows, earliest, n) && n <= |recent|
    requires n < |recent| ==> load(recent[n]).None?
    ensures Loadable(load, recent) == n && rows == RecordAll(rows0, Entries(load, recent[..n]))
    ensures earliest == if n == 0 then None else Some(load(recent[0]).value.time)
  {
    if n < |recent| { LoadableAt(load, recent, n); }
  }

  lemma {:induction false} LoadableAt(load: Loader, lines: seq<string>, k: nat)
    requires k < |lines| && k <= Loadable(load, lines)
    ensures load(lines[k]).Some? ==> k + 1 <= Loadable(load, lines)
    ensures load(lines[k]).None? ==> k == Loadable(load, lines)
  {
  }

  lemma {:induction false} EntriesSnoc(load: Loader, lines: seq<string>, k: nat, rows: seq<Row>)
    requires k < Loadable(load, lines)
    ensures Entries(load, lines[..k + 1]) == Entries(load, lines[..k]) + [load(lines[k]).value]
    ensures RecordAll(rows, Entries(load, lines[..k + 1])) == Record(RecordAll(rows, Entries(load, lines[..k])), load(lines[k]).value)
  {
    var more := Entries(load, lines[..k + 1]);
    assert more[..|more| - 1] == Entries(load, lines[..k]);
  }
}
