/** The tracker's line-by-line HTTP request reader (HTTPHandler.py). */
module Http {
  import opened Text

  // ---------------------------------------------------------------- Python string helpers

  predicate IsSpace(c: char) {
    c == ' ' || c == '\t' || c == '\n' || c == '\r' || c == 11 as char || c == 12 as char
  }

  function StripLeft(s: string): string {
    if s != [] && IsSpace(s[0]) then StripLeft(s[1..]) else s
  }

  function StripRight(s: string): string {
    if s != [] && IsSpace(s[|s| - 1]) then StripRight(s[..|s| - 1]) else s
  }

  function Strip(s: string): string { StripRight(StripLeft(s)) }

  /** Length of the leading run without white space. */
  function WordLength(s: string): (n: nat)
    ensures n <= |s|
  {
    if s == [] || IsSpace(s[0]) then 0 else 1 + WordLength(s[1..])
  }

  /** `s.split()`. */
  function Words(s: string): seq<string>
    decreases |s|
  {
    if s == [] then []
    else if IsSpace(s[0]) then Words(s[1..])
    else [s[..WordLength(s)]] + Words(s[WordLength(s)..])
  }

  predicate Contains(s: string, t: string) {
    t <= s || (s != [] && Contains(s[1..], t))
  }

  // ---------------------------------------------------------------- the parser's state

  /** `next_func`: which method reads the next line; `Stopped` is None. */
  datatype Reader = ReadType | ReadHeader | Stopped

  /** What the request lines have told so far; `calls` records the calls of the request handler. */
  datatype Request = Request(header: string, command: string, path: string, pre1: bool,
                             headers: map<string, string>, encoding: string,
                             calls: seq<(string, map<string, string>)>)

  datatype Conn = Conn(buf: string, next: Reader, done: bool, req: Request)

  const NewConn := Conn("", ReadType, false, Request("", "", "", false, map[], "", []))

  /** `read_type` on one line. */
  function TypeLine(req: Request, line: string): (Request, Reader) {
    var words := Words(line);
    var r := req.(header := Strip(line));
    if |words| == 3 then
      var r3 := r.(command := words[0], path := words[1], pre1 := false);
      if words[0] == "HEAD" || words[0] == "GET" then (r3.(headers := map[]), ReadHeader) else (r3, Stopped)
    else if |words| == 2 then
      var r2 := r.(command := words[0], path := words[1], pre1 := true);
      if words[0] != "GET" then (r2, Stopped) else (r2.(headers := map[]), ReadHeader)
    else (r, Stopped)
  }

  /** `read_header` on one line; the flag tells whether the request is complete. */
  function HeaderLine(req: Request, line: string): (Request, Reader, bool) {
    var data := Strip(line);
    if data == "" then
      var accept := if "accept-encoding" in req.headers then req.headers["accept-encoding"] else "";
      (req.(encoding := if Contains(accept, "gzip") then "gzip" else "identity",
            calls := req.calls + [(req.path, req.headers)]), Stopped, true)
    else
      var i := Find(data, ':', 0);
      if i == |data| then (req, Stopped, false)
      else (req.(headers := req.headers[Lower(Strip(data[..i])) := Strip(data[i + 1..])]), ReadHeader, false)
  }

  function TakeLine(c: Conn, line: string): Conn {
    match c.next
    case ReadType => var (r, n) := TypeLine(c.req, line); c.(req := r, next := n)
    case ReadHeader => var (r, n, done) := HeaderLine(c.req, line); c.(req := r, next := n, done := done)
    case Stopped => c
  }

  /** The line loop: runs until the buffer has no full line left or the reader stops. */
  function Drain(c: Conn): Conn
    decreases |c.buf|
  {
    if c.next == Stopped then c
    else
      var i := Find(c.buf, '\n', 0);
      if i == |c.buf| then c
      else Drain(TakeLine(c.(buf := c.buf[i + 1..]), c.buf[..i]))
  }

  /** `data_came_in`: data after the end of the request is dropped. */
  function Feed(c: Conn, data: string): Conn {
    if c.done || c.next == Stopped then c else Drain(c.(buf := c.buf + data))
  }

  function FeedAll(c: Conn, chunks: seq<string>): Conn {
    if chunks == [] then c else Feed(FeedAll(c, chunks[..|chunks| - 1]), chunks[|chunks| - 1])
  }

  function Joined(chunks: seq<string>): string {
    if chunks == [] then [] else Joined(chunks[..|chunks| - 1]) + chunks[|chunks| - 1]
  }

  // ---------------------------------------------------------------- segmentation

  /** Reading a line does not look at the buffer. */
  lemma TakeLineBuf(c: Conn, line: string, buf: string)
    ensures TakeLine(c.(buf := buf), line) == TakeLine(c, line).(buf := buf) && TakeLine(c, line).buf == c.buf
  {
  }

  /** More data behind the buffer changes nothing about the lines already in it. */
  lemma {:induction false} DrainMore(c: Conn, more: string)
    ensures var d := Drain(c);
      Drain(c.(buf := c.buf + more)) ==
        if d.next == Stopped then d.(buf := d.buf + more) else Drain(d.(buf := d.buf + more))
    decreases |c.buf|
  {
    hide TakeLine;
    var i := Find(c.buf, '\n', 0);
    if c.next != Stopped && i < |c.buf| {
      var both, left, line := c.buf + more, c.buf[i + 1..], c.buf[..i];
      assert both[0..i] == c.buf[0..i];
      FindIs(both, '\n', 0, i);
      assert both[..i] == line && both[i + 1..] == left + more;
      TakeLineBuf(c, line, left);
      TakeLineBuf(c, line, left + more);
      DrainMore(TakeLine(c.(buf := left), line), more);
    }
  }

  /** Nothing left to do until more data comes. */
  predicate Drained(c: Conn) {
    c.next == Stopped || (!c.done && Find(c.buf, '\n', 0) == |c.buf|)
  }

  lemma {:induction false} DrainDrains(c: Conn)
    requires !c.done
    ensures Drained(Drain(c)) && (Drain(c).done ==> Drain(c).next == Stopped)
    decreases |c.buf|
  {
    var i := Find(c.buf, '\n', 0);
    if c.next != Stopped && i < |c.buf| {
      var rest := TakeLine(c.(buf := c.buf[i + 1..]), c.buf[..i]);
      if rest.next != Stopped { DrainDrains(rest); }
    }
  }

  lemma FeedDrained(c: Conn, data: string)
    requires Drained(c)
    ensures Drained(Feed(c, data))
  {
    if c.next != Stopped { DrainDrains(c.(buf := c.buf + data)); }
  }

  /** Exactly when two deliveries equal one, leftover bytes included: the reader was still running
      after the first, or the second was empty. */
  lemma FeedSplitExactly(c: Conn, a: string, b: string)
    requires Drained(c) && c.next != Stopped
    ensures Feed(c, a + b) == Feed(Feed(c, a), b) <==> Feed(c, a).next != Stopped || b == ""
  {
    hide Drain, Find;
    var first := c.(buf := c.buf + a);
    DrainMore(first, b);
    DrainDrains(first);
    assert c.buf + (a + b) == c.buf + a + b;
    var d := Drain(first);
    if d.next == Stopped { assert d.buf + b == d.buf <==> b == []; }
  }

  /** The cuts show in the leftover bytes: a byte behind the line that stops the reader is kept when
      it comes with that line and dropped when it comes later. */
  lemma LeftoverShowsTheCut()
    ensures Feed(NewConn, "\n" + "x").buf == "x" && Feed(Feed(NewConn, "\n"), "x").buf == ""
  {
    DrainLine(NewConn.(buf := "\n" + "x"), "", "x");
    DrainLine(NewConn.(buf := "\n"), "", "");
    assert "" + "\n" + "x" == "\n" + "x" && "" + "\n" + "" == "\n";
    assert "" + ("\n" + "x") == "\n" + "x" && "" + "\n" == "\n";
  }

  /** Everything the program can see: the leftover bytes of a stopped reader are never read again. */
  function Visible(c: Conn): Conn { if c.next == Stopped then c.(buf := "") else c }

  lemma FeedSplit(c: Conn, a: string, b: string)
    requires Drained(c)
    ensures Visible(Feed(c, a + b)) == Visible(Feed(Feed(c, a), b))
  {
    hide Drain, Find;
    if c.next != Stopped {
      DrainMore(c.(buf := c.buf + a), b);
      DrainDrains(c.(buf := c.buf + a));
      assert c.buf + (a + b) == c.buf + a + b;
    }
  }

  lemma FeedVisible(c: Conn, d: Conn, data: string)
    requires Visible(c) == Visible(d) && Drained(c) && Drained(d)
    ensures Visible(Feed(c, data)) == Visible(Feed(d, data))
  {
  }

  lemma {:induction false} FeedAllVisible(c: Conn, chunks: seq<string>)
    requires Drained(c)
    ensures Drained(FeedAll(c, chunks)) && Visible(FeedAll(c, chunks)) == Visible(Feed(c, Joined(chunks)))
  {
    if chunks == [] {
      assert c.buf + [] == c.buf;
    } else {
      var front, last := chunks[..|chunks| - 1], chunks[|chunks| - 1];
      FeedAllVisible(c, front);
      FeedDrained(c, Joined(front));
      FeedDrained(FeedAll(c, front), last);
      FeedVisible(FeedAll(c, front), Feed(c, Joined(front)), last);
      FeedSplit(c, Joined(front), last);
    }
  }

  lemma {:induction false} CallsOnce(c: Conn)
    requires !c.done && c.req.calls == []
    ensures var d := Drain(c); |d.req.calls| == if d.done then 1 else 0
    decreases |c.buf|
  {
    var i := Find(c.buf, '\n', 0);
    if c.next != Stopped && i < |c.buf| {
      var rest := TakeLine(c.(buf := c.buf[i + 1..]), c.buf[..i]);
      if rest.next != Stopped { CallsOnce(rest); }
    }
  }

  /** Any two ways to cut the same byte stream into deliveries leave the same command, path,
      headers and reader, and call the request handler equally: once if the request was complete,
      never otherwise. */
  lemma {:induction false} SegmentationIndependent(chunks: seq<string>, others: seq<string>)
    requires Joined(chunks) == Joined(others)
    ensures var c := FeedAll(NewConn, chunks);
      Visible(c) == Visible(FeedAll(NewConn, others)) && |c.req.calls| == if c.done then 1 else 0
  {
    FeedAllVisible(NewConn, chunks);
    FeedAllVisible(NewConn, others);
    CallsOnce(NewConn.(buf := NewConn.buf + Joined(chunks)));
  }

  // ---------------------------------------------------------------- well-formed requests

  /** White space that can occur inside a line: blank, tab, return, vertical tab, form feed. */
  predicate IsBlank(c: char) { c == ' ' || c == '\t' || c == '\r' || c as int == 11 || c as int == 12 }

  ghost predicate IsPad(s: string) { forall i :: 0 <= i < |s| ==> IsBlank(s[i]) }

  ghost predicate IsWord(s: string) { s != [] && forall i :: 0 <= i < |s| ==> !IsBlank(s[i]) && s[i] != '\n' }

  /** Non-empty, without newline, no white space at either end. */
  ghost predicate IsTrim(s: string) {
    s != [] && !IsBlank(s[0]) && !IsBlank(s[|s| - 1]) && '\n' !in s
  }

  /** A header line: name, colon, white space or none, value, white space or none. Either side may
      be empty. */
  datatype Field = Field(name: string, pad: string, value: string, end: string)

  ghost predicate IsField(f: Field) {
    && (f.name == "" || IsTrim(f.name)) && ':' !in f.name && (f.value == "" || IsTrim(f.value))
    && IsPad(f.pad) && IsPad(f.end)
  }

  function FieldLineText(f: Field): string { f.name + (":" + (f.pad + (f.value + f.end))) }

  function RenderFields(fields: seq<Field>): string {
    if fields == [] then [] else FieldLineText(fields[0]) + "\n" + RenderFields(fields[1..])
  }

  /** The request line: two words or three with white space between, and white space or none at the
      end. The third word is the version. */
  datatype Head = Head(command: string, gap: string, path: string, version: Option<(string, string)>, end: string)

  function HeadText(h: Head): string {
    h.command + (h.gap + (h.path + match h.version case None => h.end case Some((gap, v)) => gap + (v + h.end)))
  }

  ghost predicate IsHead(h: Head) {
    && (h.command == "GET" || (h.command == "HEAD" && h.version.Some?))
    && IsPad(h.gap) && h.gap != [] && IsWord(h.path) && IsPad(h.end)
    && (h.version.Some? ==> IsPad(h.version.value.0) && h.version.value.0 != [] && IsWord(h.version.value.1))
  }

  /** A request as a client sends it, up to the blank line. */
  function Render(h: Head, fields: seq<Field>, blank: string): string {
    HeadText(h) + "\n" + (RenderFields(fields) + (blank + "\n"))
  }

  /** Header names in lower case; a repeated name keeps its last value. */
  function HeaderMap(headers: map<string, string>, fields: seq<Field>): map<string, string>
    decreases |fields|
  {
    if fields == [] then headers else HeaderMap(headers[Lower(fields[0].name) := fields[0].value], fields[1..])
  }

  /** The text occurs somewhere. */
  ghost predicate HasText(s: string, t: string) { exists i :: TextAt(s, t, i) }

  predicate TextAt(s: string, t: string, i: int) { 0 <= i && i + |t| <= |s| && s[i..i + |t|] == t }

  lemma {:induction false} ContainsExactly(s: string, t: string)
    ensures Contains(s, t) <==> HasText(s, t)
  {
    if t <= s {
      assert TextAt(s, t, 0);
    } else if s == [] {
      assert forall i :: !TextAt(s, t, i);
    } else {
      ContainsExactly(s[1..], t);
      forall i ensures TextAt(s[1..], t, i) <==> TextAt(s, t, i + 1) { TextShift(s, t, i); }
      assert !TextAt(s, t, 0);
      if i :| TextAt(s, t, i) { assert TextAt(s[1..], t, i - 1); }
    }
  }

  lemma TextShift(s: string, t: string, i: int)
    requires s != [] && !(t <= s)
    ensures TextAt(s[1..], t, i) <==> TextAt(s, t, i + 1)
  {
    if i >= 0 && i + 1 + |t| <= |s| { assert s[1..][i..i + |t|] == s[i + 1..i + 1 + |t|]; }
  }

  /** What the handler may send back compressed. */
  ghost predicate WantsGzip(headers: map<string, string>) {
    "accept-encoding" in headers && HasText(headers["accept-encoding"], "gzip")
  }

  // ---------------------------------------------------------------- words and white space

  lemma {:induction false} WordLengthIs(w: string, rest: string)
    requires (forall i :: 0 <= i < |w| ==> !IsSpace(w[i])) && (rest == [] || IsSpace(rest[0]))
    ensures WordLength(w + rest) == |w|
  {
    if w != [] {
      assert (w + rest)[1..] == w[1..] + rest;
      WordLengthIs(w[1..], rest);
    } else {
      assert w + rest == rest;
    }
  }

  lemma {:induction false} WordsPad(pad: string, rest: string)
    requires IsPad(pad)
    ensures Words(pad + rest) == Words(rest)
  {
    if pad == [] {
      assert pad + rest == rest;
    } else {
      WordsPad(pad[1..], rest);
      assert (pad + rest)[0] == pad[0] && (pad + rest)[1..] == pad[1..] + rest;
    }
  }

  lemma {:induction false} WordsCons(w: string, gap: string, rest: string)
    requires IsWord(w) && IsPad(gap) && (gap != [] || rest == [])
    ensures Words(w + (gap + rest)) == [w] + Words(rest)
  {
    var tail := gap + rest;
    assert tail == [] || tail[0] == gap[0];
    WordLengthIs(w, tail);
    assert (w + tail)[..|w|] == w && (w + tail)[|w|..] == tail;
    WordsPad(gap, rest);
  }

  lemma {:induction false} LastWord(w: string, end: string)
    requires IsWord(w) && IsPad(end)
    ensures Words(w + end) == [w]
  {
    WordsCons(w, end, []);
    assert end + [] == end;
  }

  lemma {:induction false} HeadWords(h: Head)
    requires IsHead(h)
    ensures Words(HeadText(h)) == if h.version.None? then [h.command, h.path] else [h.command, h.path, h.version.value.1]
  {
    hide Words, IsPad, IsWord;
    assert IsWord(h.command) by { CommandIsWord(h); }
    match h.version
    case None =>
      LastWord(h.path, h.end);
      WordsCons(h.command, h.gap, h.path + h.end);
    case Some((gap, v)) =>
      LastWord(v, h.end);
      WordsCons(h.path, gap, v + h.end);
      WordsCons(h.command, h.gap, h.path + (gap + (v + h.end)));
  }

  lemma CommandIsWord(h: Head)
    requires h.command == "GET" || h.command == "HEAD"
    ensures IsWord(h.command)
  {
  }

  lemma {:induction false} StripRightPad(t: string, pad: string)
    requires t != [] && !IsSpace(t[|t| - 1]) && IsPad(pad)
    ensures StripRight(t + pad) == t
  {
    if pad == [] {
      assert t + pad == t;
    } else {
      StripRightPad(t, pad[..|pad| - 1]);
      assert (t + pad)[|t + pad| - 1] == pad[|pad| - 1] && (t + pad)[..|t + pad| - 1] == t + pad[..|pad| - 1];
    }
  }

  lemma {:induction false} StripLeftPad(pad: string, t: string)
    requires t != [] && !IsSpace(t[0]) && IsPad(pad)
    ensures StripLeft(pad + t) == t
  {
    if pad == [] {
      assert pad + t == t;
    } else {
      StripLeftPad(pad[1..], t);
      assert (pad + t)[0] == pad[0] && (pad + t)[1..] == pad[1..] + t;
    }
  }

  /** White space around a text without any at its ends is taken off. */
  lemma {:induction false} StripPads(before: string, t: string, after: string)
    requires IsTrim(t) && IsPad(before) && IsPad(after)
    ensures Strip(before + (t + after)) == t
  {
    assert (t + after)[0] == t[0];
    StripLeftPad(before, t + after);
    StripRightPad(t, after);
  }

  lemma {:induction false} StripOnlyPad(pad: string)
    requires IsPad(pad)
    ensures Strip(pad) == ""
  {
    if pad != [] { StripOnlyPad(pad[1..]); }
  }

  lemma StripTrim(t: string)
    requires t == "" || IsTrim(t)
    ensures Strip(t) == t
  {
    if t != "" {
      StripPads("", t, "");
      assert "" + (t + "") == t;
    }
  }

  // ---------------------------------------------------------------- reading the lines back

  /** A header line without the white space around it. */
  function FieldBody(f: Field): string {
    if f.value == "" then f.name + ":" else f.name + (":" + (f.pad + f.value))
  }

  lemma {:induction false} FieldText(f: Field)
    requires IsField(f)
    ensures Strip(FieldLineText(f)) == FieldBody(f)
  {
    hide Strip;
    var body := FieldBody(f);
    assert body[0] == if f.name == "" then ':' else f.name[0];
    if f.value == "" {
      assert body[|body| - 1] == ':';
      var after := f.pad + f.end;
      StripPads("", body, after);
      assert FieldLineText(f) == "" + (body + after);
    } else {
      assert body[|body| - 1] == f.value[|f.value| - 1];
      StripPads("", body, f.end);
      assert FieldLineText(f) == "" + (body + f.end);
    }
  }

  /** A header line is split at its first colon. */
  lemma {:induction false} FieldLine(req: Request, f: Field)
    requires IsField(f)
    ensures HeaderLine(req, FieldLineText(f))
      == (req.(headers := req.headers[Lower(f.name) := f.value]), ReadHeader, false)
  {
    hide Strip, Lower, FieldLineText;
    var body, right := FieldBody(f), if f.value == "" then "" else f.pad + f.value;
    FieldText(f);
    assert body[0..|f.name|] == f.name && body[|f.name|] == ':';
    FindIs(body, ':', 0, |f.name|);
    assert body[..|f.name|] == f.name && body[|f.name| + 1..] == right;
    StripTrim(f.name);
    if f.value == "" {
      StripTrim("");
    } else {
      StripPads(f.pad, f.value, "");
      assert f.pad + (f.value + "") == f.pad + f.value;
    }
  }

  /** One full line at the front of the buffer is one step of the loop. */
  lemma {:induction false} DrainLine(c: Conn, line: string, rest: string)
    requires c.next != Stopped && c.buf == line + "\n" + rest && '\n' !in line
    ensures Drain(c) == Drain(TakeLine(c.(buf := rest), line))
  {
    assert c.buf[0..|line|] == line;
    FindIs(c.buf, '\n', 0, |line|);
    assert c.buf[..|line|] == line && c.buf[|line| + 1..] == rest;
  }

  lemma {:induction false} DrainBlank(c: Conn, blank: string)
    requires c.next == ReadHeader && !c.done && c.buf == blank + "\n" && IsPad(blank)
    ensures var d := Drain(c);
      && d == Conn("", Stopped, true, d.req) && d.req.command == c.req.command && d.req.path == c.req.path
      && d.req.header == c.req.header && d.req.pre1 == c.req.pre1 && d.req.headers == c.req.headers && d.req.calls == c.req.calls + [(c.req.path, c.req.headers)]
      && d.req.encoding == if WantsGzip(c.req.headers) then "gzip" else "identity"
  {
    hide Strip, Contains, HasText;
    assert c.buf == blank + "\n" + "";
    DrainLine(c, blank, "");
    StripOnlyPad(blank);
    if "accept-encoding" in c.req.headers { ContainsExactly(c.req.headers["accept-encoding"], "gzip"); }
    NoGzip();
  }

  lemma NoGzip()
    ensures !Contains("", "gzip")
  {
  }

  lemma {:induction false} FieldLineEnds(fields: seq<Field>, blank: string)
    requires fields != [] && IsField(fields[0])
    ensures RenderFields(fields) + (blank + "\n")
      == FieldLineText(fields[0]) + "\n" + (RenderFields(fields[1..]) + (blank + "\n"))
    ensures '\n' !in FieldLineText(fields[0])
  {
    assert '\n' !in fields[0].pad && '\n' !in fields[0].end;
  }

  lemma {:induction false} DrainFields(c: Conn, fields: seq<Field>, blank: string)
    requires c.next == ReadHeader && !c.done && c.buf == RenderFields(fields) + (blank + "\n") && IsPad(blank)
    requires forall i :: 0 <= i < |fields| ==> IsField(fields[i])
    ensures var d := Drain(c); var headers := HeaderMap(c.req.headers, fields);
      && d == Conn("", Stopped, true, d.req) && d.req.command == c.req.command && d.req.path == c.req.path
      && d.req.header == c.req.header && d.req.pre1 == c.req.pre1 && d.req.headers == headers && d.req.calls == c.req.calls + [(c.req.path, headers)]
      && d.req.encoding == if WantsGzip(headers) then "gzip" else "identity"
    decreases |fields|
  {
    hide Drain, HeaderLine, IsField, IsPad, WantsGzip, FieldLineText, Lower;
    if fields == [] {
      assert c.buf == blank + "\n";
      DrainBlank(c, blank);
    } else {
      var f, rest := fields[0], RenderFields(fields[1..]) + (blank + "\n");
      FieldLineEnds(fields, blank);
      DrainLine(c, FieldLineText(f), rest);
      FieldLine(c.req, f);
      DrainFields(c.(buf := rest, req := c.req.(headers := c.req.headers[Lower(f.name) := f.value])), fields[1..], blank);
    }
  }

  /** A request line of two or three words is read back. */
  lemma FirstLine(req: Request, h: Head)
    requires IsHead(h)
    ensures var (r, n) := TypeLine(req, HeadText(h));
      && n == ReadHeader && r.command == h.command && r.path == h.path && r.pre1 == h.version.None?
      && r.headers == map[] && r.calls == req.calls && r.header == HeadText(h.(end := ""))
  {
    hide Words, Strip, HeadText;
    HeadWords(h);
    HeadStripped(h);
  }

  /** `header` keeps the request line without the white space at its end. */
  lemma {:induction false} HeadStripped(h: Head)
    requires IsHead(h)
    ensures Strip(HeadText(h)) == HeadText(h.(end := ""))
  {
    hide Strip, IsPad;
    var bare := HeadText(h.(end := ""));
    HeadParts(h);
    HeadHasNoNewline(h);
    NoPad();
    StripPads("", bare, h.end);
    assert "" + (bare + h.end) == bare + h.end;
  }

  lemma NoPad()
    ensures IsPad("")
  {
  }

  lemma HeadParts(h: Head)
    requires IsHead(h)
    ensures var bare := HeadText(h.(end := "")); HeadText(h) == bare + h.end && IsTrim(bare)
  {
    var bare := HeadText(h.(end := ""));
    assert '\n' !in h.gap && (h.version.Some? ==> '\n' !in h.version.value.0);
    match h.version
    case None =>
      assert h.path + "" == h.path && bare == h.command + (h.gap + h.path);
      assert bare[0] == h.command[0] && bare[|bare| - 1] == h.path[|h.path| - 1];
    case Some((gap, v)) =>
      assert v + "" == v && bare == h.command + (h.gap + (h.path + (gap + v)));
      assert bare[0] == h.command[0] && bare[|bare| - 1] == v[|v| - 1];
  }

  lemma HeadHasNoNewline(h: Head)
    requires IsHead(h)
    ensures '\n' !in HeadText(h)
  {
    assert '\n' !in h.gap && '\n' !in h.end && (h.version.Some? ==> '\n' !in h.version.value.0);
  }

  /** A well-formed GET or HEAD request, however it is cut up on the way, is read back field for
      field and handed to the request handler exactly once. There may be any white space between the
      words of the first line and around header values; header names and values may be empty, and a
      GET may leave out the version. The answer may be compressed exactly when the last
      accept-encoding header says gzip. */
  lemma {:induction false} RequestIsRead(h: Head, fields: seq<Field>, blank: string, chunks: seq<string>)
    requires IsHead(h) && IsPad(blank) && forall i :: 0 <= i < |fields| ==> IsField(fields[i])
    requires Joined(chunks) == Render(h, fields, blank)
    ensures var c := FeedAll(NewConn, chunks); var headers := HeaderMap(map[], fields);
      && c.done && c.req.command == h.command && c.req.path == h.path && c.req.pre1 == h.version.None?
      && c.req.header == HeadText(h.(end := "")) && c.req.headers == headers && c.req.calls == [(h.path, headers)]
      && c.req.encoding == if WantsGzip(headers) then "gzip" else "identity"
  {
    hide Drain, TypeLine, RenderFields, HeaderMap, FeedAll, Joined, HeadText, IsHead, IsField, IsPad, WantsGzip;
    FeedAllVisible(NewConn, chunks);
    HeadHasNoNewline(h);
    FirstLine(NewConn.req, h);
    var line, rest := HeadText(h), RenderFields(fields) + (blank + "\n");
    var start := NewConn.(buf := NewConn.buf + Joined(chunks));
    assert start.buf == Joined(chunks);
    DrainLine(start, line, rest);
    DrainFields(TakeLine(start.(buf := rest), line), fields, blank);
  }

  // ---------------------------------------------------------------- the connection object

  class HTTPConnection {
    var buf: string
    var next: Reader
    var done: bool
    var header: string
    var command: string
    var path: string
    var pre1: bool
    var headers: map<string, string>
    var encoding: string
    ghost var calls: seq<(string, map<string, string>)>

    ghost function Told(): Request
      reads this
    {
      Request(header, command, path, pre1, headers, encoding, calls)
    }

    ghost function View(): Conn
      reads this
    {
      Conn(buf, next, done, Told())
    }

    constructor ()
      ensures View() == NewConn
    {
      buf, next, done := "", ReadType, false;
      header, command, path, pre1, headers, encoding, calls := "", "", "", false, map[], "", [];
    }

    /** `read_type`: the request line, and which method reads the next line. Only a GET, or a HEAD
        with a version, is read on. */
    method OnTypeLine(data: string) returns (reader: Reader)
      modifies this`header, this`command, this`path, this`pre1, this`headers
      ensures (Told(), reader) == TypeLine(old(Told()), data)
      ensures reader == ReadHeader ==> headers == map[] && (command == "GET" || (command == "HEAD" && !pre1))
      ensures reader == ReadHeader <==>
        || (|Words(data)| == 3 && (Words(data)[0] == "GET" || Words(data)[0] == "HEAD"))
        || (|Words(data)| == 2 && Words(data)[0] == "GET")
      ensures reader != ReadHeader ==> reader == Stopped && headers == old(headers)
    {
      header := Strip(data);
      var words := Words(data);
      if |words| == 3 {
        command, path := words[0], words[1];
        pre1 := false;
      } else if |words| == 2 {
        command, path := words[0], words[1];
        pre1 := true;
        if command != "GET" {
          return Stopped;
        }
      } else {
        return Stopped;
      }
      if command != "HEAD" && command != "GET" {
        return Stopped;
      }
      headers := map[];
      return ReadHeader;
    }

    /** `read_header`: the blank line completes the request and calls the handler once; any other
        line adds at most one header. */
    method OnHeaderLine(data: string) returns (reader: Reader)
      requires !done
      modifies this`done, this`headers, this`encoding, this`calls
      ensures (Told(), reader, done) == HeaderLine(old(Told()), data)
      ensures done ==> reader == Stopped && headers == old(headers) && calls == old(calls) + [(path, headers)]
      ensures !done ==> calls == old(calls) && encoding == old(encoding)
      ensures (done <==> Strip(data) == "") && (reader == ReadHeader <==> ':' in Strip(data))
    {
      var line := Strip(data);
      if line == "" {
        done := true;
        encoding := "identity";
        if "accept-encoding" in headers && Contains(headers["accept-encoding"], "gzip") {
          encoding := "gzip";
        }
        calls := calls + [(path, headers)];
        return Stopped;
      }
      var i := Find(line, ':', 0);
      if i == |line| {
        return Stopped;
      }
      headers := headers[Lower(Strip(line[..i])) := Strip(line[i + 1..])];
      return ReadHeader;
    }

    /** `next_func` applied to one line. */
    method ReadNext(line: string)
      requires next != Stopped && !done
      modifies this
      ensures View() == TakeLine(old(View()), line) && buf == old(buf) && (done ==> next == Stopped)
    {
      hide TypeLine, HeaderLine;
      if next == ReadType {
        next := OnTypeLine(line);
      } else {
        next := OnHeaderLine(line);
      }
    }

    /** `data_came_in`; false asks the caller to shut the connection down. */
    method DataCameIn(data: string) returns (ok: bool)
      requires Drained(View())
      modifies this
      ensures View() == Feed(old(View()), data) && Drained(View())
      ensures ok <==> done || next != Stopped || old(next) == Stopped
    {
      hide TakeLine;
      FeedDrained(View(), data);
      if done || next == Stopped {
        return true;
      }
      DrainDrains(View().(buf := buf + data));
      buf := buf + data;
      while true
        invariant next != Stopped && !done
        invariant Drain(View()) == Feed(old(View()), data)
        decreases |buf|
      {
        var i := Find(buf, '\n', 0);
        if i == |buf| {
          return true;
        }
        var val := buf[..i];
        buf := buf[i + 1..];
        ReadNext(val);
        if done {
          return true;
        }
        if next == Stopped {
          return false;
        }
      }
    }
  }
}
