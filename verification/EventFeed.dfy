/** The event feed between the recorder and Home Assistant: the handler's printer
    (internal/api/handlers_home_assistant_events.go:113-137) and the client's
    parser (custom_components/lalmax_nvr/api.py:249-264). The framing is section
    9.2, server-sent events, of the WHATWG HTML standard. */
module EventFeed {
  import opened Sequences

  type Byte = b: int | 0 <= b < 256

  type Bytes = seq<Byte>

  const LF: Byte := 10
  const CR: Byte := 13
  const SPACE: Byte := 32

  const MAX_EVENT := 65536

  /** "data:" */
  const DATA: Bytes := [100, 97, 116, 97, 58]

  /** "event: nvr" */
  const EVENT_LINE: Bytes := [101, 118, 101, 110, 116, 58, 32, 110, 118, 114]

  /** ": ping" */
  const PING_LINE: Bytes := [58, 32, 112, 105, 110, 103]

  // --------------------------------------------------------------- printer

  /** What the handler's loop wakes up for. */
  datatype Item = Event(json: Bytes) | Heartbeat

  /** The lines written for one item, the blank one included. */
  function Frame(item: Item): seq<Bytes> {
    match item
    case Event(json) => [EVENT_LINE, DATA + [SPACE] + json, []]
    case Heartbeat => [PING_LINE, []]
  }

  function Wire(lines: seq<Bytes>): Bytes {
    if lines == [] then [] else lines[0] + [LF] + Wire(lines[1..])
  }

  function Frames(items: seq<Item>): seq<Bytes> {
    if items == [] then [] else Frame(items[0]) + Frames(items[1..])
  }

  function Payload(item: Item): seq<Bytes> { if item.Event? then [item.json] else [] }

  function Payloads(items: seq<Item>): seq<Bytes> {
    if items == [] then [] else Payload(items[0]) + Payloads(items[1..])
  }

  lemma {:induction false} WireAppend(a: seq<Bytes>, b: seq<Bytes>)
    ensures Wire(a + b) == Wire(a) + Wire(b)
  {
    if a == [] {
      assert a + b == b;
    } else {
      assert (a + b)[1..] == a[1..] + b;
      WireAppend(a[1..], b);
    }
  }

  lemma {:induction false} FramesSnoc(items: seq<Item>, item: Item)
    ensures Frames(items + [item]) == Frames(items) + Frame(item)
  {
    if items == [] {
      assert items + [item] == [item];
    } else {
      assert (items + [item])[1..] == items[1..] + [item];
      FramesSnoc(items[1..], item);
    }
  }

  /** The two formats the handler prints. */
  function Printed(item: Item): Bytes {
    match item
    case Event(json) => EVENT_LINE + [LF] + DATA + [SPACE] + json + [LF, LF]
    case Heartbeat => PING_LINE + [LF, LF]
  }

  lemma PrintedIsFrame(item: Item)
    ensures Wire(Frame(item)) == Printed(item)
  {
    var blank: seq<Bytes> := [[]];
    assert Wire(blank) == [LF];
    match item {
      case Event(json) =>
        var line := DATA + [SPACE] + json;
        assert Frame(item)[1..] == [line, []] && [line, []][1..] == blank;
        assert Wire([line, []]) == line + [LF] + [LF];
      case Heartbeat =>
        assert Frame(item)[1..] == blank;
    }
  }

  /** These bytes are that text. */
  ghost predicate IsAscii(bytes: Bytes, text: string) {
    |bytes| == |text| && forall i | 0 <= i < |text| :: bytes[i] as int == text[i] as int
  }

  /** What the client sees on the wire. */
  lemma PrintedText(item: Item)
    ensures item.Heartbeat? ==> IsAscii(Printed(item), ": ping\n\n")
    ensures item.Event? ==> exists head, tail :: IsPrint(Printed(item), head, item.json, tail)
  {
    match item {
      case Event(json) =>
        var head := EVENT_LINE + [LF] + DATA + [SPACE];
        assert Printed(item) == head + json + [LF, LF];
        assert IsPrint(Printed(item), head, json, [LF, LF]);
      case Heartbeat =>
    }
  }

  ghost predicate IsPrint(printed: Bytes, head: Bytes, json: Bytes, tail: Bytes) {
    printed == head + json + tail && IsAscii(head, "event: nvr\ndata: ") && IsAscii(tail, "\n\n")
  }

  /** The handler's loop: one print per event or heartbeat. */
  method Serve(items: seq<Item>) returns (written: Bytes)
    ensures written == Wire(Frames(items))
  {
    written := [];
    for i := 0 to |items|
      invariant written == Wire(Frames(items[..i]))
    {
      written := written + Printed(items[i]);
      PrintedIsFrame(items[i]);
      FramesSnoc(items[..i], items[i]);
      WireAppend(Frames(items[..i]), Frame(items[i]));
      assert items[..i + 1] == items[..i] + [items[i]];
    }
    assert items[..|items|] == items;
  }

  // ---------------------------------------------------------------- parser

  /** Library judgements the client relies on: whether a line is UTF-8, and
      whether a text is a JSON object. */
  datatype Library = Library(utf8: Bytes -> bool, isObject: Bytes -> bool)

  datatype Parser = Parser(data: seq<Bytes>, yielded: seq<Bytes>, failed: bool)

  const START := Parser([], [], false)

  /** rstrip("\r\n") */
  function Strip(raw: Bytes): Bytes {
    if raw != [] && (raw[|raw| - 1] == CR || raw[|raw| - 1] == LF) then Strip(raw[..|raw| - 1]) else raw
  }

  /** lstrip(" ") */
  function SkipSpaces(text: Bytes): Bytes {
    if text != [] && text[0] == SPACE then SkipSpaces(text[1..]) else text
  }

  /** Code points of a UTF-8 text: its bytes that are not continuation bytes. */
  function Characters(text: Bytes): nat {
    if text == [] then 0 else (if 128 <= text[0] < 192 then 0 else 1) + Characters(text[1..])
  }

  function Total(data: seq<Bytes>): nat {
    if data == [] then 0 else Characters(data[0]) + Total(data[1..])
  }

  /** "\n".join(data) */
  function Join(data: seq<Bytes>): Bytes {
    if data == [] then [] else if |data| == 1 then data[0] else data[0] + [LF] + Join(data[1..])
  }

  /** What one line does to the parser. */
  function Take(p: Parser, raw: Bytes, lib: Library): Parser {
    if p.failed then p
    else if !lib.utf8(raw) then p.(failed := true)
    else
      var line := Strip(raw);
      if line == [] then
        Parser([], if p.data != [] && lib.isObject(Join(p.data)) then p.yielded + [Join(p.data)] else p.yielded, false)
      else if DATA <= line then
        var data := p.data + [SkipSpaces(line[|DATA|..])];
        Parser(data, p.yielded, Total(data) > MAX_EVENT)
      else p
  }

  function TakeAll(p: Parser, raws: seq<Bytes>, lib: Library): Parser
    decreases |raws|
  {
    if raws == [] then p else TakeAll(Take(p, raws[0], lib), raws[1..], lib)
  }

  lemma {:induction false} TakeAppend(p: Parser, a: seq<Bytes>, b: seq<Bytes>, lib: Library)
    ensures TakeAll(p, a + b, lib) == TakeAll(TakeAll(p, a, lib), b, lib)
    decreases |a|
  {
    if a == [] {
      assert a + b == b;
    } else {
      assert (a + b)[1..] == a[1..] + b;
      TakeAppend(Take(p, a[0], lib), a[1..], b, lib);
    }
  }

  lemma {:induction false} TakeFailed(p: Parser, raws: seq<Bytes>, lib: Library)
    requires p.failed
    ensures TakeAll(p, raws, lib) == p
  {
    if raws != [] {
      TakeFailed(p, raws[1..], lib);
    }
  }

  /** Nothing yielded is ever taken back. */
  lemma {:induction false} TakeMonotone(p: Parser, raws: seq<Bytes>, lib: Library)
    ensures p.yielded <= TakeAll(p, raws, lib).yielded
    decreases |raws|
  {
    if raws != [] {
      TakeMonotone(Take(p, raws[0], lib), raws[1..], lib);
    }
  }

  /** The loop of events(), up to its end or its first error. */
  method Events(raws: seq<Bytes>, lib: Library) returns (yielded: seq<Bytes>, failed: bool)
    ensures var p := TakeAll(START, raws, lib); yielded == p.yielded && failed == p.failed
  {
    yielded, failed := [], false;
    var data: seq<Bytes> := [];
    for i := 0 to |raws|
      invariant !failed
      invariant TakeAll(START, raws, lib) == TakeAll(Parser(data, yielded, failed), raws[i..], lib)
    {
      ghost var p := Parser(data, yielded, failed);
      assert raws[i..][1..] == raws[i + 1..];
      assert TakeAll(p, raws[i..], lib) == TakeAll(Take(p, raws[i], lib), raws[i + 1..], lib);
      if !lib.utf8(raws[i]) {
        TakeFailed(Take(p, raws[i], lib), raws[i + 1..], lib);
        return yielded, true;
      }
      var line := Strip(raws[i]);
      if line == [] {
        if data != [] {
          if lib.isObject(Join(data)) {
            yielded := yielded + [Join(data)];
          }
        }
        data := [];
      } else if DATA <= line {
        data := data + [SkipSpaces(line[|DATA|..])];
        if Total(data) > MAX_EVENT {
          TakeFailed(Take(p, raws[i], lib), raws[i + 1..], lib);
          return yielded, true;
        }
      }
    }
  }

  // --------------------------------------------- what the client makes of a stream

  /** The bytes above are the ASCII text they stand for. */
  lemma LiteralText()
    ensures IsAscii([LF], "\n") && IsAscii([CR], "\r") && IsAscii([SPACE], " ") && IsAscii(DATA, "data:")
  {
  }

  /** Line ends are what is stripped, all of them and nothing else. */
  lemma {:induction false} StripExact(raw: Bytes)
    ensures var line := Strip(raw);
      && line <= raw && (forall i | |line| <= i < |raw| :: raw[i] == 10 || raw[i] == 13)
      && (line != [] ==> line[|line| - 1] != 10 && line[|line| - 1] != 13)
  {
    if raw != [] && (raw[|raw| - 1] == CR || raw[|raw| - 1] == LF) {
      StripExact(raw[..|raw| - 1]);
    }
  }

  /** And blanks what is skipped. */
  lemma {:induction false} SkipSpacesExact(text: Bytes) returns (n: nat)
    ensures n <= |text| && SkipSpaces(text) == text[n..]
    ensures forall i | 0 <= i < n :: text[i] == 32
    ensures n < |text| ==> text[n] != 32
  {
    n := 0;
    if text != [] && text[0] == SPACE {
      var m := SkipSpacesExact(text[1..]);
      n := m + 1;
    }
  }

  lemma {:induction false} CharactersAppend(a: Bytes, b: Bytes)
    ensures Characters(a + b) == Characters(a) + Characters(b)
    ensures forall c: Byte :: Characters([c]) == if 128 <= c <= 191 then 0 else 1
  {
    if a == [] {
      assert a + b == b;
    } else {
      assert (a + b)[1..] == a[1..] + b;
      CharactersAppend(a[1..], b);
    }
  }

  lemma {:induction false} TotalAppend(a: seq<Bytes>, b: seq<Bytes>)
    ensures Total(a + b) == Total(a) + Total(b)
  {
    if a == [] {
      assert a + b == b;
    } else {
      assert (a + b)[1..] == a[1..] + b;
      TotalAppend(a[1..], b);
    }
  }

  lemma {:induction false} JoinSnoc(data: seq<Bytes>, last: Bytes)
    ensures Join(data + [last]) == if data == [] then last else Join(data) + [10] + last
  {
    if |data| >= 1 {
      assert (data + [last])[1..] == data[1..] + [last];
      JoinSnoc(data[1..], last);
    } else {
      assert data + [last] == [last];
    }
  }

  /** The data of one line: what follows "data:" and any blanks. */
  function DataOf(raw: Bytes): seq<Bytes> {
    if DATA <= Strip(raw) then [SkipSpaces(Strip(raw)[5..])] else []
  }

  function Datas(block: seq<Bytes>): seq<Bytes> {
    if block == [] then [] else Datas(block[..|block| - 1]) + DataOf(block[|block| - 1])
  }

  /** Lines of one event: text, and none of them blank. */
  ghost predicate IsBlock(block: seq<Bytes>, lib: Library) {
    forall i | 0 <= i < |block| :: lib.utf8(block[i]) && Strip(block[i]) != []
  }

  /** Reading such lines collects their data, and fails exactly when the data has
      more than 65536 characters; nothing is yielded. */
  lemma {:induction false} BlockCollects(p: Parser, block: seq<Bytes>, lib: Library)
    requires !p.failed && p.data == [] && IsBlock(block, lib)
    ensures var q := TakeAll(p, block, lib);
      && q.yielded == p.yielded
      && (q.failed <==> Total(Datas(block)) > 65536)
      && (!q.failed ==> q.data == Datas(block))
  {
    if block != [] {
      var front, last := block[..|block| - 1], block[|block| - 1];
      BlockCollects(p, front, lib);
      TakeAppend(p, front, [last], lib);
      assert front + [last] == block;
      TakeOne(TakeAll(p, front, lib), last, lib);
      TotalAppend(Datas(front), DataOf(last));
    }
  }

  lemma TakeOne(p: Parser, raw: Bytes, lib: Library)
    ensures TakeAll(p, [raw], lib) == Take(p, raw, lib)
  {
    assert TakeAll(p, [raw], lib) == TakeAll(Take(p, raw, lib), [], lib);
  }

  /** The blank line after them yields their data, joined by newlines, if there is
      any and it is a JSON object, and starts afresh. */
  lemma BlockYields(p: Parser, block: seq<Bytes>, blank: Bytes, lib: Library)
    requires !p.failed && p.data == [] && IsBlock(block, lib) && Total(Datas(block)) <= 65536
    requires lib.utf8(blank) && Strip(blank) == []
    ensures var data := Datas(block);
      TakeAll(p, block + [blank], lib) ==
      Parser([], if data != [] && lib.isObject(Join(data)) then p.yielded + [Join(data)] else p.yielded, false)
  {
    BlockCollects(p, block, lib);
    TakeAppend(p, block, [blank], lib);
    TakeOne(TakeAll(p, block, lib), blank, lib);
  }

  /** A line that is not text ends the feed with an error, as does data beyond the
      limit; nothing is yielded for it or after it. */
  lemma FailureIsFinal(p: Parser, raw: Bytes, rest: seq<Bytes>, lib: Library)
    requires !p.failed && !lib.utf8(raw)
    ensures TakeAll(p, [raw] + rest, lib).failed && TakeAll(p, [raw] + rest, lib).yielded == p.yielded
  {
    assert ([raw] + rest)[1..] == rest;
    TakeFailed(Take(p, raw, lib), rest, lib);
  }

  // ------------------------------------------------------------ round trip

  function Terminated(lines: seq<Bytes>): seq<Bytes> {
    seq(|lines|, i requires 0 <= i < |lines| => lines[i] + [LF])
  }

  /** What a printed payload must be like: one line of JSON that is an object
      and within the client's limit. */
  ghost predicate Printable(item: Item, lib: Library) {
    && (forall k | 0 <= k < |Frame(item)| :: lib.utf8(Frame(item)[k] + [LF]))
    && (item.Event? ==>
      && LF !in item.json
      && item.json != [] && item.json[0] == 123 && item.json[|item.json| - 1] == 125
      && lib.isObject(item.json)
      && Characters(item.json) <= 65536)
  }

  lemma StripLine(line: Bytes)
    requires line == [] || (line[|line| - 1] != CR && line[|line| - 1] != LF)
    ensures Strip(line + [LF]) == line
  {
    assert (line + [LF])[..|line|] == line;
  }

  lemma TakeHeader(p: Parser, lib: Library)
    requires !p.failed && lib.utf8(EVENT_LINE + [LF])
    ensures Take(p, EVENT_LINE + [LF], lib) == p
  {
    StripLine(EVENT_LINE);
    assert EVENT_LINE[0] != DATA[0];
  }

  lemma TakePing(p: Parser, lib: Library)
    requires !p.failed && lib.utf8(PING_LINE + [LF])
    ensures Take(p, PING_LINE + [LF], lib) == p
  {
    StripLine(PING_LINE);
    assert PING_LINE[0] != DATA[0];
  }

  lemma TakeData(p: Parser, json: Bytes, lib: Library)
    requires !p.failed && p.data == []
    requires Printable(Event(json), lib)
    ensures Take(p, DATA + [SPACE] + json + [LF], lib) == Parser([json], p.yielded, false)
  {
    var line := DATA + [SPACE] + json;
    assert lib.utf8(line + [LF]) by { assert Frame(Event(json))[1] == line; }
    StripLine(line);
    assert line[|DATA|..] == [SPACE] + json;
    assert ([SPACE] + json)[1..] == json;
    assert SkipSpaces([SPACE] + json) == json;
    var none: seq<Bytes> := [];
    assert none + [json] == [json];
    assert Total([json]) == Characters(json);
  }

  lemma TakeBlank(p: Parser, lib: Library)
    requires !p.failed && lib.utf8([LF])
    ensures p.data == [] ==> Take(p, [LF], lib) == p
    ensures |p.data| == 1 && lib.isObject(p.data[0]) ==>
              Take(p, [LF], lib) == Parser([], p.yielded + [p.data[0]], false)
  {
    assert [] + [LF] == [LF];
    StripLine([]);
  }

  lemma TakeTwo(p: Parser, a: Bytes, b: Bytes, lib: Library)
    ensures TakeAll(p, [a, b], lib) == Take(Take(p, a, lib), b, lib)
  {
    assert [a, b][1..] == [b];
    assert TakeAll(Take(p, a, lib), [b], lib) == TakeAll(Take(Take(p, a, lib), b, lib), [], lib);
  }

  lemma TakeEvent(p: Parser, json: Bytes, lib: Library)
    requires !p.failed && p.data == [] && Printable(Event(json), lib)
    ensures TakeAll(p, Terminated(Frame(Event(json))), lib) == Parser([], p.yielded + [json], false)
  {
    var lines := Frame(Event(json));
    assert lib.utf8(lines[0] + [LF]) && lib.utf8(lines[2] + [LF]);
    assert lines[2] + [LF] == [LF];
    var a, b := EVENT_LINE + [LF], DATA + [SPACE] + json + [LF];
    assert Terminated(lines) == [a] + [b, [LF]];
    TakeHeader(p, lib);
    TakeData(p, json, lib);
    TakeBlank(Parser([json], p.yielded, false), lib);
    TakeTwo(p, b, [LF], lib);
    assert ([a] + [b, [LF]])[1..] == [b, [LF]];
  }

  lemma TakeHeartbeat(p: Parser, lib: Library)
    requires !p.failed && p.data == [] && Printable(Heartbeat, lib)
    ensures TakeAll(p, Terminated(Frame(Heartbeat)), lib) == p
  {
    var lines := Frame(Heartbeat);
    assert lib.utf8(lines[0] + [LF]) && lib.utf8(lines[1] + [LF]);
    assert lines[1] + [LF] == [LF];
    assert Terminated(lines) == [PING_LINE + [LF], [LF]];
    TakePing(p, lib);
    TakeBlank(p, lib);
    TakeTwo(p, PING_LINE + [LF], [LF], lib);
  }

  lemma TakeItem(p: Parser, item: Item, lib: Library)
    requires !p.failed && p.data == [] && Printable(item, lib)
    ensures TakeAll(p, Terminated(Frame(item)), lib) == Parser([], p.yielded + Payload(item), false)
  {
    match item {
      case Event(json) => TakeEvent(p, json, lib);
      case Heartbeat =>
        TakeHeartbeat(p, lib);
        assert p.yielded + [] == p.yielded;
    }
  }

  lemma TerminatedAppend(a: seq<Bytes>, b: seq<Bytes>)
    ensures Terminated(a + b) == Terminated(a) + Terminated(b)
  {
  }

  lemma TakeThen(p: Parser, item: Item, rest: seq<Bytes>, lib: Library)
    requires !p.failed && p.data == [] && Printable(item, lib)
    ensures TakeAll(p, Terminated(Frame(item) + rest), lib) == TakeAll(Parser([], p.yielded + Payload(item), false), Terminated(rest), lib)
  {
    TerminatedAppend(Frame(item), rest);
    TakeAppend(p, Terminated(Frame(item)), Terminated(rest), lib);
    TakeItem(p, item, lib);
  }

  /** Parsing what was printed returns the payloads, in order, whatever the
      heartbeats between them. */
  lemma {:induction false} ParsePrinted(p: Parser, items: seq<Item>, lib: Library)
    requires !p.failed && p.data == []
    requires forall i | 0 <= i < |items| :: Printable(items[i], lib)
    ensures TakeAll(p, Terminated(Frames(items)), lib) == Parser([], p.yielded + Payloads(items), false)
    decreases |items|
  {
    if items == [] {
      assert p.yielded + [] == p.yielded;
    } else {
      var head, tail := items[0], items[1..];
      TakeThen(p, head, Frames(tail), lib);
      ParsePrinted(Parser([], p.yielded + Payload(head), false), tail, lib);
      Regroup(p.yielded, Payload(head), Payloads(tail));
    }
  }

  // -------------------------------------------------- a feed cut anywhere

  /** The stream as the client's reader hands it out: up to and including each
      newline, and at the end whatever is left. */
  ghost predicate Delivered(text: Bytes, raws: seq<Bytes>) {
    if raws == [] then text == []
    else
      && raws[0] != [] && raws[0] <= text
      && (forall i | 0 <= i < |raws[0]| - 1 :: raws[0][i] != LF)
      && (raws[0][|raws[0]| - 1] != LF ==> raws[0] == text)
      && Delivered(text[|raws[0]|..], raws[1..])
  }

  /** What is handed out of a prefix of the wire: whole lines, then perhaps the
      beginning of the next. */
  ghost predicate CutAt(lines: seq<Bytes>, raws: seq<Bytes>, j: nat) {
    && j <= |lines|
    && (raws == Terminated(lines[..j]) || (
      && j < |lines|
      && |raws| == j + 1 && raws[..j] == Terminated(lines[..j])
      && raws[j] != [] && raws[j] <= lines[j]))
  }

  lemma CutAtCons(line: Bytes, lines: seq<Bytes>, raws: seq<Bytes>, j: nat)
    requires CutAt(lines, raws, j)
    ensures CutAt([line] + lines, [line + [LF]] + raws, j + 1)
    ensures raws == Terminated(lines) ==> [line + [LF]] + raws == Terminated([line] + lines)
  {
    assert ([line] + lines)[..j + 1] == [line] + lines[..j];
    if raws != Terminated(lines[..j]) {
      assert ([line + [LF]] + raws)[..j + 1] == [line + [LF]] + raws[..j];
    }
  }

  lemma CutFirst(line: Bytes, rest: Bytes, k: nat, raws: seq<Bytes>)
    requires LF !in line
    requires k <= |line + [LF] + rest|
    requires raws != [] && Delivered((line + [LF] + rest)[..k], raws)
    ensures k <= |line| ==> raws == [line[..k]]
    ensures k > |line| ==> raws[0] == line + [LF] && Delivered(rest[..k - |line| - 1], raws[1..])
  {
    var text := (line + [LF] + rest)[..k];
    var n := |raws[0]|;
    assert forall i | 0 <= i < k && i < |line| :: text[i] == line[i] && text[i] != LF;
    if k <= |line| {
      assert text == line[..k];
      assert raws[0] == text;
    } else {
      assert text[|line|] == LF;
      assert n == |line| + 1;
      assert raws[0] == line + [LF];
      assert text[n..] == rest[..k - n];
    }
  }

  lemma {:induction false} CutWire(lines: seq<Bytes>, k: nat, raws: seq<Bytes>) returns (j: nat)
    requires forall i | 0 <= i < |lines| :: LF !in lines[i]
    requires k <= |Wire(lines)| && Delivered(Wire(lines)[..k], raws)
    ensures CutAt(lines, raws, j)
    ensures k == |Wire(lines)| ==> raws == Terminated(lines)
    decreases |lines|
  {
    if raws == [] {
      j := 0;
    } else {
      var line, rest := lines[0], Wire(lines[1..]);
      CutFirst(line, rest, k, raws);
      if k <= |line| {
        j := 0;
      } else {
        var i := CutWire(lines[1..], k - |line| - 1, raws[1..]);
        j := i + 1;
        CutAtCons(line, lines[1..], raws[1..], i);
        assert lines == [line] + lines[1..];
        assert raws == [raws[0]] + raws[1..];
      }
    }
  }

  /** The beginning of a line that does not start with a carriage return never
      ends an event. */
  lemma TakePartial(p: Parser, line: Bytes, raw: Bytes, lib: Library)
    requires raw != [] && raw <= line
    requires LF !in line && line[0] != CR
    ensures Take(p, raw, lib).yielded == p.yielded
  {
    StripKeepsFirst(raw);
  }

  lemma {:induction false} StripKeepsFirst(raw: Bytes)
    requires raw != [] && raw[0] != CR && raw[0] != LF
    ensures Strip(raw) != []
  {
    if |raw| > 1 {
      StripKeepsFirst(raw[..|raw| - 1]);
    }
  }

  /** Whole lines, then perhaps the beginning of another, yield a prefix of what
      all the lines yield. */
  lemma CutAtYieldsPrefix(lines: seq<Bytes>, raws: seq<Bytes>, j: nat, lib: Library)
    requires forall i | 0 <= i < |lines| :: LF !in lines[i] && (lines[i] != [] ==> lines[i][0] != CR)
    requires CutAt(lines, raws, j)
    ensures TakeAll(START, raws, lib).yielded <= TakeAll(START, Terminated(lines), lib).yielded
  {
    var whole := Terminated(lines[..j]);
    var p := TakeAll(START, whole, lib);
    WholeLinesYieldPrefix(lines, j, lib);
    if raws != whole {
      assert raws == whole + [raws[j]];
      TakeAppend(START, whole, [raws[j]], lib);
      TakePartial(p, lines[j], raws[j], lib);
      assert TakeAll(p, [raws[j]], lib) == TakeAll(Take(p, raws[j], lib), [], lib);
    }
  }

  lemma WholeLinesYieldPrefix(lines: seq<Bytes>, j: nat, lib: Library)
    requires j <= |lines|
    ensures TakeAll(START, Terminated(lines[..j]), lib).yielded <= TakeAll(START, Terminated(lines), lib).yielded
  {
    assert lines == lines[..j] + lines[j..];
    TerminatedAppend(lines[..j], lines[j..]);
    TakeAppend(START, Terminated(lines[..j]), Terminated(lines[j..]), lib);
    TakeMonotone(TakeAll(START, Terminated(lines[..j]), lib), Terminated(lines[j..]), lib);
  }

  /** However early the connection breaks, the client has yielded a prefix of
      what it would have yielded, for any lines that do not start with CR. */
  lemma CutYieldsPrefix(lines: seq<Bytes>, k: nat, raws: seq<Bytes>, lib: Library)
    requires forall i | 0 <= i < |lines| :: LF !in lines[i] && (lines[i] != [] ==> lines[i][0] != CR)
    requires k <= |Wire(lines)| && Delivered(Wire(lines)[..k], raws)
    ensures TakeAll(START, raws, lib).yielded <= TakeAll(START, Terminated(lines), lib).yielded
  {
    var j := CutWire(lines, k, raws);
    CutAtYieldsPrefix(lines, raws, j, lib);
  }

  lemma {:induction false} FramesLines(items: seq<Item>, lib: Library)
    requires forall i | 0 <= i < |items| :: Printable(items[i], lib)
    ensures forall k | 0 <= k < |Frames(items)| ::
      LF !in Frames(items)[k] && (Frames(items)[k] != [] ==> Frames(items)[k][0] != CR)
  {
    if items != [] {
      FramesLines(items[1..], lib);
    }
  }

  /** The feed from end to end: the client yields exactly the published events in
      order, and if the stream stops at any byte, a prefix of them. */
  lemma FeedDelivers(items: seq<Item>, k: nat, raws: seq<Bytes>, lib: Library)
    requires forall i | 0 <= i < |items| :: Printable(items[i], lib)
    requires var written := Wire(Frames(items)); k <= |written| && Delivered(written[..k], raws)
    ensures TakeAll(START, raws, lib).yielded <= Payloads(items)
    ensures k == |Wire(Frames(items))| ==> TakeAll(START, raws, lib) == Parser([], Payloads(items), false)
  {
    FramesLines(items, lib);
    ParsePrinted(START, items, lib);
    assert START.yielded + Payloads(items) == Payloads(items);
    CutYieldsPrefix(Frames(items), k, raws, lib);
    var j := CutWire(Frames(items), k, raws);
  }
}
