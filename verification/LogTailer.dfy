/** Following the service log (internal/api/handlers_service_logs.go:197-291).
    A poll appends whatever the file has grown by and cuts complete lines off
    the front; each line is sent with the byte offset at which it starts. */
module LogTailer {
  import opened Options
  import opened Sequences

  /** Bytes of the file; the newline and carriage return are the two that matter. */
  type Bytes = string

  datatype Line = Line(pos: nat, raw: Bytes)

  // ----------------------------------------------------------- splitting

  /** A text split at its newlines: the complete lines, then where the rest
      starts and what it is. */
  datatype Split = Split(lines: seq<Line>, pos: nat, rest: Bytes)

  function Feed(s: Split, b: char): Split {
    if b == '\n' then Split(s.lines + [Line(s.pos, s.rest)], s.pos + |s.rest| + 1, "")
    else Split(s.lines, s.pos, s.rest + [b])
  }

  function Scan(s: Split, text: Bytes): Split
    decreases |text|
  {
    if text == "" then s else Scan(Feed(s, text[0]), text[1..])
  }

  function Begin(offset: nat): Split { Split([], offset, "") }

  function Lines(text: Bytes, offset: nat): seq<Line> { Scan(Begin(offset), text).lines }

  lemma {:induction false} ScanAppend(s: Split, a: Bytes, b: Bytes)
    ensures Scan(s, a + b) == Scan(Scan(s, a), b)
    decreases |a|
  {
    if a == "" {
      assert a + b == b;
    } else {
      assert (a + b)[1..] == a[1..] + b;
      ScanAppend(Feed(s, a[0]), a[1..], b);
    }
  }

  /** Lines already found do not influence the scan. */
  lemma {:induction false} ScanFrom(s: Split, text: Bytes)
    ensures var r := Scan(Split([], s.pos, s.rest), text);
      Scan(s, text) == Split(s.lines + r.lines, r.pos, r.rest)
    decreases |text|
  {
    if text != "" {
      var first := Feed(Split([], s.pos, s.rest), text[0]);
      ScanFrom(Feed(s, text[0]), text[1..]);
      ScanFrom(first, text[1..]);
    }
  }

  ghost predicate Plain(text: Bytes) { forall i | 0 <= i < |text| :: text[i] != '\n' }

  lemma {:induction false} ScanPlain(s: Split, text: Bytes)
    requires Plain(text)
    ensures Scan(s, text) == Split(s.lines, s.pos, s.rest + text)
    decreases |text|
  {
    if text == "" {
      assert s.rest + text == s.rest;
    } else {
      ScanPlain(Feed(s, text[0]), text[1..]);
      assert s.rest + [text[0]] + text[1..] == s.rest + text;
    }
  }

  /** A terminated line is one more line. */
  function Add(s: Split, raw: Bytes): Split {
    Split(s.lines + [Line(s.pos, raw)], s.pos + |raw| + 1, "")
  }

  lemma ScanLine(s: Split, raw: Bytes)
    requires Plain(raw) && s.rest == ""
    ensures Scan(s, raw + ['\n']) == Add(s, raw)
  {
    ScanAppend(s, raw, ['\n']);
    ScanPending(s, raw);
    var t := Split(s.lines, s.pos, raw);
    assert Scan(t, ['\n']) == Scan(Feed(t, '\n'), "");
  }

  /** Cutting the text at its first newline. */
  lemma ScanCut(s: Split, text: Bytes, i: nat)
    requires s.rest == "" && i < |text| && Plain(text[..i]) && text[i] == '\n'
    ensures Scan(s, text) == Scan(Add(s, text[..i]), text[i + 1..])
  {
    var raw, tail := text[..i], text[i + 1..];
    assert text == (raw + ['\n']) + tail;
    ScanAppend(s, raw + ['\n'], tail);
    ScanLine(s, raw);
  }

  // ------------------------------------------- what a split text is

  function Glue(lines: seq<Line>): Bytes {
    if lines == [] then "" else Glue(lines[..|lines| - 1]) + lines[|lines| - 1].raw + ['\n']
  }

  /** Lines without newlines, each starting where the one before it ended. */
  ghost predicate Placed(lines: seq<Line>, offset: nat) {
    forall k | 0 <= k < |lines| :: Plain(lines[k].raw) && lines[k].pos == offset + |Glue(lines[..k])|
  }

  ghost predicate WellSplit(s: Split, text: Bytes, offset: nat) {
    && Placed(s.lines, offset)
    && Plain(s.rest)
    && s.pos == offset + |Glue(s.lines)|
    && text == Glue(s.lines) + s.rest
  }

  lemma FeedWellSplit(s: Split, text: Bytes, offset: nat, b: char)
    requires WellSplit(s, text, offset)
    ensures WellSplit(Feed(s, b), text + [b], offset)
  {
    if b == '\n' {
      var lines := s.lines + [Line(s.pos, s.rest)];
      assert lines[..|s.lines|] == s.lines;
      forall k | 0 <= k < |lines| ensures Plain(lines[k].raw) && lines[k].pos == offset + |Glue(lines[..k])| {
        assert k < |s.lines| ==> lines[..k] == s.lines[..k];
      }
    }
  }

  lemma {:induction false} ScanWellSplit(s: Split, before: Bytes, text: Bytes, offset: nat)
    requires WellSplit(s, before, offset)
    ensures WellSplit(Scan(s, text), before + text, offset)
    decreases |text|
  {
    if text == "" {
      assert before + text == before;
    } else {
      FeedWellSplit(s, before, offset, text[0]);
      ScanWellSplit(Feed(s, text[0]), before + [text[0]], text[1..], offset);
      assert before + [text[0]] + text[1..] == before + text;
    }
  }

  /** Splitting loses and moves no byte: gluing the lines and the rest back gives
      the text, no line holds a newline, and the offsets are the lines' true
      positions in it. */
  lemma SplitCorrect(text: Bytes, offset: nat)
    ensures WellSplit(Scan(Begin(offset), text), text, offset)
  {
    ScanWellSplit(Begin(offset), "", text, offset);
    assert "" + text == text;
  }

  /** And there is only one way to do it. */
  lemma {:induction false} SplitGlued(lines: seq<Line>, offset: nat)
    requires Placed(lines, offset)
    ensures Scan(Begin(offset), Glue(lines)) == Split(lines, offset + |Glue(lines)|, "")
  {
    if lines != [] {
      var n := |lines| - 1;
      var front, last := lines[..n], lines[n];
      PlacedPrefix(lines, offset, n);
      SplitGlued(front, offset);
      SplitGluedStep(front, last, offset);
      assert Glue(lines) == Glue(front) + (last.raw + ['\n']);
      assert lines == front + [last];
    }
  }

  lemma SplitGluedStep(front: seq<Line>, last: Line, offset: nat)
    requires Scan(Begin(offset), Glue(front)) == Split(front, last.pos, "")
    requires Plain(last.raw)
    ensures Scan(Begin(offset), Glue(front) + (last.raw + ['\n'])) == Split(front + [last], last.pos + |last.raw| + 1, "")
  {
    ScanAppend(Begin(offset), Glue(front), last.raw + ['\n']);
    ScanLine(Split(front, last.pos, ""), last.raw);
  }

  lemma PlacedPrefix(lines: seq<Line>, offset: nat, k: nat)
    requires Placed(lines, offset) && k <= |lines|
    ensures Placed(lines[..k], offset)
  {
    forall j | 0 <= j < k ensures lines[..k][..j] == lines[..j] {}
  }

  /** Starting at the offset of any line gives the lines from that one on. */
  lemma LinesFrom(text: Bytes, offset: nat, k: nat)
    requires k < |Lines(text, offset)|
    ensures var at := Lines(text, offset)[k].pos;
      offset <= at <= offset + |text| && Lines(text[at - offset..], at) == Lines(text, offset)[k..]
  {
    var lines := Lines(text, offset);
    assert Placed(lines, offset) && Glue(lines) <= text by {
      SplitCorrect(text, offset);
    }
    GluePrefix(lines, k);
    PlacedPrefix(lines, offset, k);
    LinesAfterFront(lines, k, text, |Glue(lines[..k])|, offset);
  }

  lemma LinesAfterFront(lines: seq<Line>, k: nat, text: Bytes, n: nat, offset: nat)
    requires k <= |lines| && lines == Lines(text, offset)
    requires Placed(lines[..k], offset) && n <= |text| && text[..n] == Glue(lines[..k])
    ensures Lines(text[n..], offset + n) == lines[k..]
  {
    assert text == text[..n] + text[n..];
    SplitGlued(lines[..k], offset);
    ScanAppend(Begin(offset), text[..n], text[n..]);
    ScanFrom(Split(lines[..k], offset + n, ""), text[n..]);
  }

  lemma {:induction false} GluePrefix(lines: seq<Line>, k: nat)
    requires k <= |lines|
    ensures Glue(lines[..k]) <= Glue(lines)
  {
    if k == |lines| {
      assert lines[..k] == lines;
    } else {
      var front := lines[..|lines| - 1];
      GluePrefix(front, k);
      assert front[..k] == lines[..k];
    }
  }

  // ------------------------------------------------------------- the filter

  /** strings.TrimRight(raw, "\r"). */
  function TrimRight(raw: Bytes): Bytes {
    if raw != "" && raw[|raw| - 1] == '\r' then TrimRight(raw[..|raw| - 1]) else raw
  }

  function Trimmed(line: Line): Line { Line(line.pos, TrimRight(line.raw)) }

  function Kept(line: Line, keep: Line -> bool): seq<Line> {
    if keep(Trimmed(line)) then [Trimmed(line)] else []
  }

  /** The lines sent to the client; keep stands for "not blank, parses, and
      matches the level and query", which the handler asks line by line. */
  function Sent(lines: seq<Line>, keep: Line -> bool): seq<Line> {
    if lines == [] then [] else Sent(lines[..|lines| - 1], keep) + Kept(lines[|lines| - 1], keep)
  }

  lemma SentSnoc(lines: seq<Line>, line: Line, keep: Line -> bool)
    ensures Sent(lines + [line], keep) == Sent(lines, keep) + Kept(line, keep)
  {
    assert (lines + [line])[..|lines|] == lines;
  }

  lemma {:induction false} SentAppend(a: seq<Line>, b: seq<Line>, keep: Line -> bool)
    ensures Sent(a + b, keep) == Sent(a, keep) + Sent(b, keep)
  {
    if b == [] {
      assert a + b == a;
    } else {
      var front, last := b[..|b| - 1], b[|b| - 1];
      calc {
        Sent(a + b, keep);
        { Regroup(a, front, [last]); assert b == front + [last]; SentSnoc(a + front, last, keep); }
        Sent(a + front, keep) + Kept(last, keep);
        { SentAppend(a, front, keep); }
        Sent(a, keep) + Sent(front, keep) + Kept(last, keep);
        { Regroup(Sent(a, keep), Sent(front, keep), Kept(last, keep)); }
        Sent(a, keep) + (Sent(front, keep) + Kept(last, keep));
        { assert b == front + [last]; SentSnoc(front, last, keep); }
        Sent(a, keep) + Sent(b, keep);
      }
    }
  }

  // ------------------------------------------------------------- the polls

  /** ReadFull of the bytes between two offsets; short if the file has shrunk. */
  function Read(content: Bytes, from: nat, to: nat): Bytes
    requires from <= to
  {
    if from >= |content| then "" else if to <= |content| then content[from..to] else content[from..]
  }

  /** What the file holds between the offsets, however short it has become. */
  lemma ReadExact(content: Bytes, from: nat, to: nat)
    requires from <= to
    ensures var r := Read(content, from, to);
      && |r| <= to - from && (forall i | 0 <= i < |r| :: from + i < |content| && r[i] == content[from + i])
      && (|r| < to - from ==> from + |r| >= |content|)
  {
  }

  /** What one poll meets: the size from Stat, and the content as it is read. */
  datatype Snapshot = Snapshot(size: nat, content: Bytes)

  /** What a session has been shown: the lines sent for texts it has dropped, and
      the text it is following with the offset of its first byte. */
  datatype View = View(earlier: seq<Line>, start: nat, text: Bytes)

  function Delivered(v: View, keep: Line -> bool): seq<Line> { v.earlier + Sent(Lines(v.text, v.start), keep) }

  function Shown(v: View, snap: Snapshot, keep: Line -> bool): View {
    var offset := v.start + |v.text|;
    if snap.size < offset then View(Delivered(v, keep), 0, Read(snap.content, 0, snap.size))
    else View(v.earlier, v.start, v.text + Read(snap.content, offset, snap.size))
  }

  // ------------------------------------------------ what is sent, exactly

  /** A complete line of the text: from its beginning or after a newline, up to
      the next newline. */
  ghost predicate LineAt(text: Bytes, from: nat, raw: Bytes) {
    && from + |raw| < |text| && text[from..from + |raw|] == raw && text[from + |raw|] == '\n'
    && (forall i | 0 <= i < |raw| :: raw[i] != '\n')
    && (from == 0 || text[from - 1] == '\n')
  }

  lemma {:induction false} GlueEnds(lines: seq<Line>)
    ensures var t := Glue(lines); t == "" || t[|t| - 1] == '\n'
  {
  }

  lemma GlueStep(lines: seq<Line>, k: nat)
    requires k < |lines|
    ensures Glue(lines[..k]) + lines[k].raw + ['\n'] <= Glue(lines)
  {
    assert lines[..k + 1][..k] == lines[..k];
    GluePrefix(lines, k + 1);
  }

  /** Every line found is a line of the text. */
  lemma FoundIsLine(text: Bytes, offset: nat, k: nat)
    requires k < |Lines(text, offset)|
    ensures var l := Lines(text, offset)[k]; l.pos >= offset && LineAt(text, l.pos - offset, l.raw)
  {
    var lines := Lines(text, offset);
    SplitCorrect(text, offset);
    GlueStep(lines, k);
    GlueEnds(lines[..k]);
    var front, raw := Glue(lines[..k]), lines[k].raw;
    assert front + raw + ['\n'] <= text;
    assert text[|front|..|front| + |raw|] == raw;
    assert front != "" ==> text[|front| - 1] == front[|front| - 1];
  }

  lemma PlainEnd(a: Bytes, b: Bytes)
    ensures Plain(b) && b != "" ==> (a + b)[|a + b| - 1] != '\n'
  {
  }

  /** Every line of the text is found. */
  lemma LineIsFound(text: Bytes, offset: nat, from: nat, raw: Bytes)
    requires LineAt(text, from, raw)
    ensures Line(offset + from, raw) in Lines(text, offset)
  {
    var front, back := text[..from], text[from..];
    var s := Scan(Begin(offset), front);
    assert s.rest == "" && s.pos == offset + from by {
      SplitCorrect(front, offset);
      PlainEnd(Glue(s.lines), s.rest);
    }
    assert text == front + back;
    ScanAppend(Begin(offset), front, back);
    assert back[..|raw|] == raw;
    ScanCut(s, back, |raw|);
    ScanFrom(Add(s, raw), back[|raw| + 1..]);
    assert Line(s.pos, raw) in Add(s, raw).lines;
  }

  /** t is the line without the carriage returns at its end. */
  ghost predicate Stripped(raw: Bytes, t: Bytes) {
    && t <= raw && (forall i | |t| <= i < |raw| :: raw[i] == '\r')
    && (t == "" || t[|t| - 1] != '\r')
  }

  lemma {:induction false} TrimRightStrips(raw: Bytes)
    ensures Stripped(raw, TrimRight(raw))
  {
    if raw != "" && raw[|raw| - 1] == '\r' {
      TrimRightStrips(raw[..|raw| - 1]);
    }
  }

  lemma StrippedLength(raw: Bytes, t: Bytes, u: Bytes)
    ensures Stripped(raw, t) && Stripped(raw, u) ==> |u| <= |t|
  {
    if |u| > 0 && u <= raw {
      assert raw[|u| - 1] == u[|u| - 1];
    }
  }

  lemma StrippedOnce(raw: Bytes, t: Bytes, u: Bytes)
    requires Stripped(raw, t) && Stripped(raw, u)
    ensures t == u
  {
    StrippedLength(raw, t, u);
    StrippedLength(raw, u, t);
  }

  /** A line to be sent: a complete line of the text at that offset, without the
      carriage returns at its end, that the filter accepts. */
  ghost predicate IsDue(text: Bytes, offset: nat, keep: Line -> bool, l: Line) {
    l.pos >= offset && keep(l) && exists raw :: LineAt(text, l.pos - offset, raw) && Stripped(raw, l.raw)
  }

  ghost predicate Ascending(lines: seq<Line>) {
    forall i, j | 0 <= i < j < |lines| :: lines[i].pos < lines[j].pos
  }

  ghost predicate TrimsOne(lines: seq<Line>, l: Line) { exists k | 0 <= k < |lines| :: Trims(lines[k], l) }

  lemma TrimsOneSnoc(lines: seq<Line>, last: Line, l: Line)
    ensures TrimsOne(lines + [last], l) <==> TrimsOne(lines, l) || Trims(last, l)
  {
    var all := lines + [last];
    assert all[|lines|] == last && forall k | 0 <= k < |lines| :: all[k] == lines[k];
  }

  lemma KeptMember(line: Line, keep: Line -> bool, l: Line)
    ensures l in Kept(line, keep) <==> keep(l) && Trims(line, l)
  {
    TrimRightStrips(line.raw);
    if Trims(line, l) {
      StrippedOnce(line.raw, TrimRight(line.raw), l.raw);
    }
  }

  lemma {:induction false} SentMembers(lines: seq<Line>, keep: Line -> bool, l: Line)
    ensures l in Sent(lines, keep) <==> keep(l) && TrimsOne(lines, l)
  {
    if lines != [] {
      var front, last := lines[..|lines| - 1], lines[|lines| - 1];
      SentMembers(front, keep, l);
      KeptMember(last, keep, l);
      TrimsOneSnoc(front, last, l);
      assert lines == front + [last];
    }
  }

  ghost predicate Trims(raw: Line, l: Line) { raw.pos == l.pos && Stripped(raw.raw, l.raw) }

  ghost predicate AllBelow(lines: seq<Line>, bound: int) { forall i | 0 <= i < |lines| :: lines[i].pos < bound }

  lemma {:induction false} SentBelow(lines: seq<Line>, keep: Line -> bool, bound: int)
    requires AllBelow(lines, bound)
    ensures AllBelow(Sent(lines, keep), bound)
  {
    if lines != [] {
      SentBelow(lines[..|lines| - 1], keep, bound);
    }
  }

  lemma AscendingJoin(a: seq<Line>, b: seq<Line>, bound: int)
    requires Ascending(a) && AllBelow(a, bound)
    requires |b| <= 1 && forall l | l in b :: l.pos == bound
    ensures Ascending(a + b)
  {
  }

  lemma {:induction false} SentAscends(lines: seq<Line>, keep: Line -> bool)
    requires Ascending(lines)
    ensures Ascending(Sent(lines, keep))
  {
    if lines != [] {
      var front, last := lines[..|lines| - 1], lines[|lines| - 1];
      SentAscends(front, keep);
      SentBelow(front, keep, last.pos);
      AscendingJoin(Sent(front, keep), Kept(last, keep), last.pos);
    }
  }

  lemma LinesAscend(text: Bytes, offset: nat)
    ensures Ascending(Lines(text, offset))
  {
    var lines := Lines(text, offset);
    SplitCorrect(text, offset);
    forall i, j | 0 <= i < j < |lines| ensures lines[i].pos < lines[j].pos {
      GlueStep(lines[..j], i);
      assert lines[..j][..i] == lines[..i];
    }
  }

  lemma TrimmedIsLine(text: Bytes, offset: nat, l: Line)
    ensures TrimsOne(Lines(text, offset), l) ==> l.pos >= offset && exists raw :: LineAt(text, l.pos - offset, raw) && Stripped(raw, l.raw)
  {
    var lines := Lines(text, offset);
    if k :| 0 <= k < |lines| && Trims(lines[k], l) {
      FoundIsLine(text, offset, k);
      assert LineAt(text, l.pos - offset, lines[k].raw);
    }
  }

  lemma LineIsTrimmed(text: Bytes, offset: nat, l: Line, raw: Bytes)
    requires l.pos >= offset && LineAt(text, l.pos - offset, raw) && Stripped(raw, l.raw)
    ensures TrimsOne(Lines(text, offset), l)
  {
    LineIsFound(text, offset, l.pos - offset, raw);
    assert Trims(Line(l.pos, raw), l);
  }

  lemma DueIffSent(text: Bytes, offset: nat, keep: Line -> bool, l: Line)
    ensures l in Sent(Lines(text, offset), keep) <==> IsDue(text, offset, keep, l)
  {
    SentMembers(Lines(text, offset), keep, l);
    TrimmedIsLine(text, offset, l);
    if IsDue(text, offset, keep, l) {
      var raw :| LineAt(text, l.pos - offset, raw) && Stripped(raw, l.raw);
      LineIsTrimmed(text, offset, l, raw);
    }
  }

  /** The lines due are sent, each once and in the order of the text, and nothing
      else. */
  lemma SentIsDue(text: Bytes, offset: nat, keep: Line -> bool)
    ensures var sent := Sent(Lines(text, offset), keep);
      Ascending(sent) && forall l :: l in sent <==> IsDue(text, offset, keep, l)
  {
    LinesAscend(text, offset);
    SentAscends(Lines(text, offset), keep);
    forall l ensures l in Sent(Lines(text, offset), keep) <==> IsDue(text, offset, keep, l) {
      DueIffSent(text, offset, keep, l);
    }
  }

  // ------------------------------------------------------------ the program

  /** strings.IndexByte(text, '\n'), the length of the text when there is none. */
  method IndexOfNewline(text: Bytes) returns (i: nat)
    ensures i <= |text| && Plain(text[..i])
    ensures i < |text| ==> text[i] == '\n'
  {
    i := 0;
    while i < |text| && text[i] != '\n'
      invariant 0 <= i <= |text| && Plain(text[..i])
    {
      i := i + 1;
    }
  }

  class Tailer {
    var offset: nat
    var parsed: nat
    var pending: Bytes
    var sent: seq<Line>
    const keep: Line -> bool
    /** What it has been shown since it last (re)started: this text, beginning at
        this byte; the lines cut off it; and what it had sent before. */
    ghost var start: nat
    ghost var text: Bytes
    ghost var lines: seq<Line>
    ghost var earlier: seq<Line>

    ghost predicate Valid()
      reads this
    {
      && offset == start + |text|
      && parsed + |pending| == offset
      && Scan(Begin(start), text) == Split(lines, parsed, pending)
      && sent == earlier + Sent(lines, keep)
    }

    ghost function Seen(): View
      reads this
    {
      View(earlier, start, text)
    }

    constructor (at: nat, keep: Line -> bool)
      ensures Valid() && this.keep == keep && Seen() == View([], at, "")
    {
      offset, parsed, pending, sent := at, at, "", [];
      this.keep := keep;
      start, text, lines, earlier := at, "", [], [];
    }

    /** One tick of the poll timer. The size comes from Stat; the read that
        follows it sees the content, which may have changed in between. */
    method Poll(snap: Snapshot)
      requires Valid()
      modifies this
      ensures Valid() && Seen() == Shown(old(Seen()), snap, keep)
      ensures sent == Delivered(Seen(), keep)
      ensures snap.size < old(offset) ==> start == 0 && earlier == old(sent) && text == Read(snap.content, 0, snap.size)
      ensures snap.size >= old(offset) ==>
                start == old(start) && earlier == old(earlier) && text == old(text) + Read(snap.content, old(offset), snap.size)
    {
      if snap.size < offset {
        offset, parsed, pending := 0, 0, "";
        start, text, lines, earlier := 0, "", [], sent;
      }
      assert Seen().text == "" ==> Seen().text + Read(snap.content, offset, snap.size) == Read(snap.content, offset, snap.size);
      if snap.size == offset {
        assert Seen().text + Read(snap.content, offset, offset) == Seen().text;
        return;
      }
      Append(Read(snap.content, offset, snap.size));
    }

    /** What a poll has read, up to the end of its inner loop. */
    method Append(buf: Bytes)
      requires Valid()
      modifies this
      ensures Valid() && Seen() == View(old(earlier), old(start), old(text) + buf)
    {
      Rescan(buf);
      offset := offset + |buf|;
      pending := pending + buf;
      text := text + buf;
      SplitPending();
    }

    /** Scanning what is pending again, with more after it, scans the longer text. */
    lemma Rescan(buf: Bytes)
      requires Valid()
      ensures Scan(Begin(start), text + buf) == Scan(Split(lines, parsed, ""), pending + buf)
    {
      SplitCorrect(text, start);
      ScanPending(Split(lines, parsed, ""), pending);
      ScanAppend(Split(lines, parsed, ""), pending, buf);
      ScanAppend(Begin(start), text, buf);
    }

    /** The inner loop: send and drop the complete lines of what is pending. */
    method SplitPending()
      requires offset == start + |text| && Splitting(Scan(Begin(start), text))
      modifies `parsed, `pending, `sent, `lines
      ensures Valid()
    {
      ghost var whole := Scan(Begin(start), text);
      var i := IndexOfNewline(pending);
      while i < |pending|
        invariant 0 <= i <= |pending| && Plain(pending[..i]) && (i < |pending| ==> pending[i] == '\n')
        invariant Splitting(whole)
        decreases |pending|
      {
        LineCut(lines, parsed, pending, i);
        SentWith(earlier, lines, Line(parsed, pending[..i]), keep);
        SendLine(i);
        i := IndexOfNewline(pending);
      }
      assert pending[..i] == pending;
      ScanPending(Split(lines, parsed, ""), pending);
    }

    /** What holds while the pending bytes are still being split: going on from
        here splits the whole text. */
    ghost predicate Splitting(whole: Split)
      reads this
    {
      && parsed + |pending| == offset
      && whole == Scan(Split(lines, parsed, ""), pending)
      && sent == earlier + Sent(lines, keep)
    }

    /** One round of that loop: the line before the newline at i. */
    method SendLine(i: nat)
      requires i < |pending|
      modifies `parsed, `pending, `sent, `lines
      ensures pending == old(pending)[i + 1..] && parsed == old(parsed) + i + 1
      ensures lines == old(lines) + [Line(old(parsed), old(pending)[..i])]
      ensures sent == old(sent) + Kept(Line(old(parsed), old(pending)[..i]), keep)
    {
      var raw, pos := pending[..i], parsed;
      lines := lines + [Line(pos, raw)];
      parsed := parsed + i + 1;
      pending := pending[i + 1..];
      SendIfKept(Line(pos, TrimRight(raw)));
    }

    /** The line goes out if it parses and passes the filter. */
    method SendIfKept(line: Line)
      modifies `sent
      ensures keep(line) ==> sent == old(sent) + [line]
      ensures !keep(line) ==> sent == old(sent)
    {
      if keep(line) {
        sent := sent + [line];
      }
    }
  }

  lemma LineCut(lines: seq<Line>, parsed: nat, pending: Bytes, i: nat)
    requires i < |pending| && Plain(pending[..i]) && pending[i] == '\n'
    ensures var cut := Line(parsed, pending[..i]);
      Scan(Split(lines, parsed, ""), pending) == Scan(Split(lines + [cut], parsed + i + 1, ""), pending[i + 1..])
  {
    ScanCut(Split(lines, parsed, ""), pending, i);
  }

  lemma SentWith(earlier: seq<Line>, lines: seq<Line>, line: Line, keep: Line -> bool)
    ensures earlier + Sent(lines + [line], keep) == earlier + Sent(lines, keep) + Kept(line, keep)
  {
    SentSnoc(lines, line, keep);
    Regroup(earlier, Sent(lines, keep), Kept(line, keep));
  }

  lemma ScanPending(s: Split, pending: Bytes)
    requires Plain(pending) && s.rest == ""
    ensures Scan(s, pending) == Split(s.lines, s.pos, pending)
  {
    ScanPlain(s, pending);
    assert "" + pending == pending;
  }

  // ---------------------------------------------------------- whole sessions

  const TWO_TO_THE_64 := 0x1_0000_0000_0000_0000

  const TWO_TO_THE_63 := 0x8000_0000_0000_0000

  /** int64(seq) */
  function ToInt64(after: nat): int
    requires after < TWO_TO_THE_64
  {
    if after < TWO_TO_THE_63 then after else after - TWO_TO_THE_64
  }

  /** The end of the file, or after_seq when it was given and, once cast, lies
      before the size that Stat reports. */
  function StartOffset(end: nat, size: nat, after: Option<nat>): int
    requires after.Some? ==> after.value < TWO_TO_THE_64
  {
    if after.Some? && ToInt64(after.value) < size then ToInt64(after.value) else end
  }

  function ShownAll(v: View, snaps: seq<Snapshot>, keep: Line -> bool): View {
    if snaps == [] then v else Shown(ShownAll(v, snaps[..|snaps| - 1], keep), snaps[|snaps| - 1], keep)
  }

  /** What the client gets in a session. A start that the cast made negative ends
      it at the first seek. */
  function Session(start: int, snaps: seq<Snapshot>, keep: Line -> bool): seq<Line> {
    if start < 0 then [] else Delivered(ShownAll(View([], start, ""), snaps, keep), keep)
  }

  /** Any session at all: however the polls cut the log, and whatever happens to
      the file between them, the lines sent are those that splitting each text
      shown as a whole gives. */
  method Follow(end: nat, size: nat, after: Option<nat>, snaps: seq<Snapshot>, keep: Line -> bool) returns (sent: seq<Line>)
    requires after.Some? ==> after.value < TWO_TO_THE_64
    ensures sent == Session(StartOffset(end, size, after), snaps, keep)
  {
    var offset := StartOffset(end, size, after);
    if offset < 0 {
      return [];
    }
    var tailer := new Tailer(offset, keep);
    for k := 0 to |snaps|
      invariant tailer.Valid() && tailer.keep == keep
      invariant tailer.Seen() == ShownAll(View([], offset, ""), snaps[..k], keep)
    {
      ShownNext(View([], offset, ""), snaps, k, keep);
      tailer.Poll(snaps[k]);
    }
    assert snaps[..|snaps|] == snaps;
    sent := tailer.sent;
  }

  lemma ShownNext(v: View, snaps: seq<Snapshot>, k: nat, keep: Line -> bool)
    requires k < |snaps|
    ensures ShownAll(v, snaps[..k + 1], keep) == Shown(ShownAll(v, snaps[..k], keep), snaps[k], keep)
  {
    assert snaps[..k + 1][..k] == snaps[..k];
  }

  // ------------------------------------------------------------- one log file

  /** The snapshots are of one file that only grows, and not below this size. */
  ghost predicate Growing(file: Bytes, from: nat, snaps: seq<Snapshot>)
    decreases |snaps|
  {
    if snaps == [] then from <= |file|
    else
      var front, last := snaps[..|snaps| - 1], snaps[|snaps| - 1];
      && Growing(file, from, front)
      && last.content <= file && EndSize(from, front) <= last.size <= |last.content|
  }

  function EndSize(from: nat, snaps: seq<Snapshot>): nat { if snaps == [] then from else snaps[|snaps| - 1].size }

  lemma {:induction false} GrowingShows(v: View, file: Bytes, snaps: seq<Snapshot>, keep: Line -> bool)
    requires var offset := v.start + |v.text|;
      Growing(file, offset, snaps) && offset <= |file| && v.text == file[v.start..offset]
    ensures var n := EndSize(v.start + |v.text|, snaps);
      v.start + |v.text| <= n <= |file| && ShownAll(v, snaps, keep) == View(v.earlier, v.start, file[v.start..n])
    decreases |snaps|
  {
    if snaps != [] {
      var front, last := snaps[..|snaps| - 1], snaps[|snaps| - 1];
      GrowingShows(v, file, front, keep);
      ReadGrown(file, last.content, v.start, EndSize(v.start + |v.text|, front), last.size);
    }
  }

  lemma ReadGrown(file: Bytes, content: Bytes, begin: nat, at: nat, size: nat)
    requires content <= file && begin <= at <= size <= |content|
    ensures file[begin..at] + Read(content, at, size) == file[begin..size]
  {
    assert content[at..size] == file[at..size];
  }

  /** On a log that only grows the client gets every complete line after the
      starting point exactly once, at its true offset, and nothing of a line still
      being written. */
  lemma GrowingSession(file: Bytes, start: nat, snaps: seq<Snapshot>, keep: Line -> bool)
    requires Growing(file, start, snaps) && start <= |file|
    ensures start <= EndSize(start, snaps) <= |file|
    ensures Session(start, snaps, keep) == Sent(Lines(file[start..EndSize(start, snaps)], start), keep)
  {
    assert file[start..start] == "";
    GrowingShows(View([], start, ""), file, snaps, keep);
    var sent := Sent(Lines(file[start..EndSize(start, snaps)], start), keep);
    assert [] + sent == sent;
  }

  /** So the client has been sent exactly the lines due of the part of the file it
      was shown, in order. */
  lemma GrowingSessionExact(file: Bytes, start: nat, snaps: seq<Snapshot>, keep: Line -> bool)
    requires Growing(file, start, snaps) && start <= |file|
    ensures start <= EndSize(start, snaps) <= |file|
    ensures var sent, text := Session(start, snaps, keep), file[start..EndSize(start, snaps)];
      Ascending(sent) && forall l :: l in sent <==> IsDue(text, start, keep, l)
  {
    GrowingSession(file, start, snaps, keep);
    SentIsDue(file[start..EndSize(start, snaps)], start, keep);
  }

  // ------------------------------------------------------------ rotated logs

  /** A file and the polls that met it. */
  datatype Epoch = Epoch(file: Bytes, snaps: seq<Snapshot>)

  /** Each file only grows, and is seen first while shorter than the last size
      seen of the one before. */
  ghost predicate Rotated(epochs: seq<Epoch>, last: nat) {
    epochs == [] || (
      var e := epochs[0];
      && e.snaps != [] && e.snaps[0].size < last
      && Growing(e.file, 0, e.snaps)
      && Rotated(epochs[1..], EndSize(0, e.snaps)))
  }

  function AllSnaps(epochs: seq<Epoch>): seq<Snapshot> {
    if epochs == [] then [] else epochs[0].snaps + AllSnaps(epochs[1..])
  }

  function AllSent(epochs: seq<Epoch>, keep: Line -> bool): seq<Line>
    requires forall i | 0 <= i < |epochs| :: EndSize(0, epochs[i].snaps) <= |epochs[i].file|
  {
    if epochs == [] then []
    else
      Sent(Lines(epochs[0].file[..EndSize(0, epochs[0].snaps)], 0), keep) + AllSent(epochs[1..], keep)
  }

  lemma {:induction false} ShownAppend(v: View, a: seq<Snapshot>, b: seq<Snapshot>, keep: Line -> bool)
    ensures ShownAll(v, a + b, keep) == ShownAll(ShownAll(v, a, keep), b, keep)
    decreases |b|
  {
    if b == [] {
      assert a + b == a;
    } else {
      ShownAppend(v, a, b[..|b| - 1], keep);
      assert (a + b)[..|a + b| - 1] == a + b[..|b| - 1];
    }
  }

  /** A detected shrink starts over: from then on the polls show what they show to
      a session that begins at the start of the new file. */
  lemma {:induction false} ShrinkStartsOver(v: View, snaps: seq<Snapshot>, keep: Line -> bool)
    requires snaps != [] && snaps[0].size < v.start + |v.text|
    ensures ShownAll(v, snaps, keep) == ShownAll(View(Delivered(v, keep), 0, ""), snaps, keep)
    decreases |snaps|
  {
    var front := snaps[..|snaps| - 1];
    if front == [] {
      assert ShownAll(v, front, keep) == v;
      assert "" + Read(snaps[0].content, 0, snaps[0].size) == Read(snaps[0].content, 0, snaps[0].size);
    } else {
      ShrinkStartsOver(v, front, keep);
    }
  }

  lemma {:induction false} GrowingSizes(file: Bytes, snaps: seq<Snapshot>)
    requires Growing(file, 0, snaps)
    ensures EndSize(0, snaps) <= |file|
  {
    if snaps != [] {
      GrowingSizes(file, snaps[..|snaps| - 1]);
    }
  }

  lemma {:induction false} RotatedSizes(epochs: seq<Epoch>, last: nat)
    requires Rotated(epochs, last)
    ensures forall i | 0 <= i < |epochs| :: EndSize(0, epochs[i].snaps) <= |epochs[i].file|
  {
    if epochs != [] {
      GrowingSizes(epochs[0].file, epochs[0].snaps);
      RotatedSizes(epochs[1..], EndSize(0, epochs[0].snaps));
      forall i | 0 <= i < |epochs| ensures EndSize(0, epochs[i].snaps) <= |epochs[i].file| {
        assert i > 0 ==> epochs[i] == epochs[1..][i - 1];
      }
    }
  }

  /** A session over a log that is rotated any number of times, each time noticed:
      after the lines of the text followed so far, every complete line of each
      new file from its beginning. */
  lemma {:induction false} RotatedSession(v: View, epochs: seq<Epoch>, keep: Line -> bool)
    requires Rotated(epochs, v.start + |v.text|)
    requires forall i | 0 <= i < |epochs| :: EndSize(0, epochs[i].snaps) <= |epochs[i].file|
    ensures Delivered(ShownAll(v, AllSnaps(epochs), keep), keep) == Delivered(v, keep) + AllSent(epochs, keep)
    decreases |epochs|
  {
    if epochs == [] {
      assert Delivered(v, keep) + [] == Delivered(v, keep);
    } else {
      var e, rest := epochs[0], epochs[1..];
      var over := View(Delivered(v, keep), 0, "");
      ShrinkStartsOver(v, e.snaps, keep);
      assert e.file[0..0] == "";
      GrowingShows(over, e.file, e.snaps, keep);
      var n := EndSize(0, e.snaps);
      assert e.file[0..n] == e.file[..n];
      var next := View(over.earlier, 0, e.file[..n]);
      ShownAppend(v, e.snaps, AllSnaps(rest), keep);
      RotatedSession(next, rest, keep);
      Regroup(Delivered(v, keep), Sent(Lines(e.file[..n], 0), keep), AllSent(rest, keep));
    }
  }

  // -------------------------------------------------------------- resuming

  /** Every line starts inside the text. */
  lemma LineInText(text: Bytes, offset: nat, k: nat)
    requires k < |Lines(text, offset)|
    ensures offset <= Lines(text, offset)[k].pos < offset + |text|
  {
    var lines := Lines(text, offset);
    SplitCorrect(text, offset);
    GluePrefix(lines, k + 1);
    assert lines[..k + 1][..k] == lines[..k];
  }

  /** The sequence number of such a line, given back, is where the next session
      starts, as long as the file still holds the line. */
  lemma StartAtSeq(end: nat, size: nat, at: nat)
    requires at < size && at < TWO_TO_THE_63
    ensures StartOffset(end, size, Some(at)) == at
  {
  }

  lemma SentCons(line: Line, rest: seq<Line>, keep: Line -> bool)
    ensures Sent([line] + rest, keep) == Kept(line, keep) + Sent(rest, keep)
  {
    SentAppend([line], rest, keep);
    SentSnoc([], line, keep);
    assert [] + [line] == [line];
  }

  lemma StartExact(end: nat, size: nat, after: Option<nat>)
    requires after.Some? ==> after.value < 0x1_0000_0000_0000_0000
    ensures var start := StartOffset(end, size, after);
      && (after == None ==> start == end)
      && (after.Some? && after.value < 0x8000_0000_0000_0000 ==> start == if after.value < size then after.value else end)
      && (after.Some? && after.value >= 0x8000_0000_0000_0000 ==> start == after.value - 0x1_0000_0000_0000_0000 < 0)
  {
  }

  /** What was sent from the k-th on is what is sent of the lines from some on. */
  lemma {:induction false} SentAt(lines: seq<Line>, k: nat, keep: Line -> bool) returns (j: nat)
    requires k < |Sent(lines, keep)|
    ensures j < |lines| && Sent(lines, keep)[k].pos == lines[j].pos
    ensures Sent(lines, keep)[k..] == Sent(lines[j..], keep)
    decreases |lines|
  {
    var head, tail := lines[0], lines[1..];
    assert lines == [head] + tail;
    SentCons(head, tail, keep);
    var n := |Kept(head, keep)|;
    if k < n {
      j := 0;
    } else {
      var i := SentAt(tail, k - n, keep);
      DropConcat(Kept(head, keep), Sent(tail, keep), k);
      DropConcat([head], tail, i + 1);
      j := i + 1;
    }
  }

  /** More text only adds lines. */
  lemma LinesGrow(a: Bytes, b: Bytes, offset: nat, keep: Line -> bool)
    ensures Lines(a, offset) <= Lines(a + b, offset)
    ensures Sent(Lines(a, offset), keep) <= Sent(Lines(a + b, offset), keep)
  {
    ScanAppend(Begin(offset), a, b);
    ScanFrom(Scan(Begin(offset), a), b);
    var lines, more := Lines(a, offset), Lines(a + b, offset);
    assert more == lines + more[|lines|..];
    SentAppend(lines, more[|lines|..], keep);
  }

  /** Restarting at the offset of a line sent gives that line and all after it. */
  lemma ResumeFromSeq(text: Bytes, offset: nat, k: nat, keep: Line -> bool)
    requires k < |Sent(Lines(text, offset), keep)|
    ensures var sent := Sent(Lines(text, offset), keep);
      var at := sent[k].pos;
      offset <= at < offset + |text| && Sent(Lines(text[at - offset..], at), keep) == sent[k..]
  {
    var lines := Lines(text, offset);
    var j := SentAt(lines, k, keep);
    LineInText(text, offset, j);
    LinesFrom(text, offset, j);
  }

  function SentBetween(file: Bytes, from: nat, to: nat, keep: Line -> bool): seq<Line>
    requires from <= to <= |file|
  {
    Sent(Lines(file[from..to], from), keep)
  }

  /** The whole begins with what was sent, and again is the whole from the k-th
      line on: what was sent from there, and more. */
  predicate Continues(sent: seq<Line>, k: nat, again: seq<Line>, whole: seq<Line>) {
    k < |sent| && sent <= whole && sent[k..] <= again && again == whole[k..]
  }

  /** The same when the log has grown from n to m meanwhile. */
  lemma ResumeGrown(file: Bytes, start: nat, n: nat, m: nat, k: nat, keep: Line -> bool)
    requires start <= n <= m <= |file| && k < |SentBetween(file, start, n, keep)|
    ensures var sent := SentBetween(file, start, n, keep);
      var at := sent[k].pos;
      start <= at < n && Continues(sent, k, SentBetween(file, at, m, keep), SentBetween(file, start, m, keep))
  {
    ResumeFromSeq(file[start..n], start, k, keep);
    assert file[start..m] == file[start..n] + file[n..m];
    LinesGrow(file[start..n], file[n..m], start, keep);
    ResumeFromSeq(file[start..m], start, k, keep);
    var at := SentBetween(file, start, n, keep)[k].pos;
    assert file[start..m][at - start..] == file[at..m];
  }

  /** Two sessions with one filter on a log that only grows, the second begun
      after the first ended with the number of a line the first had sent: it
      sends that line again, everything the first had sent after it, and then
      what the first would have sent had it gone on as long as the second. */
  lemma ResumedSession(file: Bytes, start: nat, first: seq<Snapshot>, sent: seq<Line>, k: nat, at: nat,
                       end: nat, size: nat, second: seq<Snapshot>, keep: Line -> bool)
    requires start <= |file| < TWO_TO_THE_63 && Growing(file, start, first)
    requires sent == Session(start, first, keep) && k < |sent| && at == sent[k].pos
    requires EndSize(start, first) <= size && Growing(file, size, second)
    ensures start <= at < size <= |file|
    ensures StartOffset(end, size, Some(at)) == at
    ensures second != [] ==> Continues(sent, k, Session(at, second, keep), Session(start, first + second, keep))
  {
    var n, m := EndSize(start, first), EndSize(size, second);
    GrowingSession(file, start, first, keep);
    GrowingFrom(file, size, second);
    ResumeGrown(file, start, n, m, k, keep);
    StartAtSeq(end, size, at);
    if second != [] {
      ResumedEnds(file, start, first, at, size, second, keep);
    }
  }

  lemma ResumedEnds(file: Bytes, start: nat, first: seq<Snapshot>, at: nat, size: nat, second: seq<Snapshot>, keep: Line -> bool)
    requires start <= at <= size && Growing(file, start, first)
    requires EndSize(start, first) <= size && Growing(file, size, second) && second != []
    ensures size <= EndSize(size, second) <= |file|
    ensures Session(at, second, keep) == SentBetween(file, at, EndSize(size, second), keep)
    ensures Session(start, first + second, keep) == SentBetween(file, start, EndSize(size, second), keep)
  {
    GrowingFrom(file, size, second);
    GrowingLower(file, size, second, at);
    GrowingAppend(file, start, first, size, second);
    GrowingSession(file, at, second, keep);
    GrowingSession(file, start, first + second, keep);
  }

  lemma {:induction false} GrowingFrom(file: Bytes, from: nat, snaps: seq<Snapshot>)
    requires Growing(file, from, snaps)
    ensures from <= EndSize(from, snaps) <= |file|
  {
    if snaps != [] {
      GrowingFrom(file, from, snaps[..|snaps| - 1]);
    }
  }

  lemma {:induction false} GrowingLower(file: Bytes, from: nat, snaps: seq<Snapshot>, lower: nat)
    requires Growing(file, from, snaps) && lower <= from
    ensures Growing(file, lower, snaps)
  {
    if snaps != [] {
      GrowingLower(file, from, snaps[..|snaps| - 1], lower);
    }
  }

  lemma {:induction false} GrowingAppend(file: Bytes, start: nat, a: seq<Snapshot>, from: nat, b: seq<Snapshot>)
    requires Growing(file, start, a) && Growing(file, from, b) && EndSize(start, a) <= from
    ensures Growing(file, start, a + b)
    decreases |b|
  {
    if b == [] {
      assert a + b == a;
    } else {
      GrowingAppend(file, start, a, from, b[..|b| - 1]);
      assert (a + b)[..|a + b| - 1] == a + b[..|b| - 1];
    }
  }

  /** A client that follows the log, loses its connection, and asks again with
      the number of the k-th line it was sent. */
  method Reconnect(file: Bytes, end: nat, size: nat, after: Option<nat>, first: seq<Snapshot>, k: nat,
                   end': nat, size': nat, second: seq<Snapshot>, keep: Line -> bool)
    returns (sent: seq<Line>, again: seq<Line>)
    requires |file| < TWO_TO_THE_63 && (after.Some? ==> after.value < TWO_TO_THE_64)
    requires end <= size && Growing(file, size, first)
    requires EndSize(size, first) <= size' && Growing(file, size', second)
    ensures sent == Session(StartOffset(end, size, after), first, keep)
    ensures k < |sent| && second != [] ==> sent[k..] <= again
    ensures k < |sent| && second != [] ==> again[0] == sent[k]
  {
    sent := Follow(end, size, after, first, keep);
    if k >= |sent| {
      return sent, [];
    }
    var start := StartOffset(end, size, after);
    GrowingFrom(file, size, first);
    GrowingLower(file, size, first, start);
    ResumedSession(file, start, first, sent, k, sent[k].pos, end', size', second, keep);
    again := Follow(end', size', Some(sent[k].pos), second, keep);
    assert second != [] ==> sent[k..][0] == sent[k];
  }
}
