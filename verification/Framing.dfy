/** Byte streams in pieces: what short writes put out and what short reads take in. */
module Framing {
  import opened HeapOrder
  import opened Wire

  // ----- what the server inserts -----

  /** The entries the server inserts for a sequence of lines. */
  function Inserts(ls: seq<string>): seq<Keyed> {
    if ls == [] then []
    else
      var p := ParseLine(ls[|ls|-1]);
      Inserts(ls[..|ls|-1]) + if p.Parsed? && p.entry.key >= 0 then [p.entry] else []
  }

  lemma {:induction false} InsertsAppend(a: seq<string>, b: seq<string>)
    ensures Inserts(a + b) == Inserts(a) + Inserts(b)
  {
    hide ParseLine;
    if b == [] {
      assert a + b == a;
    } else {
      InsertsAppend(a, b[..|b|-1]);
      assert (a + b)[..|a + b|-1] == a + b[..|b|-1];
    }
  }

  /** A line with a negative key is never inserted, and nothing that is inserted has one. */
  lemma {:induction false} NegativeNeverInserted(ls: seq<string>)
    ensures forall e :: e in Inserts(ls) ==> e.key >= 0
  {
    if ls != [] {
      NegativeNeverInserted(ls[..|ls|-1]);
    }
  }

  // ----- reading in pieces -----

  /** How many bytes a schedule of reads has taken. */
  function Total(ks: seq<nat>): nat {
    if ks == [] then 0 else Total(ks[..|ks|-1]) + ks[|ks|-1]
  }

  /** Reads of at least one byte each, none of which overruns the buffer that keeps the unfinished
      line, or the stream. */
  predicate Readable(stream: string, ks: seq<nat>) {
    ks == [] ||
    var init := ks[..|ks|-1];
    && Readable(stream, init)
    && Total(init) <= |stream|
    && 1 <= ks[|ks|-1] <= |stream| - Total(init)
    && |Rest(stream[..Total(init)])| + ks[|ks|-1] <= RD_BUF_SIZE
  }

  /** The server's reads: each inserts the complete lines in the buffer and keeps the rest. */
  datatype Intake = Intake(lines: seq<string>, kept: string)

  function TakeIn(stream: string, ks: seq<nat>): Intake
    requires Readable(stream, ks)
    ensures Total(ks) <= |stream|
  {
    if ks == [] then Intake([], "")
    else
      var init := ks[..|ks|-1];
      var before := TakeIn(stream, init);
      var buf := before.kept + stream[Total(init)..Total(ks)];
      Intake(before.lines + Lines(buf), Rest(buf))
  }

  /** However the stream is cut, the lines inserted are the complete lines of what was read, in
      order, and the buffer holds exactly the unfinished line. */
  lemma {:induction false} ChunksDoNotMatter(stream: string, ks: seq<nat>)
    requires Readable(stream, ks)
    ensures TakeIn(stream, ks) == Intake(Lines(stream[..Total(ks)]), Rest(stream[..Total(ks)]))
    ensures |TakeIn(stream, ks).kept| <= RD_BUF_SIZE
  {
    if ks == [] {
      assert stream[..0] == "";
      assert Find("", LF) == 0;
    } else {
      var init := ks[..|ks|-1];
      ChunksDoNotMatter(stream, init);
      var a, b := stream[..Total(init)], stream[Total(init)..Total(ks)];
      LinesAppend(a, b);
      SliceSplit(stream, Total(init), Total(ks));
    }
  }

  /** Every line of the stream fits the read buffer. */
  predicate AllFit(stream: string) {
    forall k :: 0 <= k < |Lines(stream)| ==> |Lines(stream)[k]| <= RD_BUF_SIZE
  }

  /** An unfinished line is a proper part of the line the stream completes it to. */
  lemma UnfinishedIsPartOfLine(s: string, n: nat) returns (k: nat)
    requires n < |s| && Rest(s) == ""
    ensures k < |Lines(s)| && |Rest(s[..n])| < |Lines(s)[k]|
    ensures Rest(s[..n]) == Lines(s)[k][..|Rest(s[..n])|]
  {
    var u := Rest(s[..n]);
    var t := u + s[n..];
    SliceSplit(s, n, n);
    LinesAppend(s[..n], s[n..]);
    k := |Lines(s[..n])|;
    assert Lines(s)[k..] == Lines(t);
    LineCompletes(u, s[n..]);
    assert Lines(s)[k] == Lines(t)[0];
  }

  lemma LineCompletes(u: string, more: string)
    requires Find(u, LF) == |u| && more != "" && Rest(u + more) == ""
    ensures Lines(u + more) != [] && |u| < |Lines(u + more)[0]| && u == Lines(u + more)[0][..|u|]
  {
    var t := u + more;
    var i := Find(t, LF);
    if i == |t| { NoLineYet(t); }
    assert forall j :: 0 <= j < |u| ==> t[j] == u[j];
    assert i >= |u|;
  }

  /** If every line fits, there is always room for one more byte. */
  lemma RoomForOneMore(stream: string, ks: seq<nat>)
    requires Readable(stream, ks) && Rest(stream) == "" && AllFit(stream)
    ensures |TakeIn(stream, ks).kept| < RD_BUF_SIZE
  {
    ChunksDoNotMatter(stream, ks);
    if Total(ks) < |stream| {
      var k := UnfinishedIsPartOfLine(stream, Total(ks));
    } else {
      assert stream[..Total(ks)] == stream;
    }
  }

  /** A read is possible as long as there is something to read and room for it; the server takes
      an empty read for the end of the stream. */
  predicate Stopped(stream: string, ks: seq<nat>)
    requires Readable(stream, ks)
  {
    Total(ks) == |stream| || |TakeIn(stream, ks).kept| == RD_BUF_SIZE
  }

  /** Between two line feeds, what was read is the whole unfinished line. */
  lemma InsideLine(s: string, n: nat, m: nat)
    requires n <= m <= |s| && Rest(s[..n]) == "" && m - n <= Find(s[n..], LF)
    ensures Rest(s[..m]) == s[n..m]
  {
    var b := s[n..m];
    SliceSplit(s, n, m);
    LinesAppend(s[..n], b);
    assert "" + b == b;
    assert forall j :: 0 <= j < |b| ==> b[j] == s[n..][j];
    NoLineYet(b);
  }

  /** A line longer than the buffer is never read to its end. */
  lemma {:induction false} LongLineNeverDone(stream: string, ks: seq<nat>, n: nat)
    requires Readable(stream, ks) && n + RD_BUF_SIZE < |stream|
    requires Rest(stream[..n]) == "" && Find(stream[n..], LF) >= RD_BUF_SIZE
    ensures Total(ks) <= n + RD_BUF_SIZE
  {
    if ks != [] {
      var init := ks[..|ks|-1];
      LongLineNeverDone(stream, init, n);
      if n <= Total(init) {
        InsideLine(stream, n, Total(init));
      }
    }
  }

  /** Exactly when reading succeeds: once the server stops reading a stream of complete lines, it
      has read all of it if and only if every line, with its line feed, fits the read buffer. */
  lemma ReadingSucceedsIff(stream: string, ks: seq<nat>)
    requires Rest(stream) == "" && Readable(stream, ks) && Stopped(stream, ks)
    ensures Total(ks) == |stream| <==> AllFit(stream)
  {
    if AllFit(stream) {
      RoomForOneMore(stream, ks);
    } else {
      var k :| 0 <= k < |Lines(stream)| && |Lines(stream)[k]| > RD_BUF_SIZE;
      var n := Offset(stream, k);
      LongLineNeverDone(stream, ks, n);
    }
  }

  /** Whatever was read so far, the server can go on reading until it stops. */
  lemma {:induction false} ReadingStops(stream: string, ks: seq<nat>) returns (all: seq<nat>)
    requires Readable(stream, ks)
    ensures ks <= all && Readable(stream, all) && Stopped(stream, all)
    decreases |stream| - TotalRead(stream, ks)
  {
    hide Rest, TakeIn;
    ChunksDoNotMatter(stream, ks);
    if Stopped(stream, ks) {
      all := ks;
    } else {
      var more := ks + [1];
      assert more[..|ks|] == ks;
      all := ReadingStops(stream, more);
    }
  }

  function TotalRead(stream: string, ks: seq<nat>): (n: nat)
    requires Readable(stream, ks)
    ensures n <= |stream|
  {
    ChunksDoNotMatter(stream, ks);
    Total(ks)
  }

  /** The server stops before the end of the stream. */
  ghost predicate StopsShort(stream: string, ks: seq<nat>) {
    Readable(stream, ks) && Stopped(stream, ks) && Total(ks) < |stream|
  }

  /** A stream of complete lines can be cut so that the server loses a part of it exactly if some
      line does not fit; and then every way of cutting it does. */
  lemma ReadingFailsIff(stream: string)
    requires Rest(stream) == ""
    ensures (exists ks :: StopsShort(stream, ks)) <==> !AllFit(stream)
    ensures !AllFit(stream) ==> forall ks :: Readable(stream, ks) && Stopped(stream, ks) ==> StopsShort(stream, ks)
  {
    hide Rest, TakeIn, AllFit, Stopped, Readable;
    var all := ReadingStops(stream, NoReads(stream));
    forall ks | Readable(stream, ks) && Stopped(stream, ks)
      ensures Total(ks) <= |stream| && (Total(ks) == |stream| <==> AllFit(stream))
    {
      ReadingSucceedsIff(stream, ks);
      assert Total(ks) == TotalRead(stream, ks);
    }
    assert !AllFit(stream) ==> StopsShort(stream, all);
  }

  function NoReads(stream: string): (ks: seq<nat>)
    ensures Readable(stream, ks)
  {
    []
  }

  /** Reassembly does fail: a keyed line of 1026 bytes fills the buffer, and the server stops reading
      two bytes before its end. */
  lemma LongLineFails() returns (stream: string, ks: seq<nat>)
    ensures IsLine(stream) && |stream| == 1026 && ParseLine(stream) == Parsed(Entry(1, stream[2..]))
    ensures Rest(stream) == "" && !AllFit(stream)
    ensures Readable(stream, ks) && Stopped(stream, ks) && Total(ks) == 1024
  {
    stream, ks := LongLine(), [RD_BUF_SIZE];
    LongLineIsLine(stream);
    LongLineParses(stream);
    assert |Lines(stream)[0]| > RD_BUF_SIZE;
    OneRead(stream, RD_BUF_SIZE);
    InsideLine(stream, 0, RD_BUF_SIZE);
  }

  lemma OneRead(stream: string, k: nat)
    requires 1 <= k <= |stream| && k <= RD_BUF_SIZE
    ensures Readable(stream, [k]) && Total([k]) == k && TakeIn(stream, [k]).kept == Rest(stream[..k])
  {
    assert [k][..0] == [] && stream[..0] == "";
    NoLineYet("");
    assert Total([k][..0]) == 0;
    assert Readable(stream, [k]);
    ChunksDoNotMatter(stream, [k]);
  }

  function LongLine(): string {
    "1 " + seq(RD_BUF_SIZE - 1, _ => 'a') + [LF]
  }

  lemma LongLineIsLine(stream: string)
    requires stream == LongLine()
    ensures IsLine(stream) && |stream| == RD_BUF_SIZE + 2
    ensures Lines(stream) == [stream] && Rest(stream) == ""
    ensures stream[..0] == "" && stream[0..] == stream && Rest("") == ""
  {
    FindIs(stream, LF, RD_BUF_SIZE + 1);
    NoLineYet("");
    LinesOfLine(stream, "");
    assert stream + "" == stream;
  }

  lemma LongLineParses(stream: string)
    requires stream == LongLine()
    ensures ParseLine(stream) == Parsed(Entry(1, stream[2..]))
  {
    FindIs(stream, SP, 1);
    var key := stream[..1];
    assert key == "1" && key[..0] == "";
    ScanIntDigits(key, 1);
    assert key[..1] == key;
    CStrWhole(stream[2..]);
  }

  /** The first line, and the lines behind it. */
  lemma BehindFirst(s: string)
    ensures Find(s, LF) < |s| ==>
      && Lines(s) == [s[..Find(s, LF) + 1]] + Lines(s[Find(s, LF) + 1..])
      && Rest(s) == Rest(s[Find(s, LF) + 1..])
    ensures Find(s, LF) == |s| ==> Lines(s) == []
  {}

  lemma FirstOffset(s: string)
    requires Find(s, LF) < |s|
    ensures Rest(s[..0]) == "" && s[0..] == s
    ensures |s[..Find(s, LF) + 1]| == Find(s, LF) + 1
  {
    assert s[..0] == "";
    NoLineYet("");
  }

  /** A line boundary behind the first line is a line boundary. */
  lemma NextOffset(s: string, m: nat)
    requires Find(s, LF) < |s| && m <= |s[Find(s, LF) + 1..]| && Rest(s[Find(s, LF) + 1..][..m]) == ""
    ensures var i := Find(s, LF) + 1; Rest(s[..i + m]) == "" && s[i + m..] == s[i..][m..]
  {
    hide Lines, Rest, FindFrom;
    var i := Find(s, LF) + 1;
    SplitLine(s, i - 1);
    SliceSplit(s, i, i + m);
    LinesOfLine(s[..i], s[i..][..m]);
  }

  /** Where line k of a stream begins. */
  lemma {:induction false} Offset(s: string, k: nat) returns (n: nat)
    requires k < |Lines(s)|
    ensures n + |Lines(s)[k]| <= |s| && Rest(s[..n]) == ""
    ensures Find(s[n..], LF) == |Lines(s)[k]| - 1
  {
    hide Find, FindFrom, Lines, Rest;
    BehindFirst(s);
    if k == 0 {
      n := 0;
      FirstOffset(s);
    } else {
      var i := Find(s, LF) + 1;
      var m := Offset(s[i..], k - 1);
      NextOffset(s, m);
      n := i + m;
    }
  }

  // ----- writing in pieces -----

  /** A file on its way out: the part not yet read, the current line, and how much of it is sent. */
  datatype Outgoing = Outgoing(file: string, line: string, sent: nat)

  predicate ValidOutgoing(o: Outgoing) { o.sent <= |o.line| }

  /** The bytes not yet sent. */
  function Unsent(o: Outgoing): string
    requires ValidOutgoing(o)
  {
    o.line[o.sent..] + o.file
  }

  /** How many of n bytes a write takes that would take `accept`: at least one, at most all. */
  function Taken(accept: nat, n: nat): (k: nat)
    requires 1 <= n
    ensures 1 <= k <= n
    ensures 1 <= accept <= n ==> k == accept
    ensures accept > n ==> k == n
  {
    if accept == 0 then 1 else if accept <= n then accept else n
  }

  /** What getline returns: up to the first line feed, or all there is. */
  function NextLine(file: string): (l: string)
    requires file != ""
    ensures l != "" && |l| <= |file| && l == file[..|l|]
  {
    var i := Find(file, LF);
    if i < |file| then file[..i + 1] else assert file == file[..|file|]; file
  }

  /** It is the first line of the file if there is a complete one, and otherwise all there is. */
  lemma NextLineIsFirst(file: string)
    requires file != ""
    ensures Lines(file) != [] ==>
      && NextLine(file) == Lines(file)[0]
      && Lines(file[|NextLine(file)|..]) == Lines(file)[1..] && Rest(file[|NextLine(file)|..]) == Rest(file)
    ensures Lines(file) == [] ==> NextLine(file) == file
  {
    BehindFirst(file);
    hide Find, FindFrom, Lines, Rest;
  }

  datatype Sent = Sent(next: Outgoing, out: string, stopped: bool)

  /** One call of `read_and_send`: finish a short write, or send the next line, or the stop
      message after the last.  A short write of the stop message is not finished. */
  function SendOnce(o: Outgoing, accept: nat): (r: Sent)
    requires ValidOutgoing(o)
    ensures ValidOutgoing(r.next)
  {
    if o.sent < |o.line| then
      var k := Taken(accept, |o.line| - o.sent);
      Sent(o.(sent := o.sent + k), o.line[o.sent..o.sent + k], false)
    else if o.file == "" then Sent(o, STOP[..Taken(accept, |STOP|)], true)
    else
      var l := NextLine(o.file);
      var k := Taken(accept, |l|);
      Sent(Outgoing(o.file[|l|..], l, k), l[..k], false)
  }

  /** One call moves at least one byte from the unsent to the sent, in order; or, with nothing left
      unsent, it sends as much of the stop message as the write takes. */
  lemma SendOnceConserves(o: Outgoing, accept: nat)
    requires ValidOutgoing(o)
    ensures var r := SendOnce(o, accept);
      && (r.stopped <==> Unsent(o) == "")
      && (r.stopped ==> r.out == STOP[..Taken(accept, |STOP|)] && r.next == o)
      && (!r.stopped ==> r.out != "" && r.out + Unsent(r.next) == Unsent(o))
  {
    var r := SendOnce(o, accept);
    if o.sent < |o.line| {
      assert o.line[o.sent..] == r.out + o.line[r.next.sent..];
      PlusAssociates(r.out, o.line[r.next.sent..], o.file);
    } else if o.file != "" {
      var l := NextLine(o.file);
      assert l == r.out + l[r.next.sent..];
      PlusAssociates(r.out, l[r.next.sent..], r.next.file);
      assert o.file == l + r.next.file;
      assert Unsent(o) == o.file;
    }
  }

  /** A call takes exactly one line from the file, once the line before it is out; until then it
      takes none. */
  lemma OneLineACall(o: Outgoing, accept: nat)
    requires ValidOutgoing(o)
    ensures var n := SendOnce(o, accept).next;
      && (o.sent < |o.line| ==> n.line == o.line && n.file == o.file && n.sent > o.sent)
      && (o.sent == |o.line| && Lines(o.file) != [] ==>
            && n.line == Lines(o.file)[0] && 1 <= n.sent
            && Lines(n.file) == Lines(o.file)[1..] && Rest(n.file) == Rest(o.file))
  {
    if o.file != "" {
      NextLineIsFirst(o.file);
    } else {
      NoLineYet("");
    }
  }

  /** `last` is what the last call's write would have taken. */
  datatype SendLog = SendLog(state: Outgoing, out: string, stopped: bool, last: nat)

  /** Repeated calls until the stop message is sent. */
  function SendAll(file: string, accepts: seq<nat>): (r: SendLog)
    ensures ValidOutgoing(r.state)
  {
    if accepts == [] then SendLog(Outgoing(file, "", 0), "", false, 0)
    else
      var before := SendAll(file, accepts[..|accepts|-1]);
      if before.stopped then before
      else
        var r := SendOnce(before.state, accepts[|accepts|-1]);
        SendLog(r.next, before.out + r.out, r.stopped, accepts[|accepts|-1])
  }

  /** Short writes lose, repeat or reorder nothing: whatever the writes accept, what went out
      followed by what is still to go is the file; and after at most one call more than the file
      has bytes, the whole file is out, and the stop message exactly if its write took it whole. */
  lemma {:induction false} ShortWritesConserve(file: string, accepts: seq<nat>)
    ensures var r := SendAll(file, accepts);
      && (r.stopped ==> r.out == file + STOP[..Taken(r.last, |STOP|)])
      && (r.stopped ==> (r.out == file + STOP <==> r.last >= |STOP|))
      && (!r.stopped ==> r.out + Unsent(r.state) == file && |accepts| <= |r.out|)
      && (|accepts| > |file| ==> r.stopped)
  {
    if accepts == [] {
      assert "" + file == file;
    } else {
      var init := accepts[..|accepts|-1];
      ShortWritesConserve(file, init);
      var before := SendAll(file, init);
      if !before.stopped {
        var r := SendOnce(before.state, accepts[|accepts|-1]);
        SendOnceConserves(before.state, accepts[|accepts|-1]);
        PlusAssociates(before.out, r.out, Unsent(r.next));
        assert before.out + "" == before.out;
      }
    }
  }

  /** A file of complete lines goes out line by line: at any moment the line in flight is the last of
      the m lines taken so far, all before it are out, and the file still holds the others. */
  lemma {:induction false} SendsLineByLine(file: string, accepts: seq<nat>) returns (m: nat)
    requires Rest(file) == ""
    ensures m <= |Lines(file)|
    ensures var r := SendAll(file, accepts);
      && r.state.line == (if m == 0 then "" else Lines(file)[m - 1])
      && Lines(r.state.file) == Lines(file)[m..] && Rest(r.state.file) == ""
      && (r.stopped ==> m == |Lines(file)|)
      && (!r.stopped ==> r.out + r.state.line[r.state.sent..] == Concat(Lines(file)[..m]))
  {
    hide Lines, Rest, SendOnce;
    if accepts == [] {
      m := 0;
    } else {
      var init, accept := accepts[..|accepts|-1], accepts[|accepts|-1];
      m := SendsLineByLine(file, init);
      var before := SendAll(file, init);
      if !before.stopped {
        OneLineACall(before.state, accept);
        SendOnceConserves(before.state, accept);
        if before.state.sent == |before.state.line| {
          if m < |Lines(file)| { m := m + 1; } else { NothingLeft(before.state.file); }
        }
      }
    }
    TakenIsOut(file, accepts, m);
  }

  lemma NothingLeft(file: string)
    requires Lines(file) == [] && Rest(file) == ""
    ensures file == ""
  {
    LinesJoin(file);
    assert Concat([]) + "" == "";
  }

  /** With m lines taken, what is out and what is in flight are these lines. */
  lemma TakenIsOut(file: string, accepts: seq<nat>, m: nat)
    requires Rest(file) == "" && m <= |Lines(file)|
    requires var r := SendAll(file, accepts); Lines(r.state.file) == Lines(file)[m..] && Rest(r.state.file) == ""
    ensures var r := SendAll(file, accepts);
      !r.stopped ==> r.out + r.state.line[r.state.sent..] == Concat(Lines(file)[..m])
  {
    hide Lines, Rest, SendOnce, SendAll;
    var r, ls := SendAll(file, accepts), Lines(file);
    if !r.stopped {
      ShortWritesConserve(file, accepts);
      var a, b := r.out + r.state.line[r.state.sent..], r.state.file;
      PlusAssociates(r.out, r.state.line[r.state.sent..], b);
      WholeLines(file);
      WholeLines(b);
      ConcatSplit(ls, m);
      SamePrefix(a, Concat(ls[..m]), b);
    }
  }

  lemma WholeLines(s: string)
    requires Rest(s) == ""
    ensures Concat(Lines(s)) == s
  {
    hide Lines, Rest;
    LinesJoin(s);
    assert Concat(Lines(s)) + "" == Concat(Lines(s));
  }

  lemma {:induction false} ConcatSplit(ls: seq<string>, m: nat)
    requires m <= |ls|
    ensures Concat(ls) == Concat(ls[..m]) + Concat(ls[m..])
  {
    if m == 0 {
      assert ls[0..] == ls && "" + Concat(ls) == Concat(ls);
    } else {
      ConcatSplit(ls[1..], m - 1);
      assert ls[1..][..m - 1] == ls[..m][1..] && ls[1..][m - 1..] == ls[m..];
      PlusAssociates(ls[0], Concat(ls[..m][1..]), Concat(ls[m..]));
    }
  }

  lemma SamePrefix(a: string, b: string, c: string)
    requires a + c == b + c
    ensures a == b
  {
    assert |a| == |b|;
    assert a == (a + c)[..|a|] && b == (b + c)[..|b|];
  }
}
