/** The server's side of one connection: sending the input file, then receiving the sorted lines. */
module Session {
  import opened HeapOrder
  import opened HeapPages
  import opened Heap
  import opened Wire
  import opened Framing

  /** compares two keys */
  function CmpNode(l: int, r: int): int {
    if l == r then 0 else if l > r then 1 else -1
  }

  function Identity(): int -> int { (k: int) => k }

  /** The sorter's comparison is one the heap accepts. */
  lemma CmpNodeCompares()
    ensures Comparator(CmpNode, Identity())
  {
    forall a, b ensures CmpNode(a, b) == Sign(Identity()(a) - Identity()(b)) {}
  }

  // ----- atoi on a buffer cut off by a NUL -----

  lemma {:induction false} SkipSpacesCut(p: string, q: string, i: nat)
    requires i <= |p|
    ensures SkipSpaces(p + [NUL] + q, i) == SkipSpaces(p, i)
    decreases |p| - i
  {
    if i < |p| && IsSpace(p[i]) {
      SkipSpacesCut(p, q, i + 1);
    }
  }

  lemma {:induction false} ScanDigitsCut(p: string, q: string, i: nat, acc: nat)
    requires i <= |p|
    ensures ScanDigits(p + [NUL] + q, i, acc) == ScanDigits(p, i, acc)
    decreases |p| - i
  {
    if i < |p| && IsDigit(p[i]) {
      ScanDigitsCut(p, q, i + 1, acc * 10 + DigitValue(p[i]));
    }
  }

  lemma AtoiCut(p: string, q: string)
    ensures Atoi(p + [NUL] + q) == Atoi(p)
  {
    SkipSpacesCut(p, q, 0);
    var i := SkipSpaces(p, 0);
    ScanDigitsCut(p, q, i, 0);
    if i < |p| { ScanDigitsCut(p, q, i + 1, 0); }
  }

  /** The text of an entry whose value is a null pointer; no C string contains a NUL. */
  const NO_TEXT: string := [NUL]

  /** Divide a line at its first space, which is overwritten by a NUL: the number before it is the key,
      and the text after it is copied.  Without a space the key is whatever the new memory held, and
      there is no text. */
  method CutAtSpace(line: array<char>, len: nat) returns (key: int, text: string)
    requires len <= line.Length
    modifies line
    ensures SP in old(line[..len]) ==> ParseLine(old(line[..len])) == Parsed(Entry(key, text))
    ensures SP !in old(line[..len]) ==> line[..len] == old(line[..len]) && text == NO_TEXT
  {
    ghost var l := line[..len];
    key := *;
    text := NO_TEXT;
    var i := 0;
    while i < len
      invariant 0 <= i <= len
      invariant forall j :: 0 <= j < i ==> l[j] != SP
      invariant line[..len] == l
    {
      if line[i] == SP {
        FindIs(l, SP, i);
        line[i] := NUL;
        assert line[..len] == l[..i] + [NUL] + l[i + 1..];
        AtoiCut(l[..i], l[i + 1..]);
        key := Atoi(line[..len]);
        text := CStr(line[i + 1..len]);
        assert line[i + 1..len] == l[i + 1..];
        return;
      }
      i := i + 1;
    }
  }

  /** Insert one received line into the heap, unless its key is negative. */
  method InsertString(line: array<char>, len: nat, root: MinHeap<int, string>) returns (key: int)
    requires len <= line.Length
    requires root.Valid()
    modifies line, root, root.table
    ensures root.Valid() && (root.table == old(root.table) || fresh(root.table))
    ensures SP in old(line[..len]) ==>
      && ParseLine(old(line[..len])).Parsed? && key == ParseLine(old(line[..len])).entry.key
      && multiset(root.Contents()) == old(multiset(root.Contents())) + multiset(Inserts([old(line[..len])]))
    ensures SP !in old(line[..len]) ==>
      && line[..len] == old(line[..len])
      && multiset(root.Contents()) ==
           old(multiset(root.Contents())) + if key >= 0 then multiset{Entry(key, NO_TEXT)} else multiset{}
  {
    hide ParseLine, Bounded, Ordered, Comparator;
    ghost var l := line[..len];
    var text;
    key, text := CutAtSpace(line, len);
    assert [l][..0] == [];
    if key >= 0 {
      root.Insert(key, text);
    }
  }

  /** The value `line_len` takes at the end of the file: -1 as an unsigned int. */
  const EOF_LEN: nat := 0xFFFF_FFFF

  /** A line insert_string can handle. */
  predicate Keyable(l: string) { SP in l && NUL !in l }

  class RwObj {
    var file: string              // what the input file still has to give
    var lineBuf: array<char>
    var lineLen: nat
    var lastLen: nat

    // ----- sending -----

    ghost predicate Sending()
      reads this
    {
      lastLen <= lineLen <= lineBuf.Length && lineLen < EOF_LEN && |file| < EOF_LEN
    }

    ghost function Pending(): Outgoing
      reads this, lineBuf
      requires Sending()
    {
      Outgoing(file, lineBuf[..lineLen], lastLen)
    }

    /** A connection is accepted: nothing is sent yet. */
    constructor (file: string)
      requires |file| < EOF_LEN
      ensures Sending() && Pending() == Outgoing(file, "", 0) && fresh(lineBuf)
    {
      this.file := file;
      lineBuf := new char[0];
      lineLen := 0;
      lastLen := 0;
    }

    /** Finish a short write, or read a line from the file and send it, or send the stop message.
        `accept` is what the socket would take. */
    method ReadAndSend(accept: nat) returns (ret: int, out: string)
      requires Sending()
      modifies this
      ensures var r := SendOnce(old(Pending()), accept);
        && out == r.out
        && (ret == -1 <==> r.stopped)
        && (ret == -1 ==> lineBuf == old(lineBuf))
        && (ret != -1 ==> (lineBuf == old(lineBuf) || fresh(lineBuf)) && Sending() && Pending() == r.next && ret == |r.next.line|)
      // a call takes one line, and only when the one before is out
      ensures old(lastLen < lineLen) ==> ret == old(lineLen) && file == old(file)
      ensures old(lastLen == lineLen) && Lines(old(file)) != [] ==>
        ret == |Lines(old(file))[0]| && file == old(file)[ret..] && out <= Lines(old(file))[0]
    {
      hide Lines, Rest, Find;
      OneLineACall(Pending(), accept);
      if lastLen < lineLen {
        var n := Taken(accept, lineLen - lastLen);
        out := lineBuf[lastLen..lastLen + n];
        lastLen := lastLen + n;
        ret := lineLen;
      } else if file == "" {
        lineLen := EOF_LEN;
        out := STOP[..Taken(accept, |STOP|)];
        ret := -1;
      } else {
        var line := NextLine(file);
        file := file[|line|..];
        lineBuf := new char[|line|](i requires 0 <= i < |line| => line[i]);
        assert lineBuf[..|line|] == line;
        lineLen := |line|;
        var n := Taken(accept, lineLen);
        out := lineBuf[..n];
        lastLen := n;
        ret := lineLen;
      }
    }

    // ----- receiving -----

    ghost predicate Receiving()
      reads this
    {
      lineBuf.Length == RD_BUF_SIZE && lastLen <= RD_BUF_SIZE
    }

    /** The bytes of the unfinished line. */
    ghost function Kept(): string
      reads this, lineBuf
      requires Receiving()
    {
      lineBuf[..lastLen]
    }

    /** The file is sent: get ready to read. */
    method StartReceiving()
      modifies this
      ensures Receiving() && Kept() == "" && fresh(lineBuf)
    {
      lastLen := 0;
      lineLen := 0;
      lineBuf := new char[RD_BUF_SIZE];
    }

    /** Data from the client: `chunk` is what the read put behind the kept bytes. */
    method OnReadable(chunk: string, root: MinHeap<int, string>) returns (endOfStream: bool)
      requires Receiving() && |chunk| <= RD_BUF_SIZE - lastLen
      requires forall k :: 0 <= k < |Lines(Kept() + chunk)| ==> Keyable(Lines(Kept() + chunk)[k])
      requires root.Valid()
      modifies this, lineBuf, root, root.table
      ensures Receiving() && lineBuf == old(lineBuf)
      ensures root.Valid() && (root.table == old(root.table) || fresh(root.table))
      ensures Kept() == Rest(old(Kept()) + chunk)
      ensures multiset(root.Contents()) ==
        old(multiset(root.Contents())) + multiset(Inserts(Lines(old(Kept()) + chunk)))
      ensures endOfStream <==> chunk == ""
    {
      hide Lines, Rest, Inserts, Keyable, MinHeap.Valid, Ordered, Bounded, Comparator;
      Append(chunk);
      ScanLines(root);
      Compact();
      endOfStream := |chunk| == 0;
    }

    /** What the read does: put the chunk behind the kept bytes. */
    method Append(chunk: string)
      requires Receiving() && |chunk| <= RD_BUF_SIZE - lastLen
      modifies this`lastLen, lineBuf
      ensures Receiving() && Kept() == old(Kept()) + chunk
    {
      forall i | 0 <= i < |chunk| {
        lineBuf[lastLen + i] := chunk[i];
      }
      lastLen := lastLen + |chunk|;
    }

    /** Copy the line that ends at j out of the buffer. */
    method CopyLine(j: nat, rdBuf: array<char>) returns (n: nat)
      requires Receiving() && lineLen <= j < lastLen && rdBuf.Length == RD_BUF_SIZE && rdBuf != lineBuf
      modifies rdBuf
      ensures n == j + 1 - lineLen && rdBuf[..n] == lineBuf[lineLen..j + 1]
    {
      n := j - lineLen + 1;
      forall i | 0 <= i < n {
        rdBuf[i] := lineBuf[lineLen + i];
      }
    }

    /** Search the buffer for lines and insert each. */
    method ScanLines(root: MinHeap<int, string>)
      requires Receiving() && root.Valid()
      requires forall k :: 0 <= k < |Lines(Kept())| ==> Keyable(Lines(Kept())[k])
      modifies this`lineLen, root, root.table
      ensures lineLen <= lastLen && Rest(Kept()) == Kept()[lineLen..]
      ensures root.Valid() && (root.table == old(root.table) || fresh(root.table))
      ensures multiset(root.Contents()) == old(multiset(root.Contents())) + multiset(Inserts(Lines(Kept())))
    {
      hide Lines, Rest, Inserts, Ordered, Bounded, Comparator;
      ghost var buf, start := Kept(), multiset(root.Contents());
      var rdBuf := new char[RD_BUF_SIZE];
      lineLen := 0;
      ScanBegins(buf);
      for j := 0 to lastLen
        modifies this`lineLen, root, root.table, rdBuf
        invariant 0 <= lineLen <= j && Kept() == buf
        invariant InScan(buf, lineLen, j)
        invariant root.Valid() && (root.table == old(root.table) || fresh(root.table))
        invariant multiset(root.Contents()) == start + multiset(Inserts(Lines(buf[..lineLen])))
      {
        if lineBuf[j] == LF {
          TakeLine(j, rdBuf, root, buf, start);
        }
      }
      LinesEnd(buf, lineLen);
    }

    /** The line that ends at j is inserted, and the scan goes on behind it. */
    method TakeLine(j: nat, rdBuf: array<char>, root: MinHeap<int, string>, ghost buf: string, ghost start: multiset<Keyed>)
      requires Receiving() && lineLen <= j < lastLen && rdBuf.Length == RD_BUF_SIZE && rdBuf != lineBuf
      requires buf == Kept() && buf[j] == LF && InScan(buf, lineLen, j)
      requires forall k :: 0 <= k < |Lines(buf)| ==> Keyable(Lines(buf)[k])
      requires root.Valid() && multiset(root.Contents()) == start + multiset(Inserts(Lines(buf[..lineLen])))
      modifies this`lineLen, root, root.table, rdBuf
      ensures lineLen == j + 1 && InScan(buf, j + 1, j + 1)
      ensures root.Valid() && (root.table == old(root.table) || fresh(root.table))
      ensures multiset(root.Contents()) == start + multiset(Inserts(Lines(buf[..lineLen])))
    {
      hide Lines, Rest, Inserts, Ordered, Bounded, Comparator, ParseLine, Keyable, Find;
      ghost var l := buf[lineLen..j + 1];
      assert l == lineBuf[lineLen..j + 1];
      NextLineFound(buf, lineLen, j);
      OneMore(start, Lines(buf[..lineLen]), l);
      var n := CopyLine(j, rdBuf);
      var _ := InsertString(rdBuf, n, root);
      lineLen := j + 1;
    }

    /** Move the unfinished line to the front of the buffer, byte by byte. */
    method Compact()
      requires Receiving() && lineLen <= lastLen
      modifies this`lastLen, lineBuf
      ensures Receiving() && Kept() == old(Kept()[lineLen..])
    {
      if lineLen > 0 {
        ghost var buf := lineBuf[..lastLen];
        lastLen := lastLen - lineLen;
        for i := 0 to lastLen
          modifies lineBuf
          invariant forall k :: 0 <= k < i ==> lineBuf[k] == buf[lineLen + k]
          invariant forall k :: lineLen + i <= k < lineLen + lastLen ==> lineBuf[k] == buf[k]
        {
          lineBuf[i] := lineBuf[lineLen + i];
        }
      }
    }
  }

  /** The scan of buf stands at j; the lines found so far end at `from`. */
  ghost predicate InScan(buf: string, from: nat, j: nat) {
    && from <= j <= |buf|
    && Rest(buf[..from]) == ""
    && forall i :: from <= i < j ==> buf[i] != LF
  }

  lemma ScanBegins(buf: string)
    ensures InScan(buf, 0, 0) && Lines(buf[..0]) == [] && Inserts([]) == []
  {
    assert buf[..0] == "";
    NoLineYet("");
  }

  lemma OneMore(start: multiset<Keyed>, ls: seq<string>, l: string)
    ensures start + multiset(Inserts(ls)) + multiset(Inserts([l])) == start + multiset(Inserts(ls + [l]))
  {
    InsertsAppend(ls, [l]);
  }

  lemma SegmentIsLine(buf: string, from: nat, j: nat)
    requires InScan(buf, from, j) && j < |buf| && buf[j] == LF
    ensures IsLine(buf[from..j + 1])
  {
    FindIs(buf[from..j + 1], LF, j - from);
  }

  lemma LinesOneMore(a: string, l: string)
    requires Rest(a) == "" && IsLine(l)
    ensures Lines(a + l) == Lines(a) + [l] && Rest(a + l) == ""
  {
    LinesAppend(a, l);
    LinesOfLine(l, "");
    NoLineYet("");
    assert "" + l == l && l + "" == l;
  }

  /** The scan has found the line feed of the next line of the buffer. */
  lemma NextLineFound(buf: string, from: nat, j: nat)
    requires InScan(buf, from, j) && j < |buf| && buf[j] == LF
    requires forall k :: 0 <= k < |Lines(buf)| ==> Keyable(Lines(buf)[k])
    ensures Lines(buf[..j + 1]) == Lines(buf[..from]) + [buf[from..j + 1]]
    ensures InScan(buf, j + 1, j + 1)
    ensures SP in buf[from..j + 1]
  {
    var l := buf[from..j + 1];
    SegmentIsLine(buf, from, j);
    SliceSplit(buf, from, j + 1);
    LinesOneMore(buf[..from], l);
    LinesAppend(buf[..j + 1], buf[j + 1..]);
    assert Lines(buf)[|Lines(buf[..from])|] == l;
  }

  /** Behind the last line feed there is no further line. */
  lemma LinesEnd(buf: string, from: nat)
    requires InScan(buf, from, |buf|)
    ensures Lines(buf) == Lines(buf[..from]) && Rest(buf) == buf[from..]
  {
    var t := buf[from..];
    SliceSplit(buf, from, from);
    LinesAppend(buf[..from], t);
    assert "" + t == t;
    NoLineYet(t);
    assert Lines(buf[..from]) + [] == Lines(buf[..from]);
  }
}
