/** The client: read keyed lines into a heap until the stop message, then send them back sorted. */
module Client {
  import opened HeapOrder
  import opened HeapPages
  import opened Heap
  import opened Wire
  import opened Framing
  import opened Session

  /** The lines the client reads from a stream before the stop message or the end. */
  function KeyedLines(s: string): seq<Keyed>
    decreases |s|
  {
    var r := ReadKeyed(s);
    if r.Got? && |r.rest| < |s| then [r.entry] + KeyedLines(r.rest) else []
  }

  /** Any number, any one character behind it, and the text up to the next line feed: white space in
      front, empty lines included, is skipped. */
  lemma ReadsNumberAndText(w: string, ds: string, ch: char, t: string)
    requires AllSpaces(w) && AllDigits(ds) && ds != "" && !IsDigit(ch)
    ensures ReadKeyed(w + (ds + ([ch] + t))) ==
      if t == "" then NoText else Got(Entry(DecValue(ds), NextLine(t)), t[|NextLine(t)|..])
  {
    hide ScanInt, SkipSpaces, AllSpaces, AllDigits, DecValue, ReadKeyed;
    assert ([ch] + t)[0] == ch && w + "" == w;
    ScanIntReads(w, "", ds, [ch] + t);
    NumberBehindSpaces(w, "", ds, [ch] + t);
    BehindNumber(w + ds, ch, t);
    PlusAssociates(w, ds, [ch] + t);
    TextBehindNumber(w + (ds + ([ch] + t)), t);
  }

  lemma NumberBehindSpaces(w: string, sign: string, ds: string, t: string)
    requires AllSpaces(w) && IsSign(sign) && AllDigits(ds) && ds != ""
    ensures SkipSpaces(w + sign + (ds + t), 0) < |w + sign + (ds + t)|
  {
    hide SkipSpaces, AllSpaces, AllDigits;
    DigitsAreUnsigned(ds, t);
    BehindSpaces(w, sign, ds + t);
  }

  lemma BehindNumber(head: string, ch: char, t: string)
    ensures (head + ([ch] + t))[|head| + 1..] == t && |head + ([ch] + t)| == |head| + 1 + |t|
  {}

  /** What is read once the number is there. */
  lemma TextBehindNumber(s: string, t: string)
    requires SkipSpaces(s, 0) < |s|
    requires var r := ScanInt(s); r.matched && r.value >= 0 && r.next < |s| && s[r.next + 1..] == t
    ensures ReadKeyed(s) ==
      if t == "" then NoText else Got(Entry(ScanInt(s).value, NextLine(t)), t[|NextLine(t)|..])
  {
    hide ScanInt, SkipSpaces, Find, FindFrom;
  }

  /** A negative number stops the client, whatever follows it. */
  lemma ReadsNegativeAsStop(w: string, ds: string, t: string)
    requires AllSpaces(w) && AllDigits(ds) && ds != "" && (t != "" ==> !IsDigit(t[0])) && DecValue(ds) > 0
    ensures ReadKeyed(w + "-" + (ds + t)) == StopRead
  {
    hide ScanInt, SkipSpaces, DecValue, AllSpaces, AllDigits, Find;
    ScanIntReads(w, "-", ds, t);
    NumberBehindSpaces(w, "-", ds, t);
  }

  /** Every number the client looks for is there. */
  predicate NothingGarbled(s: string)
    decreases |s|
  {
    var r := ReadKeyed(s);
    !r.Garbled? && (r.Got? && |r.rest| < |s| ==> NothingGarbled(r.rest))
  }

  lemma GotConsumes(s: string)
    ensures ReadKeyed(s).Got? ==> |ReadKeyed(s).rest| < |s|
  {}

  /** The socket, opened as a stream for reading. */
  class Stream {
    var data: string  // what is still to be read

    constructor (data: string)
      ensures this.data == data
    {
      this.data := data;
    }

    /** fscanf "%d": -1 at the end of the input, 0 if there is no number; white space and a sign
        are consumed nevertheless. */
    method ScanNumber() returns (ret: int, value: int)
      modifies this
      ensures ret == -1 <==> SkipSpaces(old(data), 0) == |old(data)|
      ensures ret == 1 <==> SkipSpaces(old(data), 0) < |old(data)| && ScanInt(old(data)).matched
      ensures ret == 0 <==> SkipSpaces(old(data), 0) < |old(data)| && !ScanInt(old(data)).matched
      ensures ret == 1 ==> value == ScanInt(old(data)).value
      ensures ret >= 0 ==> data == old(data)[ScanInt(old(data)).next..]
    {
      var i := SkipSpaces(data, 0);
      var r := ScanInt(data);
      value := r.value;
      if i == |data| {
        ret := -1;
      } else if !r.matched {
        ret := 0;
        data := data[r.next..];
      } else {
        ret := 1;
        data := data[r.next..];
      }
    }

    /** fgetc: -1 at the end of the input. */
    method GetChar() returns (ret: int)
      modifies this
      ensures if old(data) == "" then ret == -1 else ret >= 0 && data == old(data)[1..]
    {
      if data == "" {
        return -1;
      }
      ret := data[0] as int;
      data := data[1..];
    }

    /** getline: -1 at the end of the input; the buffer's capacity exceeds the line's length. */
    method GetLine() returns (ret: int, line: string, capacity: nat)
      modifies this
      ensures ret == -1 <==> old(data) == ""
      ensures ret != -1 ==> ret == |line| && line == NextLine(old(data)) && data == old(data)[|line|..]
      ensures capacity > |line|
    {
      if data == "" {
        return -1, "", 1;
      }
      line := NextLine(data);
      data := data[|line|..];
      ret := |line|;
      capacity :| capacity > |line|;
    }
  }

  /** Read the next keyed line; a negative result says why there is none.  If there is no number,
      the key is whatever the new memory held. */
  method ReadKeyedLine(stream: Stream) returns (ret: int, key: int, line: string)
    modifies stream
    ensures var s := old(stream.data);
      match ReadKeyed(s) {
        case EndOfInput => ret == -2
        case StopRead => ret == -1
        case NoText => ret == if ScanInt(s).next == |s| then -3 else -4
        case Got(e, rest) => ret > |e.value| && Entry(key, line) == e && stream.data == rest
        case Garbled =>
          if key < 0 then ret == -1
          else if |s| == ScanInt(s).next then ret == -3
          else if |s| == ScanInt(s).next + 1 then ret == -4
          else
            && line == NextLine(s[ScanInt(s).next + 1..]) && ret > |line|
            && stream.data == s[ScanInt(s).next + 1..][|line|..]
      }
  {
    hide SkipSpaces, ScanInt, Find, FindFrom;
    line := "";
    key := *;
    ghost var s := stream.data;
    var n, value := stream.ScanNumber();
    if n < 0 {
      return -2, key, line;
    }
    if n == 1 {
      key := value;
    }
    if key < 0 {
      return -1, key, line;
    }
    var ch := stream.GetChar();
    if ch < 0 {
      return -3, key, line;
    }
    assert stream.data == s[ScanInt(s).next + 1..];
    n, line, ret := stream.GetLine();
    if n < 0 {
      return -4, key, line;
    }
    assert |line| == |s[ScanInt(s).next + 1..]| ==> stream.data == "";
  }

  /** Read one line and insert it; e is what was inserted. */
  method ReadAndInsert(stream: Stream, root: MinHeap<int, string>) returns (ret: int, ghost e: Keyed)
    requires root.Valid()
    modifies stream, root, root.table
    ensures root.Valid() && (root.table == old(root.table) || fresh(root.table))
    ensures ret < 0 ==> multiset(root.Contents()) == old(multiset(root.Contents()))
    ensures ret >= 0 ==>
      && multiset(root.Contents()) == old(multiset(root.Contents())) + multiset{e}
      && e.key >= 0 && |e.value| < ret && |stream.data| < |old(stream.data)|
    ensures var r := ReadKeyed(old(stream.data));
      && (r.Got? ==> ret >= 0 && e == r.entry && stream.data == r.rest)
      && (ret >= 0 ==> r.Got? || r.Garbled?)
  {
    hide Bounded, Ordered, Comparator;
    GotConsumes(stream.data);
    var key, line;
    ret, key, line := ReadKeyedLine(stream);
    e := Entry(key, line);
    if ret >= 0 {
      hide ReadKeyed, NextLine, ScanInt;
      root.Insert(key, line);
    }
  }

  /** With `here` in the heap and s on the stream, the heap will end up with `all`. */
  ghost predicate Expects(s: string, here: multiset<Keyed>, all: multiset<Keyed>) {
    NothingGarbled(s) && here + multiset(KeyedLines(s)) == all
  }

  /** A line read goes from the stream to the heap. */
  lemma ExpectsOne(s: string, here: multiset<Keyed>, all: multiset<Keyed>)
    requires Expects(s, here, all)
    ensures !ReadKeyed(s).Garbled?
    ensures ReadKeyed(s).Got? ==> Expects(ReadKeyed(s).rest, here + multiset{ReadKeyed(s).entry}, all)
    ensures !ReadKeyed(s).Got? ==> here == all
  {
    GotConsumes(s);
    hide ReadKeyed;
  }

  /** Read lines until there are no more; the result is the largest buffer that was needed.  If no
      number is missing, the heap holds exactly the lines before the stop message. */
  method ReceiveLines(stream: Stream, root: MinHeap<int, string>) returns (maxLen: nat)
    requires root.Valid() && root.Contents() == []
    modifies stream, root, root.table
    ensures root.Valid() && (root.table == old(root.table) || fresh(root.table))
    ensures NothingGarbled(old(stream.data)) ==>
      multiset(root.Contents()) == multiset(KeyedLines(old(stream.data)))
    ensures Covers(multiset(root.Contents()), maxLen)
    ensures forall e :: e in multiset(root.Contents()) ==> e.key >= 0
  {
    maxLen := 0;
    ghost var good, all := NothingGarbled(stream.data), multiset(KeyedLines(stream.data));
    while true
      invariant root.Valid() && (root.table == old(root.table) || fresh(root.table))
      invariant good ==> Expects(stream.data, multiset(root.Contents()), all)
      invariant Covers(multiset(root.Contents()), maxLen)
      invariant forall e :: e in multiset(root.Contents()) ==> e.key >= 0
      decreases |stream.data|
    {
      hide Bounded, Ordered, Comparator, ReadKeyed, Expects, NothingGarbled, KeyedLines;
      if good {
        ExpectsOne(stream.data, multiset(root.Contents()), all);
      }
      var len, _ := ReadAndInsert(stream, root);
      if len < 0 {
        break;
      }
      if len > maxLen {
        maxLen := len;
      }
    }
  }

  /** sprintf "%d ", then strcpy: the buffer holds the line and its terminating NUL. */
  method PrepareLine(buf: array<char>, key: int, value: string) returns (n: nat)
    requires key >= 0 && |Encode(Entry(key, value))| < buf.Length
    modifies buf
    ensures n == |Encode(Entry(key, value))| && buf[..n] == Encode(Entry(key, value)) && buf[n] == NUL
  {
    var head, text := Digits(key) + [SP], CStr(value);
    forall i | 0 <= i < |head| {
      buf[i] := head[i];
    }
    var pos := |head|;
    forall i | 0 <= i < |text| {
      buf[pos + i] := text[i];
    }
    n := pos + |text|;
    buf[n] := NUL;
    assert buf[..n] == head + text;
  }

  /** Write the first n bytes of the buffer, as often as the socket takes only part of them. */
  method WriteAll(buf: array<char>, n: nat) returns (out: string)
    requires n <= buf.Length
    ensures out == buf[..n]
  {
    out := "";
    var pos := 0;
    while pos < n
      invariant 0 <= pos <= n && out == buf[..pos]
    {
      var k :| 1 <= k <= n - pos;
      out := out + buf[pos..pos + k];
      pos := pos + k;
    }
  }

  /** What is sent so far: the least entries in order, with `here` still in the heap. */
  ghost predicate SentSoFar(sent: string, order: seq<Keyed>, here: multiset<Keyed>, all: multiset<Keyed>) {
    && all == multiset(order) + here
    && Ascending(order, Identity()) && AllBelow(order, here, Identity())
    && (forall k :: 0 <= k < |order| ==> order[k].key >= 0)
    && sent == EncodeAll(order)
  }

  lemma SentNothing(order: seq<Keyed>, all: multiset<Keyed>)
    requires order == []
    ensures SentSoFar("", order, all, all)
  {
    AscendingStart(all, Identity());
  }

  lemma SentOne(sent: string, order: seq<Keyed>, here: multiset<Keyed>, rest: multiset<Keyed>, all: multiset<Keyed>, e: Keyed)
    requires SentSoFar(sent, order, here, all) && TookLeast(here, rest, e, Identity()) && e.key >= 0
    ensures SentSoFar(sent + Encode(e), order + [e], rest, all)
  {
    hide Ascending, AllBelow, Encode, EncodeAll, Identity;
    AscendingStep(order, here, rest, e, Identity());
    EncodeOneMore(order, e);
  }

  /** Send the heap's lines back: in ascending key order, each line whole, none missing. */
  method SendBack(root: MinHeap<int, string>, maxLen: nat) returns (sent: string, ghost order: seq<Keyed>)
    requires root.Valid() && root.rank == Identity() && Sendable(multiset(root.Contents()), maxLen)
    modifies root, root.table
    ensures root.Valid() && root.Contents() == []
    ensures multiset(order) == old(multiset(root.Contents())) && Ascending(order, Identity())
    ensures forall k :: 0 <= k < |order| ==> order[k].key >= 0
    ensures sent == EncodeAll(order)
  {
    sent, order := "", [];
    ghost var all := multiset(root.Contents());
    SentNothing(order, all);
    var buf := new char[MAX_INT_STRING_LEN + maxLen + 1];
    while true
      invariant root.Valid() && root.rank == Identity() && (root.table == old(root.table) || fresh(root.table))
      invariant SentSoFar(sent, order, multiset(root.Contents()), all)
      invariant Sendable(multiset(root.Contents()), maxLen)
      decreases root.activeEntries
    {
      hide Bounded, Ordered, Comparator, TookLeast, Encode, Fits, Sendable, SentSoFar;
      ghost var here := multiset(root.Contents());
      var ok, out;
      ghost var e;
      ok, out, e := SendLeast(root, buf, maxLen);
      if !ok {
        break;
      }
      SentOne(sent, order, here, multiset(root.Contents()), all, e);
      SendableRest(here, multiset(root.Contents()), e, maxLen);
      sent := sent + out;
      order := order + [e];
    }
  }

  lemma SendableRest(here: multiset<Keyed>, rest: multiset<Keyed>, e: Keyed, maxLen: nat)
    requires Sendable(here, maxLen) && TookLeast(here, rest, e, Identity())
    ensures Sendable(rest, maxLen)
  {
    hide Fits;
    forall x | x in rest ensures x in here {
      assert here == rest + multiset{e};
    }
  }

  lemma EncodeOneMore(es: seq<Keyed>, e: Keyed)
    requires e.key >= 0 && forall k :: 0 <= k < |es| ==> es[k].key >= 0
    ensures EncodeAll(es + [e]) == EncodeAll(es) + Encode(e)
  {
    assert (es + [e])[..|es|] == es;
  }

  /** Take the least line out of the heap and send it. */
  method SendLeast(root: MinHeap<int, string>, buf: array<char>, maxLen: nat)
    returns (ok: bool, out: string, ghost e: Keyed)
    requires root.Valid() && root.rank == Identity() && Sendable(multiset(root.Contents()), maxLen)
    requires buf.Length == MAX_INT_STRING_LEN + maxLen + 1
    modifies root, root.table, buf
    ensures root.Valid() && (root.table == old(root.table) || fresh(root.table))
    ensures !ok ==> root.Contents() == old(root.Contents()) == []
    ensures ok ==>
      && root.activeEntries < old(root.activeEntries)
      && TookLeast(old(multiset(root.Contents())), multiset(root.Contents()), e, Identity())
      && e.key >= 0 && out == Encode(e)
  {
    hide Bounded, Ordered, Comparator, Encode;
    var key, value;
    ok, key, value := root.DeleteMin();
    out, e := "", Entry(key, value);
    if ok {
      out := SendLine(buf, key, value);
    }
  }

  /** Send one line through the buffer. */
  method SendLine(buf: array<char>, key: int, value: string) returns (out: string)
    requires key >= 0 && |Encode(Entry(key, value))| < buf.Length
    modifies buf
    ensures out == Encode(Entry(key, value))
  {
    var n := PrepareLine(buf, key, value);
    out := WriteAll(buf, n);
  }

  /** What is sent encodes exactly these entries, in ascending key order. */
  ghost predicate SendsSorted(sent: string, entries: multiset<Keyed>) {
    exists order: seq<Keyed> ::
      && multiset(order) == entries && Ascending(order, Identity())
      && (forall k :: 0 <= k < |order| ==> order[k].key >= 0)
      && sent == EncodeAll(order)
  }

  /** The client's life: what it sends is a sorted permutation of what it read. */
  method SortLines(input: string, entriesPerPage: nat) returns (sent: string)
    requires 1 <= entriesPerPage && NothingGarbled(input)
    requires BufferSuffices(multiset(KeyedLines(input)))
    ensures SendsSorted(sent, multiset(KeyedLines(input)))
  {
    CmpNodeCompares();
    var stream := new Stream(input);
    var root := new MinHeap<int, string>(0, entriesPerPage, CmpNode, Identity());
    var maxLen := ReceiveLines(stream, root);
    BufferSufficesIff(multiset(root.Contents()));
    ghost var order;
    sent, order := SendBack(root, maxLen);
  }
}
