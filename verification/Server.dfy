/** The server's event loop, which updates the connections' objects and the heap in place, and the
    final output. */
module Server {
  import opened Sums
  import opened HeapOrder
  import opened HeapPages
  import opened Heap
  import opened Wire
  import opened Framing
  import opened Session
  import opened Sorter
  import opened SorterResults

  /** The events a connection is registered for. */
  datatype Interest = Output | InputOrHangup | HangupOnly | Removed

  class EventLoop {
    const inputs: seq<string>     // what the input files hold
    const heap: MinHeap<int, string>
    var rwObjs: seq<RwObj>
    var interest: seq<Interest>
    var connectionsSize: nat
    var connectionsLimit: int

    ghost function Buffers(): set<object>
      reads this, rwObjs
    {
      set o | o in rwObjs :: o.lineBuf
    }

    /** No two connections share an object or a buffer. */
    ghost predicate Apart()
      reads this, rwObjs
    {
      forall a, b :: 0 <= a < b < |rwObjs| ==> rwObjs[a] != rwObjs[b] && rwObjs[a].lineBuf != rwObjs[b].lineBuf
    }

    ghost predicate Ready(c: nat)
      reads this, rwObjs
      requires c < |rwObjs| == |interest|
    {
      match interest[c]
      case Output => rwObjs[c].Sending()
      case InputOrHangup => rwObjs[c].Receiving()
      case _ => true
    }

    ghost function SideOf(c: nat): Side
      reads this, rwObjs, Buffers()
      requires c < |rwObjs| == |interest| && Ready(c)
    {
      match interest[c]
      case Output => Side.Sending(rwObjs[c].Pending())
      case InputOrHangup => Side.Receiving(rwObjs[c].Kept())
      case HangupOnly => Hanging
      case Removed => Closed
    }

    ghost predicate Valid()
      reads this, rwObjs, heap, heap.table
    {
      && connectionsSize == |rwObjs| == |interest| <= |inputs|
      && Apart()
      && (forall c {:trigger Ready(c)} {:trigger interest[c]} :: 0 <= c < |rwObjs| ==> Ready(c))
      && (forall c :: 0 <= c < |inputs| ==> |inputs[c]| < EOF_LEN)
      && heap.Valid() && heap.rank == Identity()
    }

    /** The event loop stands where the transition system s stands. */
    ghost predicate Shows(s: System)
      reads this, rwObjs, Buffers(), heap, heap.table
    {
      && Valid()
      && |s.links| == |inputs| && s.accepted == connectionsSize && s.limit == connectionsLimit
      && s.heap == multiset(heap.Contents())
      && (forall c :: 0 <= c < |rwObjs| ==> s.links[c].server == SideOf(c))
      && (forall c :: |rwObjs| <= c < |inputs| ==> s.links[c].server == Waiting)
    }

    constructor (inputs: seq<string>, entriesPerPage: nat)
      requires 1 <= entriesPerPage
      requires forall c :: 0 <= c < |inputs| ==> |inputs[c]| < EOF_LEN
      ensures this.inputs == inputs && rwObjs == []
      ensures fresh(heap) && fresh(heap.table)
      ensures Shows(Init(inputs))
    {
      CmpNodeCompares();
      this.inputs := inputs;
      heap := new MinHeap<int, string>(0, entriesPerPage, CmpNode, Identity());
      rwObjs, interest := [], [];
      connectionsSize, connectionsLimit := 0, |inputs|;
    }

    /** The other connections are as they were. */
    twostate predicate OthersKept(n: nat, c: nat)
      requires old(n <= |rwObjs| == |interest|) && n <= |rwObjs| == |interest|
      requires forall k :: 0 <= k < n && k != c ==> old(Ready(k)) && Ready(k)
      reads this, rwObjs, Buffers()
    {
      forall k :: 0 <= k < n && k != c ==> SideOf(k) == old(SideOf(k))
    }

    /** A new connection: it gets the next input file. */
    method OnConnection()
      requires Valid() && connectionsSize < |inputs|
      modifies this`rwObjs, this`interest, this`connectionsSize
      ensures Valid() && connectionsSize == old(connectionsSize) + 1
      ensures SideOf(old(connectionsSize)) == Side.Sending(Outgoing(inputs[old(connectionsSize)], "", 0))
      ensures OthersKept(old(connectionsSize), old(connectionsSize))
      ensures rwObjs[..old(|rwObjs|)] == old(rwObjs)
      ensures fresh(rwObjs[old(|rwObjs|)]) && fresh(rwObjs[old(|rwObjs|)].lineBuf)
    {
      hide Ordered, Comparator, Bounded, MinHeap.Valid;
      var rwObj := new RwObj(inputs[connectionsSize]);
      rwObjs := rwObjs + [rwObj];
      interest := interest + [Output];
      connectionsSize := connectionsSize + 1;
    }

    /** Output is possible on connection c; `accept` is what the socket would take. */
    method OnOutputReady(c: nat, accept: nat) returns (out: string)
      requires Valid() && c < |rwObjs| && interest[c] == Output
      modifies this`interest, rwObjs[c]
      ensures Valid()
      ensures var r := SendOnce(old(rwObjs[c].Pending()), accept);
        out == r.out && SideOf(c) == if r.stopped then Side.Receiving("") else Side.Sending(r.next)
      ensures OthersKept(|rwObjs|, c)
      ensures rwObjs[c].lineBuf == old(rwObjs[c].lineBuf) || fresh(rwObjs[c].lineBuf)
    {
      hide Ordered, Comparator, Bounded, MinHeap.Valid, SendOnce;
      var ret;
      ret, out := rwObjs[c].ReadAndSend(accept);
      if ret == -1 {
        rwObjs[c].StartReceiving();
        interest := interest[c := InputOrHangup];
      }
      Untouched(c);
    }

    /** Data or the end of the stream on connection c. */
    method OnInputReady(c: nat, chunk: string)
      requires Valid() && c < |rwObjs| && interest[c] == InputOrHangup
      requires |rwObjs[c].Kept()| + |chunk| <= RD_BUF_SIZE
      requires forall k :: 0 <= k < |Lines(rwObjs[c].Kept() + chunk)| ==> Keyable(Lines(rwObjs[c].Kept() + chunk)[k])
      modifies this`interest, rwObjs[c], rwObjs[c].lineBuf, heap, heap.table
      ensures Valid()
      ensures SideOf(c) == if chunk == "" then Hanging else Side.Receiving(Rest(old(rwObjs[c].Kept()) + chunk))
      ensures OthersKept(|rwObjs|, c)
      ensures multiset(heap.Contents()) ==
        old(multiset(heap.Contents())) + multiset(Inserts(Lines(old(rwObjs[c].Kept()) + chunk)))
      ensures rwObjs[c].lineBuf == old(rwObjs[c].lineBuf)
      ensures heap.table == old(heap.table) || fresh(heap.table)
    {
      hide Lines, Rest, Inserts, MinHeap.Valid, Comparator, Ordered, Bounded, Keyable;
      var endOfStream := rwObjs[c].OnReadable(chunk, heap);
      if endOfStream {
        interest := interest[c := HangupOnly];
      }
      Untouched(c);
    }

    /** A connection whose object and buffer are unchanged is as it was. */
    twostate lemma Untouched(c: nat)
      requires old(Valid()) && rwObjs == old(rwObjs) && |interest| == old(|interest|)
      requires forall k :: 0 <= k < |rwObjs| && k != c ==>
        interest[k] == old(interest[k]) && unchanged(rwObjs[k]) && unchanged(old(rwObjs[k].lineBuf))
      ensures forall k :: 0 <= k < |rwObjs| && k != c ==> Ready(k) && SideOf(k) == old(SideOf(k))
    {
      hide MinHeap.Valid;
    }

    /** The peer of connection c is gone. */
    method OnHangup(c: nat)
      requires Valid() && c < |rwObjs| && interest[c] == HangupOnly
      modifies this`interest, this`connectionsLimit
      ensures Valid() && SideOf(c) == Closed && OthersKept(|rwObjs|, c)
      ensures connectionsLimit == old(connectionsLimit) - 1
    {
      hide Ordered, Comparator, Bounded, MinHeap.Valid;
      interest := interest[c := Removed];
      connectionsLimit := connectionsLimit - 1;
    }

    // ----- one event of the transition system -----

    /** Everything the event loop reaches is as old as it was, or new. */
    twostate predicate OnlyNew()
      reads this, rwObjs, heap
    {
      && (forall o :: o in rwObjs ==> o in old(rwObjs) || fresh(o))
      && (forall o :: o in Buffers() ==> o in old(Buffers()) || fresh(o))
      && (heap.table == old(heap.table) || fresh(heap.table))
    }

    method HandleConnection(ghost s: System)
      requires Shows(s) && Enabled(inputs, s, Accept)
      modifies this`rwObjs, this`interest, this`connectionsSize
      ensures Shows(Step(inputs, s, Accept)) && OnlyNew()
    {
      hide Ordered, Comparator, Bounded, MinHeap.Valid;
      OnConnection();
    }

    method HandleOutput(c: nat, accept: nat, ghost s: System) returns (out: string)
      requires Shows(s) && Enabled(inputs, s, At(c, Send(accept)))
      requires c < |rwObjs|
      modifies this`interest, rwObjs[c]
      ensures Shows(Step(inputs, s, At(c, Send(accept)))) && OnlyNew()
      ensures s.links[c].down + out == Step(inputs, s, At(c, Send(accept))).links[c].down
    {
      hide Ordered, Comparator, Bounded, MinHeap.Valid, SendOnce;
      out := OnOutputReady(c, accept);
    }

    method HandleInput(c: nat, chunk: string, ghost s: System)
      requires Shows(s) && Enabled(inputs, s, At(c, Recv(|chunk|))) && chunk == s.links[c].up[..|chunk|]
      requires c < |rwObjs| && UpInv(s.links[c])
      modifies this`interest, rwObjs[c], rwObjs[c].lineBuf, heap, heap.table
      ensures Shows(Step(inputs, s, At(c, Recv(|chunk|)))) && OnlyNew()
    {
      hide Lines, Rest, Inserts, MinHeap.Valid, Comparator, Ordered, Bounded, Keyable, UpInv, EncodeAll;
      ArrivalsAreKeyable(s.links[c], |chunk|);
      OnInputReady(c, chunk);
    }

    method HandleHangup(c: nat, ghost s: System)
      requires Shows(s) && Enabled(inputs, s, At(c, Hangup))
      requires c < |rwObjs|
      modifies this`interest, this`connectionsLimit
      ensures Shows(Step(inputs, s, At(c, Hangup))) && OnlyNew()
    {
      hide Ordered, Comparator, Bounded, MinHeap.Valid;
      OnHangup(c);
    }

    /** What the clients do leaves the server as it is. */
    lemma ClientsOnly(s: System, c: nat, ev: LinkEvent)
      requires Shows(s) && Enabled(inputs, s, At(c, ev))
      requires !ev.Send? && !ev.Recv? && !ev.Hangup?
      ensures Shows(Step(inputs, s, At(c, ev)))
    {
      hide Ordered, Comparator, Bounded, MinHeap.Valid, Encode, ReadKeyed;
    }

    /** One event, as the loop dispatches it; what a read delivers is `chunk`, and `out` is what is
        written to the connection. */
    method Handle(ev: Event, chunk: string, ghost s: System) returns (out: string)
      requires Shows(s) && LinksInv(inputs, s) && Enabled(inputs, s, ev) && !ev.Drain?
      requires Brings(s, ev, chunk)
      modifies this, rwObjs, Buffers(), heap, heap.table
      ensures Shows(Step(inputs, s, ev)) && OnlyNew()
      ensures Emits(inputs, s, ev, out)
    {
      hide Ordered, Comparator, Bounded, MinHeap.Valid, LinkEnabled, LinkStep, DownInv, HeapInv, UpInv;
      out := "";
      match ev {
        case Accept => HandleConnection(s);
        case At(c, le) =>
          assert LinkInv(inputs[c], s.links[c]);
          LinkFacts(inputs[c], s.links[c], le);
          match le {
            case Send(accept) => out := HandleOutput(c, accept, s);
            case Recv(k) => assert k == |chunk| by { ReadsWhatIsThere(s.links[c], k); } HandleInput(c, chunk, s);
            case Hangup => HandleHangup(c, s);
            case _ => ClientsOnly(s, c, le);
          }
      }
    }
  }

  lemma {:induction false} EncodingsKeyable(es: seq<Keyed>)
    requires Posted(es)
    ensures forall k :: 0 <= k < |Encodings(es)| ==> Keyable(Encodings(es)[k])
  {
    if es != [] {
      var init, e := es[..|es|-1], es[|es|-1];
      EncodingsKeyable(init);
      EncodeIsLine(e);
      assert Encode(e)[|Digits(e.key)|] == SP;
    }
  }

  /** Whatever a read delivers, its complete lines can be inserted. */
  lemma ArrivalsAreKeyable(l: Link, k: nat)
    requires UpInv(l) && l.server.Receiving? && k <= |l.up|
    ensures forall i :: 0 <= i < |Lines(l.server.kept + l.up[..k])| ==> Keyable(Lines(l.server.kept + l.up[..k])[i])
  {
    hide Lines, Rest, Encode, EncodeAll, Keyable, Encodings;
    var a, b := l.up[..k], l.up[k..] + if l.peer.Writing? then l.peer.out else "";
    var all := EncodeAll(l.popped);
    EncodedLines(l.popped);
    EncodingsKeyable(l.popped);
    assert l.up == a + l.up[k..];
    Shift(l.received, a, l.up[k..], if l.peer.Writing? then l.peer.out else "");
    LinesAppend(l.received, a);
    LinesAppend(l.received + a, b);
    var here := Lines(l.server.kept + a);
    forall i | 0 <= i < |here| ensures Keyable(here[i]) {
      assert here[i] == Lines(all)[|Lines(l.received)| + i];
    }
  }

  lemma ReadsWhatIsThere(l: Link, k: nat)
    requires LinkEnabled(l, Recv(k))
    ensures k <= |l.up|
  {}

  /** What is written is what the step adds to the connection's stream. */
  ghost predicate Emits(files: seq<string>, s: System, ev: Event, out: string)
    requires Enabled(files, s, ev)
  {
    match ev
    case At(c, Send(_)) => s.links[c].down + out == Step(files, s, ev).links[c].down
    case _ => out == ""
  }

  /** What has been written to a connection, at every stage of it. */
  ghost predicate Wrote(file: string, side: Side, written: string) {
    match side
    case Waiting => written == ""
    case Sending(o) => ValidOutgoing(o) && written + Unsent(o) == file
    case _ => written == file + STOP
  }

  ghost predicate WroteAll(files: seq<string>, links: seq<Link>, written: seq<string>) {
    && |written| == |links| == |files|
    && forall c :: 0 <= c < |files| ==> Wrote(files[c], links[c].server, written[c])
  }

  lemma SameSuffix(a: string, b: string, c: string)
    requires a + b == a + c
    ensures b == c
  {
    assert b == (a + b)[|a|..] && c == (a + c)[|a|..];
  }

  lemma SendWrote(file: string, l: Link, accept: nat, written: string, out: string)
    requires LinkEnabled(l, Send(accept)) && Wrote(file, l.server, written)
    requires l.down + out == LinkStep(l, Send(accept)).down
    ensures Wrote(file, LinkStep(l, Send(accept)).server, written + out)
  {
    hide SendOnce, Unsent;
    var o, r := l.server.o, SendOnce(l.server.o, accept);
    SameSuffix(l.down, out, r.out);
    SendOnceConserves(o, accept);
    if r.stopped {
      assert written + "" == written;
    } else {
      PlusAssociates(written, r.out, Unsent(r.next));
    }
  }

  lemma OthersWrote(file: string, l: Link, ev: LinkEvent, written: string)
    requires LinkEnabled(l, ev) && !ev.Send? && Wrote(file, l.server, written)
    ensures Wrote(file, LinkStep(l, ev).server, written)
  {
    hide Unsent, Lines, Rest, Inserts, ReadKeyed, Encode, Find;
  }

  /** The connection an event writes to. */
  function Target(s: System, ev: Event): nat {
    match ev
    case At(c, _) => c
    case _ => s.accepted
  }

  lemma WroteStep(files: seq<string>, s: System, ev: Event, written: seq<string>, out: string)
    requires Enabled(files, s, ev) && LinksInv(files, s) && !ev.Drain?
    requires WroteAll(files, s.links, written) && Emits(files, s, ev, out)
    ensures Target(s, ev) < |written|
    ensures var c := Target(s, ev); WroteAll(files, Step(files, s, ev).links, written[c := written[c] + out])
  {
    hide LinkEnabled, LinkStep, LinkInv, Wrote;
    var c := Target(s, ev);
    assert Wrote(files[c], s.links[c].server, written[c]);
    assert written[c] + "" == written[c];
    match ev {
      case Accept => AcceptWrote(files[c], s.links[c], written[c]);
      case At(_, Send(accept)) => SendWrote(files[c], s.links[c], accept, written[c], out);
      case At(_, le) => OthersWrote(files[c], s.links[c], le, written[c]);
    }
  }

  lemma AcceptWrote(file: string, l: Link, written: string)
    requires l.server.Waiting? && Wrote(file, l.server, written)
    ensures Wrote(file, Side.Sending(Outgoing(file, "", 0)), written)
  {
    assert "" + file == file;
  }

  /** What a read delivers is what is next on the stream. */
  ghost predicate Brings(s: System, ev: Event, chunk: string) {
    match ev
    case At(c, Recv(k)) => c < |s.links| && k <= |s.links[c].up| && chunk == s.links[c].up[..k]
    case _ => true
  }

  /** The final loop: pop the top of the heap and print it until nothing is left. */
  method PrintAll(heap: MinHeap<int, string>) returns (output: string, ghost order: seq<Keyed>)
    requires heap.Valid() && heap.rank == Identity()
    modifies heap, heap.table
    ensures heap.Valid() && heap.Contents() == []
    ensures output == Texts(order) && Ascending(order, Identity())
    ensures multiset(order) == old(multiset(heap.Contents()))
  {
    hide Bounded, Ordered, Comparator, TookLeast, CStr, PrintedSoFar, After, HeapOrder.Removed;
    output, order := "", [];
    ghost var all := multiset(heap.Contents());
    PrintNothing(order, all);
    ghost var here := all;
    var ok, key, value := heap.DeleteMin();
    while ok
      invariant heap.Valid() && heap.rank == Identity() && (heap.table == old(heap.table) || fresh(heap.table))
      invariant PrintedSoFar(output, order, here, all)
      invariant if ok then TookLeast(here, multiset(heap.Contents()), Entry(key, value), Identity())
                else here == multiset{} && heap.Contents() == []
      decreases heap.activeEntries, ok
    {
      PrintOne(output, order, here, multiset(heap.Contents()), all, Entry(key, value));
      output := output + CStr(value);
      order := order + [Entry(key, value)];
      here := multiset(heap.Contents());
      ok, key, value := heap.DeleteMin();
    }
    PrintedAll(output, order, here, all);
  }

  ghost predicate BringsAll(files: seq<string>, evs: seq<Event>, chunks: seq<string>)
    requires Possible(files, evs)
  {
    |chunks| == |evs| &&
    (evs == [] ||
     (BringsAll(files, evs[..|evs|-1], chunks[..|evs|-1]) &&
      Brings(Reached(files, evs[..|evs|-1]), evs[|evs|-1], chunks[|evs|-1])))
  }

  lemma {:induction false} PrefixPossible(files: seq<string>, evs: seq<Event>, chunks: seq<string>, n: nat)
    requires Possible(files, evs) && BringsAll(files, evs, chunks) && n < |evs|
    ensures Possible(files, evs[..n]) && Possible(files, evs[..n + 1])
    ensures BringsAll(files, evs[..n], chunks[..n])
    ensures Enabled(files, Reached(files, evs[..n]), evs[n])
    ensures Reached(files, evs[..n + 1]) == Step(files, Reached(files, evs[..n]), evs[n])
    ensures Brings(Reached(files, evs[..n]), evs[n], chunks[n])
  {
    hide Enabled, Step, Brings;
    var k := |evs| - 1;
    if n < k {
      PrefixPossible(files, evs[..k], chunks[..k], n);
      assert evs[..k][..n] == evs[..n] && evs[..k][..n + 1] == evs[..n + 1] && chunks[..k][..n] == chunks[..n];
    } else {
      assert evs[..n + 1] == evs;
    }
  }

  /** The output is the texts of exactly these entries, in ascending key order. */
  ghost predicate PrintsSorted(output: string, entries: multiset<Keyed>) {
    exists order: seq<Keyed> :: multiset(order) == entries && Ascending(order, Identity()) && output == Texts(order)
  }

  /** The server's life: whatever the order of events and however the streams are cut, it writes to
      each connection exactly its input file and the stop message, and prints the texts of all input
      lines, as a permutation, in ascending key order. */
  method SortFiles(files: seq<string>, entriesPerPage: nat, evs: seq<Event>, chunks: seq<string>)
    returns (output: string, written: seq<string>)
    requires GoodInputs(files) && 1 <= entriesPerPage
    requires forall c :: 0 <= c < |files| ==> |files[c]| < EOF_LEN
    requires Possible(files, evs) && BringsAll(files, evs, chunks)
    requires (forall n :: 0 <= n < |evs| ==> !evs[n].Drain?) && Reached(files, evs).limit == 0
    ensures PrintsSorted(output, AllInputs(files))
    ensures |written| == |files| && forall c :: 0 <= c < |files| ==> written[c] == files[c] + "-1 \n"
  {
    hide Step, Enabled, Brings, LinksInv, OutputInv, GoodInputs, Ascending, Comparator, Ordered, Bounded, WroteAll, Emits;
    var server := new EventLoop(files, entriesPerPage);
    written := seq(|files|, _ => "");
    NothingWritten(files, written);
    assert evs[..0] == [];
    for n := 0 to |evs|
      invariant Possible(files, evs[..n]) && server.inputs == files
      invariant server.Shows(Reached(files, evs[..n]))
      invariant fresh(server) && fresh(server.heap) && fresh(server.heap.table)
      invariant forall o :: o in server.rwObjs ==> fresh(o)
      invariant forall o :: o in server.Buffers() ==> fresh(o)
      invariant Reached(files, evs[..n]).drained == []
      invariant WroteAll(files, Reached(files, evs[..n]).links, written)
    {
      PrefixPossible(files, evs, chunks, n);
      SystemHolds(files, evs[..n]);
      NothingDrained(files, Reached(files, evs[..n]), evs[n]);
      assert fresh(set o | o in server.rwObjs);
      var c := if evs[n].At? then evs[n].c else server.connectionsSize;
      var out := server.Handle(evs[n], chunks[n], Reached(files, evs[..n]));
      WroteStep(files, Reached(files, evs[..n]), evs[n], written, out);
      written := written[c := written[c] + out];
    }
    assert evs[..|evs|] == evs;
    HeapIsAllInputs(files, evs);
    AllWritten(files, evs, written);
    ghost var order;
    output, order := PrintAll(server.heap);
  }

  lemma NothingWritten(files: seq<string>, written: seq<string>)
    requires written == seq(|files|, _ => "")
    ensures WroteAll(files, Init(files).links, written)
  {}

  lemma AllWritten(files: seq<string>, evs: seq<Event>, written: seq<string>)
    requires GoodInputs(files) && Possible(files, evs) && Reached(files, evs).limit == 0
    requires WroteAll(files, Reached(files, evs).links, written)
    ensures |written| == |files| && forall c :: 0 <= c < |files| ==> written[c] == files[c] + STOP
  {
    AllClosed(files, evs);
    forall c | 0 <= c < |files| ensures written[c] == files[c] + STOP {
      assert Wrote(files[c], Reached(files, evs).links[c].server, written[c]);
    }
  }

  lemma AllClosed(files: seq<string>, evs: seq<Event>)
    requires GoodInputs(files) && Possible(files, evs) && Reached(files, evs).limit == 0
    ensures |Reached(files, evs).links| == |files|
    ensures forall c :: 0 <= c < |files| ==> Reached(files, evs).links[c].server.Closed?
  {
    hide LinkInv;
    var s := Reached(files, evs);
    SystemHolds(files, evs);
    SumOfBits(s.links, Open());
    forall c | 0 <= c < |files| ensures s.links[c].server.Closed? {
      assert Open()(s.links[c]) == 0;
    }
  }

  lemma NothingDrained(files: seq<string>, s: System, ev: Event)
    requires Enabled(files, s, ev) && !ev.Drain?
    ensures Step(files, s, ev).drained == s.drained
  {
    hide LinkEnabled, LinkStep;
  }

  /** When the last connection is closed, the heap holds the entries of all inputs. */
  lemma HeapIsAllInputs(files: seq<string>, evs: seq<Event>)
    requires GoodInputs(files) && Possible(files, evs)
    requires Reached(files, evs).limit == 0 && Reached(files, evs).drained == []
    ensures Reached(files, evs).heap == AllInputs(files)
  {
    var s := Reached(files, evs);
    hide LinkInv;
    SystemHolds(files, evs);
    AllClosed(files, evs);
    AllDelivered(files, s.links);
    assert s.heap + multiset([]) == s.heap;
  }
}
