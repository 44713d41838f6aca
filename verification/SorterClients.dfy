/** The client program in the sorter: it accepts what the server sends, sends what the server
    accepts, and takes the steps of the transition system. */
module SorterClients {
  import opened HeapOrder
  import opened Heap
  import opened Wire
  import opened Framing
  import opened Session
  import opened Client
  import opened Sorter
  import opened SorterResults

  // ----- what the server sends is what the client accepts -----

  lemma {:induction false} EntriesFront(ls: seq<string>)
    requires GoodLines(ls) && ls != []
    ensures GoodLines(ls[1..]) && EntriesOf(ls) == [EntryOf(ls[0])] + EntriesOf(ls[1..])
  {
    hide GoodLine, EntryOf, EntriesOf;
    var n := |ls| - 1;
    EntriesBack(ls);
    if n > 0 {
      EntriesFront(ls[..n]);
      EntriesBack(ls[1..]);
      assert ls[..n][1..] == ls[1..][..n - 1];
    } else {
      NoEntries(ls[..n]);
      NoEntries(ls[1..]);
    }
  }

  lemma EntriesBack(ls: seq<string>)
    requires GoodLines(ls) && ls != []
    ensures GoodLines(ls[..|ls|-1]) && GoodLine(ls[|ls|-1])
    ensures EntriesOf(ls) == EntriesOf(ls[..|ls|-1]) + [EntryOf(ls[|ls|-1])]
  {
    hide GoodLine, EntryOf;
  }

  lemma FrontIsRead(ls: seq<string>)
    requires GoodLines(ls) && ls != []
    ensures ReadKeyed(Concat(ls) + STOP) == Got(EntryOf(ls[0]), Concat(ls[1..]) + STOP)
  {
    hide ReadKeyed;
    PlusAssociates(ls[0], Concat(ls[1..]), STOP);
    ClientReadsLine(ls[0], Concat(ls[1..]) + STOP);
  }

  lemma {:induction false} LinesFeedClient(ls: seq<string>)
    requires GoodLines(ls)
    ensures NothingGarbled(Concat(ls) + STOP) && KeyedLines(Concat(ls) + STOP) == EntriesOf(ls)
  {
    hide ReadKeyed, EntriesOf;
    if ls == [] {
      assert "" + STOP == STOP && STOP + "" == STOP;
      ClientReadsStop("");
      NoEntries(ls);
    } else {
      FrontIsRead(ls);
      GotConsumes(Concat(ls) + STOP);
      EntriesFront(ls);
      LinesFeedClient(ls[1..]);
    }
  }

  lemma NoEntries(ls: seq<string>)
    requires ls == []
    ensures EntriesOf(ls) == []
  {}

  /** The entry fits the buffer its own line makes room for. */
  predicate FitsOwn(e: Keyed) {
    e.key >= 0 && Fits(e, |e.value| + 1)
  }

  lemma EntryFits(l: string)
    requires GoodLine(l)
    ensures FitsOwn(EntryOf(l))
  {
    hide Encode;
    EntryOfIsGood(l);
  }

  lemma {:induction false} EntriesFit(ls: seq<string>)
    requires GoodLines(ls)
    ensures forall e :: e in EntriesOf(ls) ==> FitsOwn(e)
  {
    hide FitsOwn, GoodLine, EntryOf, EntriesOf;
    if ls == [] {
      NoEntries(ls);
    } else {
      EntriesBack(ls);
      EntriesFit(ls[..|ls|-1]);
      EntryFits(ls[|ls|-1]);
    }
  }

  lemma EntriesSuffice(es: seq<Keyed>)
    requires forall e :: e in es ==> FitsOwn(e)
    ensures BufferSuffices(multiset(es))
  {
    hide Fits, HasRoom;
    forall e: Keyed | e in multiset(es) ensures e.key >= 0 && HasRoom(e, multiset(es)) {
      assert e in es;
      assert FitsOwn(e);
      RoomOf(e, e, multiset(es));
    }
  }

  /** The file and the stop message are a stream without a missing number, whose lines before the
      stop message are exactly the file's, and which the client's send buffer suffices for. */
  lemma FileFeedsClient(file: string)
    requires GoodFile(file)
    ensures NothingGarbled(file + STOP) && KeyedLines(file + STOP) == EntriesOf(Lines(file))
    ensures BufferSuffices(multiset(KeyedLines(file + STOP)))
  {
    WholeFile(file);
    LinesFeedClient(Lines(file));
    EntriesFit(Lines(file));
    EntriesSuffice(EntriesOf(Lines(file)));
  }

  // ----- what the client sends is what the server accepts -----

  /** Whatever sorted encoding of these entries is sent, the server finds room for all of it, leaves
      no rest, and inserts exactly the entries. */
  lemma ServerTakesBack(sent: string, es: seq<Keyed>)
    requires Posted(es) && SendsSorted(sent, multiset(es))
    ensures Rest(sent) == "" && AllFit(sent)
    ensures multiset(Inserts(Lines(sent))) == multiset(es)
  {
    var order: seq<Keyed> :|
      && multiset(order) == multiset(es) && Ascending(order, Identity())
      && (forall k :: 0 <= k < |order| ==> order[k].key >= 0)
      && sent == EncodeAll(order);
    hide Postable, Ascending, Lines, Rest, Inserts, EncodeAll, AllFit;
    forall k | 0 <= k < |order| ensures Postable(order[k]) {
      assert order[k] in multiset(order);
      assert order[k] in es;
    }
    DecodeAll(order);
  }

  /** One file through the client program: it sends the file's entries back sorted, and the server
      inserts exactly these. */
  method SortFileLines(file: string, entriesPerPage: nat) returns (sent: string)
    requires GoodFile(file) && 1 <= entriesPerPage
    ensures SendsSorted(sent, multiset(EntriesOf(Lines(file))))
    ensures Rest(sent) == "" && AllFit(sent)
    ensures multiset(Inserts(Lines(sent))) == multiset(EntriesOf(Lines(file)))
  {
    hide Lines, Rest, Inserts, KeyedLines, SendsSorted, BufferSuffices, NothingGarbled, EntriesOf;
    FileFeedsClient(file);
    sent := SortLines(file + STOP, entriesPerPage);
    EntriesArePostable(Lines(file));
    ServerTakesBack(sent, EntriesOf(Lines(file)));
  }

  // ----- the client program takes the system's steps -----

  /** Reading one line is the step Parse. */
  method ClientParse(stream: Stream, root: MinHeap<int, string>, ghost file: string, ghost l: Link) returns (ret: int)
    requires root.Valid() && LinkInv(file, l) && LinkEnabled(l, Parse)
    requires l.peer == Reading(stream.data, multiset(root.Contents()))
    modifies stream, root, root.table
    ensures root.Valid() && (root.table == old(root.table) || fresh(root.table))
    ensures LinkStep(l, Parse).peer ==
      if ret >= 0 then Reading(stream.data, multiset(root.Contents())) else Writing("", multiset(root.Contents()))
  {
    hide ReadKeyed, Lines, MinHeap.Valid, DownInv, HeapInv, UpInv, GoodLines;
    ParseKeeps(Lines(file), l);
    ghost var e;
    ret, e := ReadAndInsert(stream, root);
  }

  /** Taking out and encoding the least line is the step Pop; an empty heap is the step Exit. */
  method ClientPop(root: MinHeap<int, string>, buf: array<char>, maxLen: nat, ghost l: Link)
    returns (ok: bool, out: string, ghost e: Keyed)
    requires root.Valid() && root.rank == Identity() && Sendable(multiset(root.Contents()), maxLen)
    requires buf.Length == MAX_INT_STRING_LEN + maxLen + 1
    requires l.peer == Writing("", multiset(root.Contents()))
    modifies root, root.table, buf
    ensures root.Valid() && (root.table == old(root.table) || fresh(root.table))
    ensures ok ==>
      && LinkEnabled(l, Pop(e)) && out == Encode(e)
      && LinkStep(l, Pop(e)).peer == Writing(out, multiset(root.Contents()))
    ensures !ok ==> LinkEnabled(l, Exit)
  {
    hide MinHeap.Valid, Encode, Fits, Sendable;
    ok, out, e := SendLeast(root, buf, maxLen);
  }

  // ----- what a connection has delivered in the end -----

  /** A client takes its entries out in ascending order. */
  ghost predicate PeerInv(l: Link) {
    match l.peer
    case Reading(_, _) => l.popped == []
    case Writing(_, heap) => Ascending(l.popped, Identity()) && AllBelow(l.popped, heap, Identity())
    case Exited => Ascending(l.popped, Identity())
  }

  lemma PeerStep(l: Link, ev: LinkEvent)
    requires LinkEnabled(l, ev) && PeerInv(l)
    ensures PeerInv(LinkStep(l, ev))
  {
    match ev {
      case Parse => StartsAscending(l.popped, l.peer.heap);
      case Pop(e) => PopsAscending(l.popped, l.peer.heap, e);
      case _ => SamePeer(l, ev);
    }
  }

  lemma StartsAscending(popped: seq<Keyed>, heap: multiset<Keyed>)
    requires popped == []
    ensures Ascending(popped, Identity()) && AllBelow(popped, heap, Identity())
  {}

  lemma PopsAscending(popped: seq<Keyed>, heap: multiset<Keyed>, e: Keyed)
    requires Ascending(popped, Identity()) && AllBelow(popped, heap, Identity()) && Least(heap, e)
    ensures Ascending(popped + [e], Identity()) && AllBelow(popped + [e], heap - multiset{e}, Identity())
  {
    LeastIsTaken(heap, e);
    AscendingStep(popped, heap, heap - multiset{e}, e, Identity());
  }

  lemma SamePeer(l: Link, ev: LinkEvent)
    requires LinkEnabled(l, ev) && PeerInv(l) && !ev.Parse? && !ev.Pop?
    ensures PeerInv(LinkStep(l, ev))
  {
    hide Ascending, AllBelow, SendOnce, Lines, Rest, Inserts, Encode, ReadKeyed;
  }

  lemma {:induction false} PeersHold(files: seq<string>, evs: seq<Event>)
    requires Possible(files, evs)
    ensures forall c :: 0 <= c < |Reached(files, evs).links| ==> PeerInv(Reached(files, evs).links[c])
  {
    if evs != [] {
      hide PeerInv, LinkEnabled, LinkStep;
      var s, ev := Reached(files, evs[..|evs|-1]), evs[|evs|-1];
      PeersHold(files, evs[..|evs|-1]);
      match ev {
        case Accept => AcceptPeer(s.links[s.accepted], Outgoing(files[s.accepted], "", 0));
        case At(c, le) => PeerStep(s.links[c], le);
        case Drain(_) =>
      }
    }
  }

  lemma AcceptPeer(l: Link, o: Outgoing)
    requires PeerInv(l)
    ensures PeerInv(l.(server := Side.Sending(o)))
  {}

  /** In every run of the system, a closed connection has delivered a stream that meets the client
      program's contract for its file: a sorted encoding of exactly the file's entries. */
  lemma ClosedDeliversSorted(files: seq<string>, evs: seq<Event>, c: nat)
    requires GoodInputs(files) && Possible(files, evs) && c < |files|
    ensures |Reached(files, evs).links| == |files|
    ensures Reached(files, evs).links[c].server.Closed? ==>
      GoodFile(files[c]) && SendsSorted(Reached(files, evs).links[c].received, multiset(EntriesOf(Lines(files[c]))))
  {
    SystemHolds(files, evs);
    PeersHold(files, evs);
    var l := Reached(files, evs).links[c];
    if l.server.Closed? {
      ClosedIsSorted(files[c], l);
    }
  }

  lemma ClosedIsSorted(file: string, l: Link)
    requires LinkInv(file, l) && PeerInv(l) && l.server.Closed?
    ensures GoodFile(file) && SendsSorted(l.received, multiset(EntriesOf(Lines(file))))
  {
    hide Lines, EncodeAll, EntriesOf, Concat, Rest, Ascending, Posted, SendsSorted;
    assert l.received + ("" + "") == l.received;
    PostedSorted(l.popped, multiset(EntriesOf(Lines(file))));
  }

  lemma PostedSorted(order: seq<Keyed>, entries: multiset<Keyed>)
    requires Posted(order) && Ascending(order, Identity()) && multiset(order) == entries
    ensures SendsSorted(EncodeAll(order), entries)
  {
    hide EncodeAll, Ascending;
  }
}
