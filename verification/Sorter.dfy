/** The distributed sorter as a transition system: one server, one client per input file, byte
    channels both ways.  Events happen in any order, and every read and write takes any positive
    part of what it could. */
module Sorter {
  import opened Wire
  import opened Framing
  import opened Session

  /** The server's side of a connection. */
  datatype Side =
    | Waiting                     // not accepted yet
    | Sending(o: Outgoing)        // EPOLLOUT
    | Receiving(kept: string)     // EPOLLIN | EPOLLRDHUP
    | Hanging                     // EPOLLRDHUP, after an empty read
    | Closed

  /** A client; its heap at the level of its contract. */
  datatype Peer =
    | Reading(inbox: string, heap: multiset<Keyed>)
    | Writing(out: string, heap: multiset<Keyed>)
    | Exited

  /** A connection.  The last three fields are history: lines the client has read, entries it has
      taken out of its heap, bytes the server has received. */
  datatype Link = Link(server: Side, down: string, peer: Peer, up: string,
                       read: nat, popped: seq<Keyed>, received: string)

  datatype System = System(links: seq<Link>, accepted: nat, heap: multiset<Keyed>, limit: int,
                           drained: seq<Keyed>, output: string)

  datatype LinkEvent =
    | Send(accept: nat)   // read_and_send
    | Fill(k: nat)        // k bytes reach the client's stream
    | Parse               // read_and_insert
    | Pop(e: Keyed)       // heap_delmin and sprintf in the client
    | Write(k: nat)       // the client's write takes k bytes
    | Exit                // the client's heap is empty
    | Recv(k: nat)        // the server's read returns k bytes
    | Hangup              // the peer has disconnected

  datatype Event = Accept | At(c: nat, ev: LinkEvent) | Drain(e: Keyed)

  /** What heap_delmin may return: an entry with a least key. */
  ghost predicate Least(heap: multiset<Keyed>, e: Keyed) {
    e in heap && forall x :: x in heap ==> e.key <= x.key
  }

  ghost predicate LinkEnabled(l: Link, ev: LinkEvent) {
    match ev
    case Send(accept) =>
      && l.server.Sending? && ValidOutgoing(l.server.o)
      // the stop message is written whole
      && (Unsent(l.server.o) == "" ==> accept >= |STOP|)
    case Fill(k) => l.peer.Reading? && 1 <= k <= |l.down|
    case Parse => l.peer.Reading? && Find(l.peer.inbox, LF) < |l.peer.inbox|
    case Pop(e) => l.peer.Writing? && l.peer.out == "" && Least(l.peer.heap, e) && e.key >= 0
    case Write(k) => l.peer.Writing? && 1 <= k <= |l.peer.out|
    case Exit => l.peer.Writing? && l.peer.out == "" && l.peer.heap == multiset{}
    case Recv(k) =>
      && l.server.Receiving?
      && k <= |l.up| && |l.server.kept| + k <= RD_BUF_SIZE
      // an empty read: no room in the buffer, or the end of the stream
      && (k == 0 ==> |l.server.kept| == RD_BUF_SIZE || (l.up == "" && l.peer.Exited?))
    case Hangup => l.server.Hanging? && l.peer.Exited?
  }

  /** What a read adds to the server's heap. */
  ghost function Arrivals(l: Link, ev: LinkEvent): multiset<Keyed>
    requires LinkEnabled(l, ev)
  {
    if ev.Recv? then multiset(Inserts(Lines(l.server.kept + l.up[..ev.k]))) else multiset{}
  }

  ghost function LinkStep(l: Link, ev: LinkEvent): Link
    requires LinkEnabled(l, ev)
  {
    match ev
    case Send(accept) =>
      var r := SendOnce(l.server.o, accept);
      l.(server := if r.stopped then Receiving("") else Sending(r.next), down := l.down + r.out)
    case Fill(k) =>
      l.(peer := l.peer.(inbox := l.peer.inbox + l.down[..k]), down := l.down[k..])
    case Parse =>
      var r := ReadKeyed(l.peer.inbox);
      if r.Got? then l.(peer := Reading(r.rest, l.peer.heap + multiset{r.entry}), read := l.read + 1)
      else l.(peer := Writing("", l.peer.heap))
    case Pop(e) =>
      l.(peer := Writing(Encode(e), l.peer.heap - multiset{e}), popped := l.popped + [e])
    case Write(k) =>
      l.(peer := l.peer.(out := l.peer.out[k..]), up := l.up + l.peer.out[..k])
    case Exit =>
      l.(peer := Exited)
    case Recv(k) =>
      if k == 0 then l.(server := Hanging)
      else l.(server := Receiving(Rest(l.server.kept + l.up[..k])), up := l.up[k..],
              received := l.received + l.up[..k])
    case Hangup =>
      l.(server := Closed)
  }

  ghost predicate Enabled(files: seq<string>, s: System, ev: Event) {
    match ev
    case Accept => s.accepted < |s.links| == |files|
    case At(c, le) => c < |s.links| && LinkEnabled(s.links[c], le)
    case Drain(e) => s.limit == 0 && Least(s.heap, e)
  }

  ghost function Step(files: seq<string>, s: System, ev: Event): System
    requires Enabled(files, s, ev)
  {
    match ev
    case Accept =>
      // the next connection is served the next input file
      var l := s.links[s.accepted].(server := Sending(Outgoing(files[s.accepted], "", 0)));
      s.(links := s.links[s.accepted := l], accepted := s.accepted + 1)
    case At(c, le) =>
      s.(links := s.links[c := LinkStep(s.links[c], le)],
         heap := s.heap + Arrivals(s.links[c], le),
         limit := if le.Hangup? then s.limit - 1 else s.limit)
    case Drain(e) =>
      s.(heap := s.heap - multiset{e}, drained := s.drained + [e], output := s.output + CStr(e.value))
  }

  const NEW_LINK: Link := Link(Waiting, "", Reading("", multiset{}), "", 0, [], "")

  ghost function Init(files: seq<string>): System {
    System(seq(|files|, _ => NEW_LINK), 0, multiset{}, |files|, [], "")
  }

  /** The event sequences that can happen, and where they lead. */
  ghost predicate Possible(files: seq<string>, evs: seq<Event>)
    decreases |evs|, 0
  {
    evs == [] ||
    (Possible(files, evs[..|evs|-1]) && Enabled(files, Reached(files, evs[..|evs|-1]), evs[|evs|-1]))
  }

  ghost function Reached(files: seq<string>, evs: seq<Event>): System
    requires Possible(files, evs)
    decreases |evs|, 1
  {
    if evs == [] then Init(files) else Step(files, Reached(files, evs[..|evs|-1]), evs[|evs|-1])
  }

  // ----- the inputs -----

  predicate GoodFile(file: string) {
    Rest(file) == "" && GoodLines(Lines(file))
  }

  predicate GoodLines(ls: seq<string>) {
    forall k :: 0 <= k < |ls| ==> GoodLine(ls[k])
  }

  /** The entries of a sequence of lines. */
  function EntriesOf(ls: seq<string>): seq<Keyed>
    requires GoodLines(ls)
  {
    if ls == [] then [] else EntriesOf(ls[..|ls|-1]) + [EntryOf(ls[|ls|-1])]
  }

  /** What a client may post: good entries whose line fits the server's buffer. */
  predicate Postable(e: Keyed) {
    GoodEntry(e) && |Encode(e)| <= RD_BUF_SIZE
  }

  predicate Posted(es: seq<Keyed>) {
    forall k :: 0 <= k < |es| ==> Postable(es[k])
  }

  lemma {:induction false} EntriesArePostable(ls: seq<string>)
    requires GoodLines(ls)
    ensures Posted(EntriesOf(ls)) && |EntriesOf(ls)| == |ls|
  {
    if ls != [] {
      EntriesArePostable(ls[..|ls|-1]);
      EntryOfIsGood(ls[|ls|-1]);
    }
  }

  /** The lines a client posts. */
  function Encodings(es: seq<Keyed>): seq<string>
    requires Posted(es)
  {
    if es == [] then [] else Encodings(es[..|es|-1]) + [Encode(es[|es|-1])]
  }

  lemma {:induction false} EncodedLines(es: seq<Keyed>)
    requires Posted(es)
    ensures Rest(EncodeAll(es)) == "" && Lines(EncodeAll(es)) == Encodings(es)
  {
    if es == [] {
      NoLineYet("");
    } else {
      hide Lines, Rest, Encode;
      var init, e := es[..|es|-1], es[|es|-1];
      EncodedLines(init);
      EncodeIsLine(e);
      LinesOneMore(EncodeAll(init), Encode(e));
    }
  }

  lemma {:induction false} EncodingsFit(es: seq<Keyed>)
    requires Posted(es)
    ensures forall k :: 0 <= k < |Encodings(es)| ==> |Encodings(es)[k]| <= RD_BUF_SIZE
  {
    if es != [] {
      hide Encode;
      EncodingsFit(es[..|es|-1]);
    }
  }

  lemma {:induction false} EncodingsInsert(es: seq<Keyed>)
    requires Posted(es)
    ensures Inserts(Encodings(es)) == es
  {
    if es != [] {
      hide Encode, Inserts, Postable, Posted, Encodings;
      var init, e := es[..|es|-1], es[|es|-1];
      LastPosted(es);
      EncodingsInsert(init);
      InsertsEncoded(Encodings(init), e);
    }
  }

  lemma LastPosted(es: seq<Keyed>)
    requires Posted(es) && es != []
    ensures var init, e := es[..|es|-1], es[|es|-1];
      && Posted(init) && Postable(e) && es == init + [e]
      && Encodings(es) == Encodings(init) + [Encode(e)]
  {}

  lemma InsertsEncoded(ls: seq<string>, e: Keyed)
    requires Postable(e)
    ensures Inserts(ls + [Encode(e)]) == Inserts(ls) + [e]
  {
    hide Encode, Inserts, ParseLine;
    WireRoundTrip(e);
    InsertsAppend(ls, [Encode(e)]);
    InsertsOne(Encode(e), e);
  }

  /** The server decodes the whole posted stream to exactly the posted entries. */
  lemma DecodeAll(es: seq<Keyed>)
    requires Posted(es)
    ensures Rest(EncodeAll(es)) == "" && Inserts(Lines(EncodeAll(es))) == es && AllFit(EncodeAll(es))
  {
    hide Lines, Rest, Inserts, Encodings, EncodeAll;
    EncodedLines(es);
    EncodingsInsert(es);
    EncodingsFit(es);
  }

  lemma InsertsOne(l: string, e: Keyed)
    requires ParseLine(l) == Parsed(e) && e.key >= 0
    ensures Inserts([l]) == [e]
  {
    assert [l][..0] == [];
  }

  // ----- one connection -----

  ghost predicate Served(l: Link) { !l.server.Waiting? && !l.server.Sending? }

  /** What the client still has to read, downstream of the lines it has read. */
  ghost predicate DownInv(ls: seq<string>, l: Link) {
    && l.read <= |ls|
    && match l.server {
         case Waiting => l == NEW_LINK
         case Sending(o) =>
           && ValidOutgoing(o)
           && l.peer.Reading? && l.peer.inbox + (l.down + Unsent(o)) == Concat(ls[l.read..])
         case _ =>
           if l.peer.Reading? then l.peer.inbox + l.down == Concat(ls[l.read..]) + STOP else l.read == |ls|
       }
  }

  /** The entries: in the client's heap, or taken out of it. */
  ghost predicate HeapInv(ls: seq<string>, l: Link)
    requires GoodLines(ls) && l.read <= |ls|
  {
    match l.peer
    case Reading(_, heap) => l.popped == [] && l.up == "" && heap == multiset(EntriesOf(ls[..l.read]))
    case Writing(_, heap) => Served(l) && heap + multiset(l.popped) == multiset(EntriesOf(ls))
    case Exited => Served(l) && multiset(l.popped) == multiset(EntriesOf(ls))
  }

  /** The bytes upstream are the encoding of what was taken out, cut anywhere. */
  ghost predicate UpInv(l: Link) {
    && Posted(l.popped)
    && l.received + (l.up + if l.peer.Writing? then l.peer.out else "") == EncodeAll(l.popped)
    && match l.server {
         case Receiving(kept) => kept == Rest(l.received)
         case Hanging => l.peer.Exited? && l.up == ""
         case Closed => l.peer.Exited? && l.up == ""
         case _ => l.received == ""
       }
  }

  ghost predicate LinkInv(file: string, l: Link) {
    && GoodFile(file)
    && DownInv(Lines(file), l)
    && HeapInv(Lines(file), l)
    && UpInv(l)
  }

  lemma Shift(a: string, b: string, c: string, d: string)
    ensures a + ((b + c) + d) == (a + b) + (c + d)
  {}

  lemma SendKeeps(ls: seq<string>, l: Link, accept: nat)
    requires GoodLines(ls) && LinkEnabled(l, Send(accept))
    requires DownInv(ls, l) && HeapInv(ls, l) && UpInv(l)
    ensures DownInv(ls, LinkStep(l, Send(accept)))
    ensures HeapInv(ls, LinkStep(l, Send(accept))) && UpInv(LinkStep(l, Send(accept)))
  {
    hide Lines, Encode, EntriesOf, EncodeAll, SendOnce;
    var o, r := l.server.o, SendOnce(l.server.o, accept);
    SendOnceConserves(o, accept);
    NoLineYet("");
    if r.stopped {
      assert r.out == STOP;
      assert l.down + "" == l.down;
      PlusAssociates(l.peer.inbox, l.down, STOP);
    } else {
      PlusAssociates(l.down, r.out, Unsent(r.next));
    }
  }

  lemma FillKeeps(ls: seq<string>, l: Link, k: nat)
    requires GoodLines(ls) && LinkEnabled(l, Fill(k))
    requires DownInv(ls, l) && HeapInv(ls, l) && UpInv(l)
    ensures DownInv(ls, LinkStep(l, Fill(k))) && HeapInv(ls, LinkStep(l, Fill(k))) && UpInv(LinkStep(l, Fill(k)))
  {
    hide Lines, Rest, Encode, EntriesOf, EncodeAll, Concat;
    var a, b := l.down[..k], l.down[k..];
    assert l.down == a + b;
    PlusAssociates(l.peer.inbox, a, b);
    if l.server.Sending? {
      Shift(l.peer.inbox, a, b, Unsent(l.server.o));
    }
  }

  /** A line feed in the client's stream means that its next line is there completely. */
  lemma FrontLine(ls: seq<string>, inbox: string, more: string, tail: string)
    requires ls != [] && IsLine(ls[0]) && Find(inbox, LF) < |inbox|
    requires inbox + more == Concat(ls) + tail
    ensures var l := ls[0];
      && |l| <= |inbox| && inbox == l + inbox[|l|..]
      && inbox[|l|..] + more == Concat(ls[1..]) + tail
  {
    var l := ls[0];
    PlusAssociates(l, Concat(ls[1..]), tail);
    SameFront(inbox, more, l, Concat(ls[1..]) + tail);
  }

  lemma SameFront(inbox: string, more: string, l: string, rest: string)
    requires IsLine(l) && Find(inbox, LF) < |inbox| && inbox + more == l + rest
    ensures |l| <= |inbox| && inbox == l + inbox[|l|..] && inbox[|l|..] + more == rest
  {
    var all, i := inbox + more, Find(inbox, LF);
    assert forall j :: 0 <= j < |inbox| ==> all[j] == inbox[j];
    assert forall j :: 0 <= j < |l| ==> all[j] == l[j];
    FindIs(all, LF, i);
    FindIs(all, LF, |l| - 1);
    assert inbox[..|l|] == all[..|l|] == l;
    assert all[|l|..] == inbox[|l|..] + more;
    assert all[|l|..] == rest;
  }

  lemma FrontStop(inbox: string, more: string)
    requires Find(inbox, LF) < |inbox| && inbox + more == STOP
    ensures inbox == STOP
  {
    assert (inbox + more)[Find(inbox, LF)] == LF;
    assert STOP[0] != LF && STOP[1] != LF && STOP[2] != LF;
    assert |inbox| == 4;
    assert inbox + "" == inbox;
    assert more == "";
  }

  lemma OneLineMore(ls: seq<string>, r: nat)
    requires GoodLines(ls) && r < |ls|
    ensures multiset(EntriesOf(ls[..r + 1])) == multiset(EntriesOf(ls[..r])) + multiset{EntryOf(ls[r])}
    ensures ls[r..] != [] && ls[r..][0] == ls[r] && ls[r..][1..] == ls[r + 1..]
  {
    assert ls[..r + 1][..r] == ls[..r];
  }

  /** What the client's stream still holds, in one expression. */
  ghost function More(l: Link): string
    requires l.server.Sending? ==> ValidOutgoing(l.server.o)
  {
    if l.server.Sending? then l.down + Unsent(l.server.o) else l.down
  }

  lemma ParseKeeps(ls: seq<string>, l: Link)
    requires GoodLines(ls) && LinkEnabled(l, Parse)
    requires DownInv(ls, l) && HeapInv(ls, l) && UpInv(l)
    ensures DownInv(ls, LinkStep(l, Parse)) && HeapInv(ls, LinkStep(l, Parse)) && UpInv(LinkStep(l, Parse))
    ensures ReadKeyed(l.peer.inbox).Got? || (ReadKeyed(l.peer.inbox).StopRead? && l.read == |ls| && Served(l))
  {
    hide Lines, Rest, Encode, EntriesOf, EncodeAll, Concat, ReadKeyed, Find;
    var inbox := l.peer.inbox;
    var tail := if l.server.Sending? then "" else STOP;
    assert inbox + More(l) == Concat(ls[l.read..]) + tail by {
      assert Concat(ls[l.read..]) + "" == Concat(ls[l.read..]);
    }
    if l.read < |ls| {
      OneLineMore(ls, l.read);
      FrontLine(ls[l.read..], inbox, More(l), tail);
      ClientReadsLine(ls[l.read], inbox[|ls[l.read]|..]);
      assert Concat(ls[l.read + 1..]) + "" == Concat(ls[l.read + 1..]);
    } else {
      EmptyConcat(ls[l.read..]);
      assert "" + tail == tail;
      LFInside(inbox, More(l));
      FrontStop(inbox, More(l));
      ClientReadsStop("");
      assert STOP + "" == STOP;
      assert ls[..l.read] == ls;
    }
  }

  lemma EmptyConcat(ls: seq<string>)
    requires ls == []
    ensures Concat(ls) == ""
  {}

  lemma LFInside(inbox: string, more: string)
    requires Find(inbox, LF) < |inbox|
    ensures inbox + more != ""
  {}

  lemma PopKeeps(ls: seq<string>, l: Link, e: Keyed)
    requires GoodLines(ls) && LinkEnabled(l, Pop(e))
    requires DownInv(ls, l) && HeapInv(ls, l) && UpInv(l)
    ensures DownInv(ls, LinkStep(l, Pop(e))) && HeapInv(ls, LinkStep(l, Pop(e))) && UpInv(LinkStep(l, Pop(e)))
    ensures |Encode(e)| <= RD_BUF_SIZE
  {
    hide Lines, Rest, Encode, EntriesOf, Concat, Find, ReadKeyed, SendOnce, EncodeAll;
    PoppedIsPostable(ls, l, e);
    assert (l.popped + [e])[..|l.popped|] == l.popped;
    PostOne(l.popped, e);
    assert l.up + "" == l.up;
    PlusAssociates(l.received, l.up, Encode(e));
  }

  lemma PostOne(es: seq<Keyed>, e: Keyed)
    requires Posted(es) && Postable(e)
    ensures Posted(es + [e]) && EncodeAll(es + [e]) == EncodeAll(es) + Encode(e)
  {
    assert (es + [e])[..|es|] == es;
  }

  lemma PoppedIsPostable(ls: seq<string>, l: Link, e: Keyed)
    requires GoodLines(ls) && l.peer.Writing? && l.read <= |ls| && HeapInv(ls, l) && e in l.peer.heap
    ensures Postable(e)
  {
    EntriesArePostable(ls);
    assert e in l.peer.heap + multiset(l.popped);
    assert e in EntriesOf(ls);
  }

  lemma WriteKeeps(ls: seq<string>, l: Link, k: nat)
    requires GoodLines(ls) && LinkEnabled(l, Write(k))
    requires DownInv(ls, l) && HeapInv(ls, l) && UpInv(l)
    ensures DownInv(ls, LinkStep(l, Write(k))) && HeapInv(ls, LinkStep(l, Write(k))) && UpInv(LinkStep(l, Write(k)))
  {
    hide Lines, Rest, Encode, EntriesOf, Concat, EncodeAll;
    var a, b := l.peer.out[..k], l.peer.out[k..];
    assert l.peer.out == a + b;
    PlusAssociates(l.up, a, b);
  }

  lemma ExitKeeps(ls: seq<string>, l: Link)
    requires GoodLines(ls) && LinkEnabled(l, Exit)
    requires DownInv(ls, l) && HeapInv(ls, l) && UpInv(l)
    ensures DownInv(ls, LinkStep(l, Exit)) && HeapInv(ls, LinkStep(l, Exit)) && UpInv(LinkStep(l, Exit))
  {
    hide Lines, Rest, Encode, EntriesOf, Concat, EncodeAll;
  }

  /** The server always has room for one more byte. */
  lemma AlwaysRoom(l: Link)
    requires UpInv(l) && l.server.Receiving?
    ensures |l.server.kept| < RD_BUF_SIZE
  {
    DecodeAll(l.popped);
    var all, n := EncodeAll(l.popped), |l.received|;
    assert all[..n] == l.received;
    if n < |all| {
      var k := UnfinishedIsPartOfLine(all, n);
    } else {
      assert all[..n] == all;
    }
  }

  lemma RecvKeeps(ls: seq<string>, l: Link, k: nat)
    requires GoodLines(ls) && LinkEnabled(l, Recv(k))
    requires DownInv(ls, l) && HeapInv(ls, l) && UpInv(l)
    ensures DownInv(ls, LinkStep(l, Recv(k))) && HeapInv(ls, LinkStep(l, Recv(k))) && UpInv(LinkStep(l, Recv(k)))
  {
    hide Lines, Rest, Encode, EntriesOf, Concat, EncodeAll, Find, ReadKeyed, SendOnce, Inserts, UpInv;
    RecvKeepsUp(l, k);
  }

  lemma RecvKeepsUp(l: Link, k: nat)
    requires LinkEnabled(l, Recv(k)) && UpInv(l)
    ensures UpInv(LinkStep(l, Recv(k)))
  {
    hide Lines, Rest, Encode, EncodeAll, Find, ReadKeyed, SendOnce, Inserts;
    AlwaysRoom(l);
    var a, b := l.up[..k], l.up[k..];
    assert l.up == a + b;
    LinesAppend(l.received, a);
    Shift(l.received, a, b, if l.peer.Writing? then l.peer.out else "");
  }

  lemma HangupKeeps(ls: seq<string>, l: Link)
    requires GoodLines(ls) && LinkEnabled(l, Hangup)
    requires DownInv(ls, l) && HeapInv(ls, l) && UpInv(l)
    ensures DownInv(ls, LinkStep(l, Hangup)) && HeapInv(ls, LinkStep(l, Hangup)) && UpInv(LinkStep(l, Hangup))
  {
    hide Lines, Rest, Encode, EntriesOf, Concat, EncodeAll;
  }

  lemma LinkStepKeeps(file: string, l: Link, ev: LinkEvent)
    requires LinkInv(file, l) && LinkEnabled(l, ev)
    ensures LinkInv(file, LinkStep(l, ev))
  {
    hide DownInv, HeapInv, UpInv, LinkEnabled, LinkStep, Lines;
    var ls := Lines(file);
    match ev {
      case Send(accept) => SendKeeps(ls, l, accept);
      case Fill(k) => FillKeeps(ls, l, k);
      case Parse => ParseKeeps(ls, l);
      case Pop(e) => PopKeeps(ls, l, e);
      case Write(k) => WriteKeeps(ls, l, k);
      case Exit => ExitKeeps(ls, l);
      case Recv(k) => RecvKeeps(ls, l, k);
      case Hangup => HangupKeeps(ls, l);
    }
  }
}
