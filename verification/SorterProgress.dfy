/** The sorter cannot get stuck and cannot go on forever. */
module SorterProgress {
  import opened Sums
  import opened Wire
  import opened Framing
  import opened Client
  import opened Sorter
  import opened SorterResults

  // ----- some event is always possible -----

  /** A heap that is not empty has a least entry. */
  lemma {:induction false} LeastExists(m: multiset<Keyed>) returns (e: Keyed)
    requires m != multiset{}
    ensures Least(m, e)
    decreases |m|
  {
    var x :| x in m;
    var rest := m - multiset{x};
    if rest == multiset{} {
      e := x;
      assert m == multiset{x};
    } else {
      var y := LeastExists(rest);
      e := if x.key <= y.key then x else y;
      forall z | z in m ensures e.key <= z.key {
        assert z == x || z in rest;
      }
    }
  }

  lemma StopEndsALine(before: string)
    ensures Find(before + STOP, LF) < |before + STOP|
  {
    assert (before + STOP)[|before| + 3] == LF;
  }

  /** A served client that is still reading can go on. */
  lemma ReaderMoves(ls: seq<string>, l: Link) returns (ev: LinkEvent)
    requires GoodLines(ls) && DownInv(ls, l) && Served(l) && l.peer.Reading?
    ensures LinkEnabled(l, ev)
  {
    if l.down != "" {
      ev := Fill(1);
    } else {
      assert l.peer.inbox + l.down == l.peer.inbox;
      StopEndsALine(Concat(ls[l.read..]));
      ev := Parse;
    }
  }

  lemma WriterMoves(ls: seq<string>, l: Link) returns (ev: LinkEvent)
    requires GoodLines(ls) && l.read <= |ls| && HeapInv(ls, l) && l.peer.Writing?
    ensures LinkEnabled(l, ev)
  {
    if l.peer.out != "" {
      ev := Write(1);
    } else if l.peer.heap == multiset{} {
      ev := Exit;
    } else {
      var e := LeastExists(l.peer.heap);
      PoppedIsPostable(ls, l, e);
      ev := Pop(e);
    }
  }

  /** An accepted connection that is not closed has an event. */
  lemma OpenLinkMoves(file: string, l: Link) returns (ev: LinkEvent)
    requires LinkInv(file, l) && !l.server.Waiting? && !l.server.Closed?
    ensures LinkEnabled(l, ev)
  {
    match l.server {
      case Sending(_) => ev := Send(|STOP|);
      case Hanging => ev := Hangup;
      case Receiving(kept) =>
        AlwaysRoom(l);
        if l.up != "" {
          ev := Recv(1);
        } else if l.peer.Reading? {
          ev := ReaderMoves(Lines(file), l);
        } else if l.peer.Writing? {
          ev := WriterMoves(Lines(file), l);
        } else {
          ev := Recv(0);
        }
    }
  }

  /** No deadlock: unless the server has finished, some event is possible. */
  lemma NeverStuck(files: seq<string>, evs: seq<Event>) returns (ev: Event)
    requires GoodInputs(files) && Possible(files, evs) && !Final(Reached(files, evs))
    ensures Enabled(files, Reached(files, evs), ev)
  {
    var s := Reached(files, evs);
    SystemHolds(files, evs);
    if s.accepted < |files| {
      ev := Accept;
    } else if c :| 0 <= c < |files| && !s.links[c].server.Closed? {
      var le := OpenLinkMoves(files[c], s.links[c]);
      ev := At(c, le);
    } else {
      SumZero(s.links, Open());
      var e := LeastExists(s.heap);
      ev := Drain(e);
    }
  }

  // ----- every event burns fuel -----

  /** What one entry in a client's heap is worth: more than the bytes it is sent as. */
  const ENTRY_FUEL: nat := 4 * RD_BUF_SIZE

  function ServerFuel(file: string, side: Side): int {
    match side
    case Waiting => 5002 * |file| + 60000
    case Sending(o) => (if ValidOutgoing(o) then 5002 * |Unsent(o)| else 0) + 40000
    case Receiving(kept) => |kept| + 20
    case Hanging => 10
    case Closed => 0
  }

  function PeerFuel(peer: Peer): int {
    match peer
    case Reading(inbox, heap) => 5000 * |inbox| + ENTRY_FUEL * |heap| + 20
    case Writing(out, heap) => 3 * |out| + ENTRY_FUEL * |heap| + 10
    case Exited => 0
  }

  /** Bytes count for less the further they have come. */
  function LinkFuel(file: string, l: Link): int {
    ServerFuel(file, l.server) + 5001 * |l.down| + PeerFuel(l.peer) + 2 * |l.up|
  }

  function LinksFuel(files: seq<string>, links: seq<Link>): int
    requires |links| == |files|
  {
    if links == [] then 0
    else LinksFuel(files[..|files|-1], links[..|links|-1]) + LinkFuel(files[|files|-1], links[|links|-1])
  }

  function Fuel(files: seq<string>, s: System): int
    requires |s.links| == |files|
  {
    LinksFuel(files, s.links) + |s.heap|
  }

  lemma {:induction false} LinksFuelUpdate(files: seq<string>, links: seq<Link>, c: nat, l: Link)
    requires c < |links| == |files|
    ensures LinksFuel(files, links[c := l]) == LinksFuel(files, links) - LinkFuel(files[c], links[c]) + LinkFuel(files[c], l)
  {
    hide LinkFuel;
    var n := |links| - 1;
    if c == n {
      assert links[c := l][..n] == links[..n];
    } else {
      assert links[c := l][..n] == links[..n][c := l];
      LinksFuelUpdate(files[..n], links[..n], c, l);
    }
  }

  lemma {:induction false} LinksFuelNonNegative(files: seq<string>, links: seq<Link>)
    requires |links| == |files|
    ensures 0 <= LinksFuel(files, links)
  {
    if links != [] {
      LinksFuelNonNegative(files[..|files|-1], links[..|links|-1]);
    }
  }

  /** Lines and rest take no more room than the bytes they are made of. */
  lemma {:induction false} LinesAreShort(s: string)
    ensures |Lines(s)| + |Rest(s)| <= |s|
    decreases |s|
  {
    var i := Find(s, LF);
    if i < |s| { LinesAreShort(s[i + 1..]); }
  }

  lemma {:induction false} InsertsAreFew(ls: seq<string>)
    ensures |Inserts(ls)| <= |ls|
  {
    if ls != [] { InsertsAreFew(ls[..|ls|-1]); }
  }

  lemma RecvBurns(file: string, l: Link, k: nat)
    requires LinkEnabled(l, Recv(k))
    ensures LinkFuel(file, LinkStep(l, Recv(k))) + |Arrivals(l, Recv(k))| < LinkFuel(file, l)
  {
    hide Lines, Rest, Inserts, ENTRY_FUEL;
    var buf := l.server.kept + l.up[..k];
    LinesAreShort(buf);
    InsertsAreFew(Lines(buf));
    if k == 0 {
      assert buf == l.server.kept;
      AllRest(l);
    }
  }

  lemma AllRest(l: Link)
    requires l.server.Receiving?
    ensures |Inserts(Lines(l.server.kept))| <= |l.server.kept|
  {
    LinesAreShort(l.server.kept);
    InsertsAreFew(Lines(l.server.kept));
  }

  lemma SendBurns(file: string, l: Link, accept: nat)
    requires LinkEnabled(l, Send(accept))
    ensures LinkFuel(file, LinkStep(l, Send(accept))) < LinkFuel(file, l)
  {
    hide SendOnce, Unsent, ENTRY_FUEL;
    SendOnceConserves(l.server.o, accept);
    var r := SendOnce(l.server.o, accept);
    if !r.stopped {
      assert |Unsent(l.server.o)| == |r.out| + |Unsent(r.next)|;
    }
  }

  lemma ParseBurns(file: string, l: Link)
    requires LinkEnabled(l, Parse)
    ensures LinkFuel(file, LinkStep(l, Parse)) < LinkFuel(file, l)
  {
    hide ReadKeyed, Find, Unsent;
    var r := ReadKeyed(l.peer.inbox);
    if r.Got? {
      GotConsumes(l.peer.inbox);
    }
  }

  lemma ClientBurns(file: string, l: Link, ev: LinkEvent)
    requires LinkEnabled(l, ev) && (ev.Fill? || ev.Write? || ev.Exit? || ev.Hangup? || ev.Pop?)
    requires ev.Pop? ==> |Encode(ev.e)| <= RD_BUF_SIZE
    ensures LinkFuel(file, LinkStep(l, ev)) < LinkFuel(file, l)
  {
    hide Unsent, Encode;
  }

  lemma LinkBurns(file: string, l: Link, ev: LinkEvent)
    requires LinkInv(file, l) && LinkEnabled(l, ev)
    ensures LinkFuel(file, LinkStep(l, ev)) + |Arrivals(l, ev)| < LinkFuel(file, l)
  {
    match ev {
      case Send(accept) => SendBurns(file, l, accept);
      case Parse => ParseBurns(file, l);
      case Recv(k) => RecvBurns(file, l, k);
      case Pop(e) => PoppedIsPostable(Lines(file), l, e); ClientBurns(file, l, ev);
      case _ => ClientBurns(file, l, ev);
    }
  }

  lemma EventBurns(files: seq<string>, s: System, ev: Event)
    requires LinksInv(files, s) && Enabled(files, s, ev)
    ensures |Step(files, s, ev).links| == |files|
    ensures 0 <= Fuel(files, Step(files, s, ev)) < Fuel(files, s)
  {
    hide LinkInv, LinkFuel, LinkEnabled, LinkStep, Arrivals;
    LinksFuelNonNegative(files, Step(files, s, ev).links);
    match ev {
      case Accept =>
        var c := s.accepted;
        LinksFuelUpdate(files, s.links, c, s.links[c].(server := Sending(Outgoing(files[c], "", 0))));
        AcceptBurns(files[c], s.links[c]);
      case At(c, le) =>
        assert LinkInv(files[c], s.links[c]);
        LinksFuelUpdate(files, s.links, c, LinkStep(s.links[c], le));
        LinkBurns(files[c], s.links[c], le);
      case Drain(e) =>
    }
  }

  lemma AcceptBurns(file: string, l: Link)
    requires l.server.Waiting?
    ensures LinkFuel(file, l.(server := Sending(Outgoing(file, "", 0)))) < LinkFuel(file, l)
  {
    assert Unsent(Outgoing(file, "", 0)) == file;
  }

  /** No run goes on forever: a run has fewer events than the fuel it starts with. */
  lemma {:induction false} RunsAreFinite(files: seq<string>, evs: seq<Event>)
    requires GoodInputs(files) && Possible(files, evs)
    ensures |Reached(files, evs).links| == |files|
    ensures |evs| + Fuel(files, Reached(files, evs)) <= Fuel(files, Init(files))
    ensures |evs| <= Fuel(files, Init(files))
  {
    if evs != [] {
      RunsAreFinite(files, evs[..|evs|-1]);
      SystemHolds(files, evs[..|evs|-1]);
      EventBurns(files, Reached(files, evs[..|evs|-1]), evs[|evs|-1]);
    }
    LinksFuelNonNegative(files, Reached(files, evs).links);
  }

  /** Every run can be continued until the server has finished. */
  lemma {:induction false} EveryRunCompletes(files: seq<string>, evs: seq<Event>) returns (all: seq<Event>)
    requires GoodInputs(files) && Possible(files, evs)
    ensures evs <= all && Possible(files, all) && Final(Reached(files, all))
    decreases Fuel(files, Init(files)) - |evs|
  {
    RunsAreFinite(files, evs);
    if Final(Reached(files, evs)) {
      all := evs;
    } else {
      var ev := NeverStuck(files, evs);
      assert (evs + [ev])[..|evs|] == evs;
      RunsAreFinite(files, evs + [ev]);
      all := EveryRunCompletes(files, evs + [ev]);
    }
  }
}
