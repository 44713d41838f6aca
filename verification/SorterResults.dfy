/** What the distributed sorter achieves, in every order of events and for every cut of its streams. */
module SorterResults {
  import opened Sums
  import opened HeapOrder
  import opened Wire
  import opened Framing
  import opened Session
  import opened Sorter

  // ----- the whole system -----

  ghost predicate GoodInputs(files: seq<string>) {
    files != [] && forall c :: 0 <= c < |files| ==> GoodFile(files[c])
  }

  /** All entries of all input files. */
  function AllInputs(files: seq<string>): multiset<Keyed>
    requires forall c :: 0 <= c < |files| ==> GoodFile(files[c])
  {
    if files == [] then multiset{}
    else
      var f := files[|files|-1];
      assert GoodFile(f);
      AllInputs(files[..|files|-1]) + multiset(EntriesOf(Lines(f)))
  }

  /** What the server has inserted for one connection. */
  function Inserted(l: Link): multiset<Keyed> { multiset(Inserts(Lines(l.received))) }

  function Delivered(links: seq<Link>): multiset<Keyed> {
    if links == [] then multiset{} else Delivered(links[..|links|-1]) + Inserted(links[|links|-1])
  }

  lemma {:induction false} DeliveredUpdate(links: seq<Link>, c: nat, l: Link, d: multiset<Keyed>)
    requires c < |links| && Inserted(l) == Inserted(links[c]) + d
    ensures Delivered(links[c := l]) == Delivered(links) + d
  {
    hide Inserted;
    var n := |links| - 1;
    if c == n {
      assert links[c := l][..n] == links[..n];
    } else {
      assert links[c := l][..n] == links[..n][c := l];
      DeliveredUpdate(links[..n], c, l, d);
    }
  }

  function Open(): Link -> int { (l: Link) => if l.server.Closed? then 0 else 1 }

  /** The concatenated texts, as the server prints them. */
  function Texts(es: seq<Keyed>): string {
    if es == [] then "" else Texts(es[..|es|-1]) + CStr(es[|es|-1].value)
  }

  /** A text is printed up to its first NUL, and one without a NUL whole. */
  lemma PrintsUpToNul(es: seq<Keyed>, key: int, p: string, q: string)
    requires NUL !in p
    ensures Texts(es + [Entry(key, p + [NUL] + q)]) == Texts(es) + p
    ensures Texts(es + [Entry(key, p)]) == Texts(es) + p
  {
    CStrCut(p, q);
    CStrWhole(p);
    TextsOneMore(es, Entry(key, p + [NUL] + q));
    TextsOneMore(es, Entry(key, p));
  }

  ghost predicate LinksInv(files: seq<string>, s: System) {
    && |s.links| == |files|
    && (forall c :: 0 <= c < |files| ==> LinkInv(files[c], s.links[c]))
    && s.accepted <= |files|
    && (forall c :: 0 <= c < |files| ==> (s.links[c].server.Waiting? <==> c >= s.accepted))
    && s.limit == Sum(s.links, Open())
  }

  ghost predicate OutputInv(s: System) {
    && s.heap + multiset(s.drained) == Delivered(s.links)
    && (s.limit > 0 ==> s.drained == [])
    && Ascending(s.drained, Identity()) && AllBelow(s.drained, s.heap, Identity())
    && s.output == Texts(s.drained)
  }

  lemma NewLinkInv(file: string)
    requires GoodFile(file)
    ensures LinkInv(file, NEW_LINK)
  {
    assert EncodeAll([]) == "" && "" + ("" + "") == "";
    assert Lines(file)[..0] == [];
  }

  lemma InitHolds(files: seq<string>)
    requires GoodInputs(files)
    ensures LinksInv(files, Init(files)) && OutputInv(Init(files))
  {
    hide LinkInv, GoodFile;
    var links := Init(files).links;
    forall c | 0 <= c < |files| ensures LinkInv(files[c], links[c]) {
      NewLinkInv(files[c]);
    }
    AllOpen(links);
    NothingDelivered(links);
  }

  lemma AllOpen(links: seq<Link>)
    requires forall c :: 0 <= c < |links| ==> !links[c].server.Closed?
    ensures Sum(links, Open()) == |links|
  {
    SumOfBits(links, Open());
  }

  lemma {:induction false} NothingDelivered(links: seq<Link>)
    requires forall c :: 0 <= c < |links| ==> links[c].received == ""
    ensures Delivered(links) == multiset{}
  {
    if links != [] {
      NothingDelivered(links[..|links|-1]);
      NoLineYet("");
    }
  }

  lemma AcceptLink(file: string, l: Link)
    requires LinkInv(file, l) && l.server.Waiting?
    ensures LinkInv(file, l.(server := Sending(Outgoing(file, "", 0))))
  {
    hide Lines, Rest, Concat, EntriesOf, EncodeAll;
    WholeFile(file);
    assert Lines(file)[0..] == Lines(file);
    assert "" + ("" + file) == file;
    NoLineYet("");
  }

  lemma WholeFile(file: string)
    requires GoodFile(file)
    ensures Concat(Lines(file)) == file && Unsent(Outgoing(file, "", 0)) == file
  {
    hide Lines, Rest, Concat;
    LinesJoin(file);
    assert Concat(Lines(file)) + "" == Concat(Lines(file));
    assert "" + file == file;
  }

  lemma AcceptKeeps(files: seq<string>, s: System)
    requires GoodInputs(files) && LinksInv(files, s) && OutputInv(s) && Enabled(files, s, Accept)
    ensures LinksInv(files, Step(files, s, Accept)) && OutputInv(Step(files, s, Accept))
  {
    hide LinkInv, Inserts, Lines, Ascending, AllBelow, GoodFile, Sum, Delivered, Texts;
    var c := s.accepted;
    var l := s.links[c].(server := Sending(Outgoing(files[c], "", 0)));
    assert LinkInv(files[c], s.links[c]);
    AcceptLink(files[c], s.links[c]);
    SumUpdate(s.links, c, l, Open());
    SameInserted(s.links[c], l);
    DeliveredUpdate(s.links, c, l, multiset{});
  }

  lemma SameInserted(l: Link, l': Link)
    requires l.received == l'.received
    ensures Inserted(l') == Inserted(l) + multiset{}
  {
    hide Inserts, Lines;
  }

  /** What a step inserts for a connection is what it adds to the server's heap. */
  lemma LinkDelivers(l: Link, ev: LinkEvent)
    requires LinkEnabled(l, ev) && UpInv(l)
    ensures Inserted(LinkStep(l, ev)) == Inserted(l) + Arrivals(l, ev)
  {
    hide Inserts, Lines, Rest, EncodeAll, Find, ReadKeyed, SendOnce, Encode;
    if ev.Recv? {
      var a := l.up[..ev.k];
      LinesAppend(l.received, a);
      InsertsAppend(Lines(l.received), Lines(l.server.kept + a));
      if ev.k == 0 {
        EmptyRead(l);
      }
    }
  }

  lemma EmptyRead(l: Link)
    requires LinkEnabled(l, Recv(0)) && UpInv(l)
    ensures Arrivals(l, Recv(0)) == multiset{}
  {
    assert l.server.kept + l.up[..0] == l.server.kept;
    NoLineYet(l.server.kept);
  }

  /** Only an open connection has events. */
  lemma EventsNeedOpen(l: Link, ev: LinkEvent)
    requires LinkEnabled(l, ev) && UpInv(l)
    ensures !l.server.Closed?
  {
    hide Lines, EncodeAll, Rest;
  }

  /** Replacing one connection by one that keeps its invariant and its place. */
  lemma ReplaceLink(files: seq<string>, s: System, s': System, c: nat, l: Link)
    requires LinksInv(files, s) && c < |files| && LinkInv(files[c], l)
    requires s'.links == s.links[c := l] && s'.accepted == s.accepted
    requires !l.server.Waiting? && !s.links[c].server.Waiting?
    requires s'.limit == s.limit - Open()(s.links[c]) + Open()(l)
    ensures LinksInv(files, s')
  {
    hide LinkInv;
    SumUpdate(s.links, c, l, Open());
  }

  lemma LinkKeepsLinks(files: seq<string>, s: System, c: nat, ev: LinkEvent)
    requires GoodInputs(files) && LinksInv(files, s) && Enabled(files, s, At(c, ev))
    ensures LinksInv(files, Step(files, s, At(c, ev)))
    ensures s.limit > 0
  {
    hide LinkInv, LinkEnabled, LinkStep, Inserted, Arrivals, GoodInputs;
    assert LinkInv(files[c], s.links[c]);
    LinkFacts(files[c], s.links[c], ev);
    LinkStepKeeps(files[c], s.links[c], ev);
    OpenCount(s.links, c);
    ReplaceLink(files, s, Step(files, s, At(c, ev)), c, LinkStep(s.links[c], ev));
  }

  lemma LinkKeepsOutput(files: seq<string>, s: System, c: nat, ev: LinkEvent)
    requires c < |s.links| && LinkEnabled(s.links[c], ev) && s.limit > 0 && OutputInv(s)
    requires Inserted(LinkStep(s.links[c], ev)) == Inserted(s.links[c]) + Arrivals(s.links[c], ev)
    ensures OutputInv(Step(files, s, At(c, ev)))
  {
    hide LinkEnabled, LinkStep, Inserted, Arrivals, Ascending, AllBelow;
    var l, l' := s.links[c], LinkStep(s.links[c], ev);
    DeliveredUpdate(s.links, c, l', Arrivals(l, ev));
    AscendingStart(s.heap + Arrivals(l, ev), Identity());
  }

  lemma LinkKeeps(files: seq<string>, s: System, c: nat, ev: LinkEvent)
    requires GoodInputs(files) && LinksInv(files, s) && OutputInv(s) && Enabled(files, s, At(c, ev))
    ensures LinksInv(files, Step(files, s, At(c, ev))) && OutputInv(Step(files, s, At(c, ev)))
  {
    hide LinkInv, LinkEnabled, LinkStep, Inserted, Arrivals, GoodInputs, OutputInv;
    LinkKeepsLinks(files, s, c, ev);
    LinkFacts(files[c], s.links[c], ev);
    LinkKeepsOutput(files, s, c, ev);
  }

  lemma WaitingIsQuiet(ls: seq<string>, l: Link, ev: LinkEvent)
    requires DownInv(ls, l) && LinkEnabled(l, ev)
    ensures !l.server.Waiting?
  {
    hide Lines, Concat;
  }

  lemma ServerSide(l: Link, ev: LinkEvent)
    requires LinkEnabled(l, ev) && !l.server.Waiting? && !l.server.Closed?
    ensures LinkStep(l, ev).server.Closed? <==> ev.Hangup?
    ensures !LinkStep(l, ev).server.Waiting?
  {
    hide Lines, Rest, Inserts, ReadKeyed, SendOnce, Encode;
  }

  /** What one connection's event means for the server. */
  lemma LinkFacts(file: string, l: Link, ev: LinkEvent)
    requires LinkInv(file, l) && LinkEnabled(l, ev)
    ensures !l.server.Closed? && !l.server.Waiting?
    ensures LinkStep(l, ev).server.Closed? <==> ev.Hangup?
    ensures !LinkStep(l, ev).server.Waiting?
    ensures Inserted(LinkStep(l, ev)) == Inserted(l) + Arrivals(l, ev)
  {
    hide LinkEnabled, LinkStep, Arrivals, Inserted, DownInv, UpInv, HeapInv, GoodFile;
    EventsNeedOpen(l, ev);
    WaitingIsQuiet(Lines(file), l, ev);
    ServerSide(l, ev);
    LinkDelivers(l, ev);
  }

  lemma OpenCount(links: seq<Link>, c: nat)
    requires c < |links| && !links[c].server.Closed?
    ensures Sum(links, Open()) > 0
  {
    SumOfBits(links, Open());
    assert Open()(links[c]) == 1;
  }

  lemma DrainKeeps(files: seq<string>, s: System, e: Keyed)
    requires GoodInputs(files) && LinksInv(files, s) && OutputInv(s) && Enabled(files, s, Drain(e))
    ensures LinksInv(files, Step(files, s, Drain(e))) && OutputInv(Step(files, s, Drain(e)))
  {
    hide LinkInv, GoodInputs, OutputInv, Least, CStr;
    DrainKeepsOutput(files, s, e);
  }

  lemma DrainKeepsOutput(files: seq<string>, s: System, e: Keyed)
    requires OutputInv(s) && Enabled(files, s, Drain(e))
    ensures OutputInv(Step(files, s, Drain(e)))
  {
    hide Ascending, AllBelow, TookLeast, CStr, Inserted, Delivered, Least, Texts;
    LeastIsTaken(s.heap, e);
    assert s.heap + multiset(s.drained) == multiset(s.drained) + s.heap;
    PrintOne(s.output, s.drained, s.heap, s.heap - multiset{e}, Delivered(s.links), e);
  }

  /** What is printed so far: the least entries in order, with `here` still in the heap. */
  ghost predicate PrintedSoFar(output: string, order: seq<Keyed>, here: multiset<Keyed>, all: multiset<Keyed>) {
    && all == multiset(order) + here
    && Ascending(order, Identity()) && AllBelow(order, here, Identity())
    && output == Texts(order)
  }

  lemma PrintNothing(order: seq<Keyed>, all: multiset<Keyed>)
    requires order == []
    ensures PrintedSoFar("", order, all, all)
  {
    AscendingStart(all, Identity());
  }

  lemma PrintOne(output: string, order: seq<Keyed>, here: multiset<Keyed>, rest: multiset<Keyed>, all: multiset<Keyed>, e: Keyed)
    requires PrintedSoFar(output, order, here, all) && TookLeast(here, rest, e, Identity())
    ensures PrintedSoFar(output + CStr(e.value), order + [e], rest, all)
  {
    hide Ascending, AllBelow, TookLeast, CStr, Texts, Identity;
    AscendingStep(order, here, rest, e, Identity());
    TextsOneMore(order, e);
  }

  lemma PrintedAll(output: string, order: seq<Keyed>, here: multiset<Keyed>, all: multiset<Keyed>)
    requires PrintedSoFar(output, order, here, all) && here == multiset{}
    ensures multiset(order) == all && Ascending(order, Identity()) && output == Texts(order)
  {}

  lemma TextsOneMore(es: seq<Keyed>, e: Keyed)
    ensures Texts(es + [e]) == Texts(es) + CStr(e.value)
  {
    assert (es + [e])[..|es|] == es;
  }

  lemma LeastIsTaken(heap: multiset<Keyed>, e: Keyed)
    requires Least(heap, e)
    ensures TookLeast(heap, heap - multiset{e}, e, Identity())
  {}

  lemma {:induction false} SystemHolds(files: seq<string>, evs: seq<Event>)
    requires GoodInputs(files) && Possible(files, evs)
    ensures LinksInv(files, Reached(files, evs)) && OutputInv(Reached(files, evs))
  {
    if evs == [] {
      InitHolds(files);
    } else {
      hide LinksInv, OutputInv;
      var init := evs[..|evs|-1];
      SystemHolds(files, init);
      match evs[|evs|-1] {
        case Accept => AcceptKeeps(files, Reached(files, init));
        case At(c, ev) => LinkKeeps(files, Reached(files, init), c, ev);
        case Drain(e) => DrainKeeps(files, Reached(files, init), e);
      }
    }
  }

  // ----- the result -----

  /** The server has closed every connection and emptied its heap. */
  ghost predicate Final(s: System) { s.limit == 0 && s.heap == multiset{} }

  lemma ClosedLinkDelivered(file: string, l: Link)
    requires LinkInv(file, l) && l.server.Closed?
    ensures Inserted(l) == multiset(EntriesOf(Lines(file)))
  {
    hide Lines, Inserts, EncodeAll, EntriesOf, Concat, Rest;
    DecodeAll(l.popped);
    assert l.received + ("" + "") == l.received;
  }

  lemma {:induction false} AllDelivered(files: seq<string>, links: seq<Link>)
    requires |links| == |files|
    requires forall c :: 0 <= c < |files| ==> LinkInv(files[c], links[c]) && links[c].server.Closed?
    ensures forall c :: 0 <= c < |files| ==> GoodFile(files[c])
    ensures Delivered(links) == AllInputs(files)
  {
    if files != [] {
      hide LinkInv, Inserted, GoodFile;
      var n := |files| - 1;
      AllDelivered(files[..n], links[..n]);
      ClosedLinkDelivered(files[n], links[n]);
      assert GoodFile(files[n]) by { LinkFileIsGood(files[n], links[n]); }
    }
  }

  lemma LinkFileIsGood(file: string, l: Link)
    requires LinkInv(file, l)
    ensures GoodFile(file)
  {}

  /** End to end: in every order of events and for every cut of the streams, the finished server
      has printed the texts of all input lines, none lost or repeated, in ascending key order. */
  lemma SorterSorts(files: seq<string>, evs: seq<Event>)
    requires GoodInputs(files) && Possible(files, evs) && Final(Reached(files, evs))
    ensures var s := Reached(files, evs);
      && s.output == Texts(s.drained)
      && multiset(s.drained) == AllInputs(files)
      && Ascending(s.drained, Identity())
  {
    var s := Reached(files, evs);
    SystemHolds(files, evs);
    SumOfBits(s.links, Open());
    forall c | 0 <= c < |files| ensures s.links[c].server.Closed? {
      assert Open()(s.links[c]) == 0;
    }
    AllDelivered(files, s.links);
  }

  /** With equal keys only on equal entries, there is one ascending arrangement. */
  lemma {:induction false} AscendingIsUnique(a: seq<Keyed>, b: seq<Keyed>)
    requires Ascending(a, Identity()) && Ascending(b, Identity()) && multiset(a) == multiset(b)
    requires KeysTellApart(multiset(a))
    ensures a == b
  {
    assert |multiset(a)| == |multiset(b)|;
    if a != [] {
      SameFirst(a, b);
      TailOf(a);
      TailOf(b);
      hide Ascending, KeysTellApart;
      TellApartSubset(multiset(a), multiset(a[1..]));
      AscendingIsUnique(a[1..], b[1..]);
    }
  }

  lemma TailOf(a: seq<Keyed>)
    requires a != [] && Ascending(a, Identity())
    ensures Ascending(a[1..], Identity()) && multiset(a[1..]) == multiset(a) - multiset{a[0]}
    ensures a == [a[0]] + a[1..]
  {
    assert a == [a[0]] + a[1..];
  }

  /** Equal keys occur on equal entries only. */
  ghost predicate KeysTellApart(m: multiset<Keyed>) {
    forall e, f :: e in m && f in m && e.key == f.key ==> e == f
  }

  lemma TellApartSubset(m: multiset<Keyed>, n: multiset<Keyed>)
    requires KeysTellApart(m) && n <= m
    ensures KeysTellApart(n)
  {
    forall e | e in n ensures e in m {
      assert n[e] <= m[e];
    }
  }

  lemma SameFirst(a: seq<Keyed>, b: seq<Keyed>)
    requires a != [] && b != [] && Ascending(a, Identity()) && Ascending(b, Identity())
    requires multiset(a) == multiset(b) && KeysTellApart(multiset(a))
    ensures a[0] == b[0]
  {
    FirstIsLeast(a, b[0]);
    FirstIsLeast(b, a[0]);
    assert a[0] in multiset(a) && b[0] in multiset(b);
  }

  lemma FirstIsLeast(a: seq<Keyed>, e: Keyed)
    requires a != [] && Ascending(a, Identity())
    ensures e in multiset(a) ==> a[0].key <= e.key
  {
    if e in multiset(a) {
      var j :| 0 <= j < |a| && a[j] == e;
      assert j > 0 ==> Identity()(a[0].key) <= Identity()(a[j].key);
    }
  }

  /** With distinct keys the output does not depend on the schedule. */
  lemma ScheduleDoesNotMatter(files: seq<string>, evs: seq<Event>, evs': seq<Event>)
    requires GoodInputs(files)
    requires KeysTellApart(AllInputs(files))
    requires Possible(files, evs) && Final(Reached(files, evs))
    requires Possible(files, evs') && Final(Reached(files, evs'))
    ensures Reached(files, evs).output == Reached(files, evs').output
  {
    SorterSorts(files, evs);
    SorterSorts(files, evs');
    AscendingIsUnique(Reached(files, evs).drained, Reached(files, evs').drained);
  }
}
