/** The text protocol: a key in decimal, a space, and the text of a line up to its line feed. */
module Wire {
  import opened HeapOrder

  const LF := '\n'
  const SP := ' '
  const NUL := '\0'
  const RD_BUF_SIZE: nat := 1024
  const MAX_INT_STRING_LEN: nat := 5
  const STOP: string := "-1 \n"

  /** A keyed line, as both heaps hold it. */
  type Keyed = Entry<int, string>

  // ----- C strings -----

  /** A C string ends before its first NUL. */
  function CStr(s: string): string {
    if s == "" || s[0] == NUL then "" else [s[0]] + CStr(s[1..])
  }

  lemma {:induction false} CStrWhole(s: string)
    requires NUL !in s
    ensures CStr(s) == s
  {
    if s != "" {
      CStrWhole(s[1..]);
    }
  }

  /** ... and holds nothing of what follows. */
  lemma {:induction false} CStrCut(p: string, q: string)
    requires NUL !in p
    ensures CStr(p + [NUL] + q) == p
  {
    if p == "" {
      assert ("" + [NUL] + q)[0] == NUL;
    } else {
      assert (p + [NUL] + q)[1..] == p[1..] + [NUL] + q;
      CStrCut(p[1..], q);
    }
  }

  // ----- numbers -----

  predicate IsDigit(ch: char) { '0' <= ch <= '9' }

  function DigitChar(d: nat): (ch: char)
    requires d < 10
    ensures IsDigit(ch) && DigitValue(ch) == d
  {
    '0' + d as char
  }

  function DigitValue(ch: char): (d: nat)
    requires IsDigit(ch)
    ensures d < 10
  {
    (ch - '0') as nat
  }

  predicate AllDigits(s: string) {
    forall i :: 0 <= i < |s| ==> IsDigit(s[i])
  }

  /** What "%d" prints for a number that is not negative. */
  function Digits(n: nat): string {
    if n < 10 then [DigitChar(n)] else Digits(n / 10) + [DigitChar(n % 10)]
  }

  /** The number a string of digits stands for. */
  function DecValue(s: string): nat
    requires AllDigits(s)
  {
    if s == "" then 0 else DecValue(s[..|s|-1]) * 10 + DigitValue(s[|s|-1])
  }

  lemma {:induction false} DigitsRoundTrip(n: nat)
    ensures AllDigits(Digits(n)) && DecValue(Digits(n)) == n && Digits(n) != ""
  {
    if n >= 10 {
      DigitsRoundTrip(n / 10);
      assert Digits(n)[..|Digits(n)|-1] == Digits(n / 10);
    }
  }

  /** Printing a number never takes more digits than it was read from. */
  lemma {:induction false} DigitsNoLonger(s: string)
    requires AllDigits(s) && s != ""
    ensures |Digits(DecValue(s))| <= |s|
  {
    var r := s[..|s|-1];
    if r != "" {
      DigitsNoLonger(r);
      assert DecValue(s) / 10 == DecValue(r);
    } else {
      assert DecValue(r) == 0;
    }
  }

  /** White space, as the C library sees it. */
  predicate IsSpace(ch: char) {
    ch == ' ' || ch == '\t' || ch == '\n' || ch == '\r' || ch == 11 as char || ch == 12 as char
  }

  function SkipSpaces(s: string, i: nat): (j: nat)
    requires i <= |s|
    ensures i <= j <= |s|
    decreases |s| - i
  {
    if i < |s| && IsSpace(s[i]) then SkipSpaces(s, i + 1) else i
  }

  /** Accumulate digits from position i on. */
  function ScanDigits(s: string, i: nat, acc: nat): (r: (nat, nat))
    requires i <= |s|
    ensures i <= r.1 <= |s|
    decreases |s| - i
  {
    if i < |s| && IsDigit(s[i]) then ScanDigits(s, i + 1, acc * 10 + DigitValue(s[i])) else (acc, i)
  }

  /** Reading an integer: white space, a sign, digits.  `next` is where reading stopped, and
      `matched` tells whether there was a digit. */
  datatype Scan = Scan(value: int, next: nat, matched: bool)

  function ScanInt(s: string): (r: Scan)
    ensures r.next <= |s|
  {
    var i := SkipSpaces(s, 0);
    var j := if i < |s| && (s[i] == '-' || s[i] == '+') then i + 1 else i;
    var r := ScanDigits(s, j, 0);
    Scan(if i < |s| && s[i] == '-' then 0 - r.0 as int else r.0, r.1, r.1 > j)
  }

  /** atoi. */
  function Atoi(s: string): int { ScanInt(s).value }

  lemma {:induction false} ScanDigitsTo(s: string, i: nat, n: nat)
    requires i <= n <= |s| && AllDigits(s[..n]) && (n < |s| ==> !IsDigit(s[n]))
    ensures AllDigits(s[..i])
    ensures ScanDigits(s, i, DecValue(s[..i])) == (DecValue(s[..n]), n)
    decreases n - i
  {
    assert forall k :: 0 <= k < n ==> s[..n][k] == s[k];
    if i < n {
      assert s[..i + 1][..i] == s[..i];
      ScanDigitsTo(s, i + 1, n);
    }
  }

  /** A string that starts with digits is read up to the first other character. */
  lemma ScanIntDigits(s: string, n: nat)
    requires 1 <= n <= |s| && AllDigits(s[..n]) && (n < |s| ==> !IsDigit(s[n]))
    ensures ScanInt(s) == Scan(DecValue(s[..n]), n, true)
  {
    assert s[..n][0] == s[0];
    assert s[..0] == "";
    ScanDigitsTo(s, 0, n);
  }

  /** White space is exactly the six characters below; it is skipped up to the first other one. */
  lemma {:induction false} SkipSpacesStops(s: string, i: nat)
    requires i <= |s|
    ensures var j := SkipSpaces(s, i);
      && i <= j <= |s|
      && (forall k :: i <= k < j ==> s[k] in " \t\n\r" || s[k] as int == 11 || s[k] as int == 12)
      && (j < |s| ==> s[j] !in " \t\n\r" && s[j] as int != 11 && s[j] as int != 12)
    decreases |s| - i
  {
    if i < |s| && IsSpace(s[i]) {
      SkipSpacesStops(s, i + 1);
    }
  }

  predicate AllSpaces(s: string) {
    forall k :: 0 <= k < |s| ==> IsSpace(s[k])
  }

  lemma {:induction false} SkipSpacesTo(s: string, i: nat, n: nat)
    requires i <= n <= |s| && AllSpaces(s[..n]) && (n < |s| ==> !IsSpace(s[n]))
    ensures SkipSpaces(s, i) == n
    decreases n - i
  {
    if i < n {
      assert IsSpace(s[..n][i]);
      SkipSpacesTo(s, i + 1, n);
    }
  }

  /** An optional sign. */
  predicate IsSign(sign: string) { sign == "" || sign == "-" || sign == "+" }

  /** The digits of t are read up to its first other character, wherever t stands. */
  lemma {:induction false} ScanDigitsBehind(head: string, t: string, i: nat, acc: nat)
    requires i <= |t|
    ensures var r := ScanDigits(t, i, acc); ScanDigits(head + t, |head| + i, acc) == (r.0, |head| + r.1)
    decreases |t| - i
  {
    if i < |t| && IsDigit(t[i]) {
      ScanDigitsBehind(head, t, i + 1, acc * 10 + DigitValue(t[i]));
    }
  }

  /** Neither white space nor a sign in front. */
  predicate Unsigned(t: string) {
    t != "" ==> !IsSpace(t[0]) && t[0] != '-' && t[0] != '+'
  }

  /** Where the number begins: behind the white space and the sign. */
  lemma SignedStart(w: string, sign: string, t: string)
    requires AllSpaces(w) && IsSign(sign)
    requires sign == "" ==> Unsigned(t)
    ensures ScanInt(w + sign + t) ==
      var r := ScanDigits(t, 0, 0);
      Scan(if sign == "-" then 0 - r.0 as int else r.0, |w + sign| + r.1, r.1 > 0)
  {
    hide SkipSpaces, ScanDigits;
    BehindSpaces(w, sign, t);
    ScanDigitsBehind(w + sign, t, 0, 0);
  }

  lemma BehindSpaces(w: string, sign: string, t: string)
    requires AllSpaces(w) && IsSign(sign)
    requires sign == "" ==> Unsigned(t)
    ensures SkipSpaces(w + sign + t, 0) == |w|
    ensures sign + t != "" ==> |w| < |w + sign + t| && (w + sign + t)[|w|] == if sign == "" then t[0] else sign[0]
  {
    hide SkipSpaces;
    var s := w + sign + t;
    assert s[..|w|] == w;
    SkipSpacesTo(s, 0, |w|);
  }

  /** Reading an integer, whatever the input: white space, a sign, and digits are read as the number
      they stand for. */
  lemma ScanIntReads(w: string, sign: string, ds: string, t: string)
    requires AllSpaces(w) && IsSign(sign) && AllDigits(ds) && ds != "" && (t != "" ==> !IsDigit(t[0]))
    ensures ScanInt(w + sign + (ds + t)) ==
      Scan(if sign == "-" then 0 - DecValue(ds) as int else DecValue(ds), |w + sign| + |ds|, true)
  {
    hide ScanInt, ScanDigits, DecValue, AllSpaces, AllDigits, IsSign, IsDigit, Unsigned;
    FirstDigits(ds, t);
    DigitsAreUnsigned(ds, t);
    SignedStart(w, sign, ds + t);
  }

  lemma DigitsAreUnsigned(ds: string, t: string)
    requires AllDigits(ds) && ds != ""
    ensures Unsigned(ds + t)
  {
    assert (ds + t)[0] == ds[0] && IsDigit(ds[0]);
  }

  lemma FirstDigits(ds: string, t: string)
    requires AllDigits(ds) && ds != "" && (t != "" ==> !IsDigit(t[0]))
    ensures ScanDigits(ds + t, 0, 0) == (DecValue(ds), |ds|)
  {
    var u := ds + t;
    assert u[..|ds|] == ds && u[..0] == "";
    ScanDigitsTo(u, 0, |ds|);
  }

  /** Without a digit there is no number; the white space and the sign are consumed. */
  lemma ScanIntMisses(w: string, sign: string, t: string)
    requires AllSpaces(w) && IsSign(sign) && (t != "" ==> !IsDigit(t[0]))
    requires sign == "" ==> Unsigned(t)
    ensures ScanInt(w + sign + t) == Scan(0, |w + sign|, false)
  {
    SignedStart(w, sign, t);
  }

  // ----- lines -----

  /** Where the first ch from position i on is, or the length. */
  function FindFrom(s: string, ch: char, i: nat): (j: nat)
    requires i <= |s|
    ensures i <= j <= |s|
    ensures j < |s| ==> s[j] == ch
    ensures forall k :: i <= k < j ==> s[k] != ch
    decreases |s| - i
  {
    if i == |s| || s[i] == ch then i else FindFrom(s, ch, i + 1)
  }

  /** Where the first ch is, or the length. */
  function Find(s: string, ch: char): (i: nat)
    ensures i <= |s|
    ensures i < |s| ==> s[i] == ch
    ensures forall j :: 0 <= j < i ==> s[j] != ch
  {
    FindFrom(s, ch, 0)
  }

  lemma FindIs(s: string, ch: char, i: nat)
    requires i < |s| && s[i] == ch && forall j :: 0 <= j < i ==> s[j] != ch
    ensures Find(s, ch) == i
  {}

  /** The lines of s that are complete. */
  function Lines(s: string): seq<string> {
    var i := Find(s, LF);
    if i == |s| then [] else [s[..i + 1]] + Lines(s[i + 1..])
  }

  /** What follows the last line feed of s. */
  function Rest(s: string): (r: string)
    ensures |r| <= |s| && Find(r, LF) == |r|
  {
    var i := Find(s, LF);
    if i == |s| then s else Rest(s[i + 1..])
  }

  function Concat(ls: seq<string>): string {
    if ls == [] then "" else ls[0] + Concat(ls[1..])
  }

  /** A line: one line feed, at its end. */
  predicate IsLine(l: string) {
    l != "" && Find(l, LF) == |l| - 1
  }

  lemma ConcatCons(l: string, ls: seq<string>)
    ensures Concat([l] + ls) == l + Concat(ls)
  {
    assert ([l] + ls)[1..] == ls;
  }

  lemma SplitLine(s: string, i: nat)
    requires i < |s| && Find(s, LF) == i
    ensures IsLine(s[..i + 1]) && s == s[..i + 1] + s[i + 1..]
  {
    FindIs(s[..i + 1], LF, i);
  }

  lemma {:induction false} LinesAreLines(s: string, k: nat)
    requires k < |Lines(s)|
    ensures IsLine(Lines(s)[k])
  {
    var i := Find(s, LF);
    if k == 0 {
      SplitLine(s, i);
    } else {
      LinesAreLines(s[i + 1..], k - 1);
    }
  }

  lemma AllLines(s: string)
    ensures forall k :: 0 <= k < |Lines(s)| ==> IsLine(Lines(s)[k])
  {
    forall k | 0 <= k < |Lines(s)| ensures IsLine(Lines(s)[k]) {
      LinesAreLines(s, k);
    }
  }

  lemma PlusAssociates(a: string, b: string, c: string)
    ensures (a + b) + c == a + (b + c)
  {}

  /** A string is its complete lines followed by the rest. */
  lemma {:induction false} LinesJoin(s: string)
    ensures Concat(Lines(s)) + Rest(s) == s
  {
    var i := Find(s, LF);
    if i < |s| {
      var l, r := s[..i + 1], s[i + 1..];
      LinesJoin(r);
      ConcatCons(l, Lines(r));
      PlusAssociates(l, Concat(Lines(r)), Rest(r));
      SplitLine(s, i);
    } else {
      assert "" + s == s;
    }
  }

  /** A line in front is split off. */
  lemma LinesOfLine(l: string, s: string)
    requires IsLine(l)
    ensures Lines(l + s) == [l] + Lines(s) && Rest(l + s) == Rest(s)
  {
    var i := |l| - 1;
    FindIs(l + s, LF, i);
    assert (l + s)[..i + 1] == l && (l + s)[i + 1..] == s;
  }

  /** Splitting is the inverse of concatenating lines, whatever follows them. */
  lemma {:induction false} LinesOfConcat(ls: seq<string>, tail: string)
    requires forall k :: 0 <= k < |ls| ==> IsLine(ls[k])
    ensures Lines(Concat(ls) + tail) == ls + Lines(tail) && Rest(Concat(ls) + tail) == Rest(tail)
  {
    if ls == [] {
      assert "" + tail == tail;
      assert ls + Lines(tail) == Lines(tail);
    } else {
      var l, more := ls[0], ls[1..];
      LinesOfConcat(more, tail);
      PlusAssociates(l, Concat(more), tail);
      LinesOfLine(l, Concat(more) + tail);
      LineFirst(ls, Lines(tail));
    }
  }

  lemma LineFirst(ls: seq<string>, more: seq<string>)
    requires ls != []
    ensures ls + more == [ls[0]] + (ls[1..] + more)
  {}

  /** Splitting a stream is independent of where it is cut: the lines of a + b are the lines of a,
      then the lines of what a left over followed by b. */
  lemma LinesAppend(a: string, b: string)
    ensures Lines(a + b) == Lines(a) + Lines(Rest(a) + b)
    ensures Rest(a + b) == Rest(Rest(a) + b)
  {
    AllLines(a);
    LinesJoin(a);
    LinesOfConcat(Lines(a), Rest(a) + b);
    PlusAssociates(Concat(Lines(a)), Rest(a), b);
  }

  lemma SliceSplit(s: string, i: nat, j: nat)
    requires i <= j <= |s|
    ensures s[..j] == s[..i] + s[i..j]
    ensures s == s[..j] + s[j..]
    ensures s[i..][..j - i] == s[i..j] && s[i..][j - i..] == s[j..]
  {}

  lemma NoLineYet(s: string)
    requires Find(s, LF) == |s|
    ensures Lines(s) == [] && Rest(s) == s
  {}

  // ----- keyed lines -----

  /** What the client sends for an entry: sprintf "%d ", then strcpy of the text. */
  function Encode(e: Keyed): string
    requires e.key >= 0
  {
    Digits(e.key) + [SP] + CStr(e.value)
  }

  /** A text is sent up to its first NUL. */
  lemma EncodesUpToNul(key: nat, p: string, q: string)
    requires NUL !in p
    ensures Encode(Entry(key, p + [NUL] + q)) == Digits(key) + [SP] + p
  {
    CStrCut(p, q);
  }

  /** What the server makes of a line: the key before the first space, the text after it.
      Without a space there is no key. */
  datatype Parsed = NoKey | Parsed(entry: Keyed)

  function ParseLine(l: string): Parsed {
    var i := Find(l, SP);
    if i == |l| then NoKey else Parsed(Entry(Atoi(l[..i]), CStr(l[i + 1..])))
  }

  /** The first space divides: the number at the front is the key, the rest up to a NUL the text. */
  lemma ParsesAtFirstSpace(p: string, q: string)
    requires SP !in p
    ensures ParseLine(p + [SP] + q) == Parsed(Entry(Atoi(p), CStr(q)))
    ensures ParseLine(p) == NoKey
  {
    var l := p + [SP] + q;
    FindIs(l, SP, |p|);
    assert l[..|p|] == p && l[|p| + 1..] == q;
  }

  /** What the client makes of the stream: the line it reads next, the stop message, or no line. */
  datatype ClientRead =
    | EndOfInput
    | Garbled                                    // no digits: the key stays undefined
    | StopRead
    | NoText
    | Got(entry: Keyed, rest: string)

  function ReadKeyed(s: string): ClientRead {
    var r := ScanInt(s);
    if SkipSpaces(s, 0) == |s| then EndOfInput
    else if !r.matched then Garbled
    else if r.value < 0 then StopRead
    else if r.next == |s| || r.next + 1 == |s| then NoText
    else
      var t := s[r.next + 1..];
      var i := Find(t, LF);
      if i == |t| then Got(Entry(r.value, t), "")
      else Got(Entry(r.value, t[..i + 1]), t[i + 1..])
  }

  /** A line the sorter accepts: a key of one to five digits, a space, a text without NUL, a line
      feed; short enough for the read buffer. */
  predicate GoodLine(l: string) {
    && IsLine(l) && |l| <= RD_BUF_SIZE && NUL !in l
    && var i := Find(l, SP);
       1 <= i <= MAX_INT_STRING_LEN && i < |l| && AllDigits(l[..i])
  }

  /** The entry a good line stands for. */
  function EntryOf(l: string): Keyed
    requires GoodLine(l)
  {
    Entry(DecValue(l[..Find(l, SP)]), l[Find(l, SP) + 1..])
  }

  /** An entry as the heaps hold them: a key, and a text that is a line without NUL. */
  predicate GoodEntry(e: Keyed) {
    e.key >= 0 && IsLine(e.value) && NUL !in e.value
  }

  lemma TailIsLine(l: string, i: nat)
    requires IsLine(l) && i < |l| - 1
    ensures IsLine(l[i + 1..])
  {
    FindIs(l[i + 1..], LF, |l| - i - 2);
  }

  lemma EntryOfIsGood(l: string)
    requires GoodLine(l)
    ensures GoodEntry(EntryOf(l))
    ensures |Encode(EntryOf(l))| <= |l|
  {
    var i := Find(l, SP);
    TailIsLine(l, i);
    CStrWhole(l[i + 1..]);
    DigitsNoLonger(l[..i]);
  }

  /** The client reads a good line off the front of its input, whatever follows. */
  lemma ClientReadsLine(l: string, rest: string)
    requires GoodLine(l)
    ensures ReadKeyed(l + rest) == Got(EntryOf(l), rest)
  {
    var s, i := l + rest, Find(l, SP);
    assert s[..i] == l[..i];
    assert s[0] == l[..i][0];
    ScanIntDigits(s, i);
    assert SkipSpaces(s, 0) == 0;
    TailIsLine(l, i);
    var t := s[i + 1..];
    FindIs(t, LF, |l| - i - 2);
    assert t[..|l| - i - 1] == l[i + 1..];
    assert t[|l| - i - 1..] == rest;
  }

  /** The client recognises the stop message. */
  lemma ClientReadsStop(rest: string)
    ensures ReadKeyed(STOP + rest) == StopRead
  {
    var s := STOP + rest;
    assert s[0] == '-' && s[1] == '1' && s[2] == ' ';
    assert ScanDigits(s, 2, 1) == (1, 2);
    assert ScanDigits(s, 1, 0) == ScanDigits(s, 2, 1);
  }

  /** What the client sends for a good entry is a line. */
  lemma EncodeIsLine(e: Keyed)
    requires GoodEntry(e)
    ensures IsLine(Encode(e)) && NUL !in Encode(e)
  {
    DigitsRoundTrip(e.key);
    CStrWhole(e.value);
    var n := |Digits(e.key)|;
    var l := Encode(e);
    assert forall j :: 0 <= j < n ==> l[j] == Digits(e.key)[j];
    assert forall j :: n < j < |l| ==> l[j] == e.value[j - n - 1];
    FindIs(l, LF, |l| - 1);
  }

  /** The wire round trip: the server reads back exactly the entry the client sent. */
  lemma WireRoundTrip(e: Keyed)
    requires GoodEntry(e)
    ensures ParseLine(Encode(e)) == Parsed(e)
  {
    DigitsRoundTrip(e.key);
    CStrWhole(e.value);
    var n := |Digits(e.key)|;
    var l := Encode(e);
    assert forall j :: 0 <= j < n ==> l[j] == Digits(e.key)[j];
    FindIs(l, SP, n);
    assert l[..n] == Digits(e.key) && l[n + 1..] == e.value;
    assert l[..n][..n] == l[..n];
    ScanIntDigits(l[..n], n);
  }

  /** Everything the client sends for a sequence of entries. */
  function EncodeAll(es: seq<Keyed>): string
    requires forall k :: 0 <= k < |es| ==> es[k].key >= 0
  {
    if es == [] then "" else EncodeAll(es[..|es|-1]) + Encode(es[|es|-1])
  }

  /** The client's send buffer, made for lines up to maxLen, holds an encoded entry and its NUL. */
  predicate Fits(e: Keyed, maxLen: nat)
    requires e.key >= 0
  {
    |Encode(e)| + 1 <= MAX_INT_STRING_LEN + maxLen + 1
  }

  /** Every text is shorter than maxLen: what the client knows of the lines it has read. */
  ghost predicate Covers(es: multiset<Keyed>, maxLen: nat) {
    forall e :: e in es ==> |e.value| < maxLen
  }

  /** An entry fits whatever buffers the library returns if and only if its key is at most 99999. */
  lemma SendBufferFitsIff(e: Keyed)
    requires GoodEntry(e)
    ensures (forall maxLen: nat :: |e.value| < maxLen ==> Fits(e, maxLen)) <==> e.key <= 99999
  {
    DigitCount(e.key, 5);
    CStrWhole(e.value);
    if e.key > 99999 {
      assert !Fits(e, |e.value| + 1);
    }
  }

  /** The shortest line with the key 100000 overflows the buffer made for it. */
  lemma SendBufferOverflows() returns (e: Keyed, maxLen: nat)
    ensures GoodEntry(e) && e.key == 100000
    ensures Covers(multiset{e}, maxLen) && !Fits(e, maxLen)
  {
    e, maxLen := Entry(100000, [LF]), 2;
    FindIs(e.value, LF, 0);
    DigitCount(e.key, 5);
    CStrWhole(e.value);
  }

  /** The entry fits the buffer that some line read has at least made room for. */
  ghost predicate HasRoom(e: Keyed, es: multiset<Keyed>)
    requires e.key >= 0
  {
    exists f :: f in es && Fits(e, |f.value| + 1)
  }

  ghost predicate BufferSuffices(es: multiset<Keyed>) {
    forall e :: e in es ==> e.key >= 0 && HasRoom(e, es)
  }

  lemma {:induction false} LongestText(es: multiset<Keyed>) returns (f: Keyed)
    requires es != multiset{}
    ensures f in es && Covers(es, |f.value| + 1)
    decreases |es|
  {
    var x :| x in es;
    f := x;
    var rest := es - multiset{x};
    if rest != multiset{} {
      var y := LongestText(rest);
      f := if |x.value| < |y.value| then y else x;
      forall e | e in es ensures |e.value| <= |f.value| {
        assert e == x || e in rest;
      }
    } else {
      assert es == multiset{x};
    }
  }

  /** Every entry can be sent through the buffer made for maxLen. */
  ghost predicate Sendable(es: multiset<Keyed>, maxLen: nat) {
    forall e :: e in es ==> e.key >= 0 && Fits(e, maxLen)
  }

  lemma FitsLonger(e: Keyed, m: nat, n: nat)
    requires e.key >= 0 && m <= n && Fits(e, m)
    ensures Fits(e, n)
  {}

  lemma RoomIsEnough(e: Keyed, es: multiset<Keyed>, maxLen: nat)
    requires e.key >= 0 && HasRoom(e, es) && Covers(es, maxLen)
    ensures Fits(e, maxLen)
  {
    hide Fits;
    var f :| f in es && Fits(e, |f.value| + 1);
    FitsLonger(e, |f.value| + 1, maxLen);
  }

  /** The client can send all it has read, whatever buffers the library returns, if and only if
      each entry fits the buffer of some line. */
  lemma BufferSufficesIff(es: multiset<Keyed>)
    ensures BufferSuffices(es) <==> forall maxLen: nat :: Covers(es, maxLen) ==> Sendable(es, maxLen)
  {
    hide Fits, HasRoom;
    if BufferSuffices(es) {
      forall maxLen: nat, e | Covers(es, maxLen) && e in es ensures Fits(e, maxLen) {
        RoomIsEnough(e, es, maxLen);
      }
    } else {
      var e :| e in es && !(e.key >= 0 && HasRoom(e, es));
      var f := LongestText(es);
      if e.key >= 0 && Fits(e, |f.value| + 1) { RoomOf(e, f, es); }
      assert !Sendable(es, |f.value| + 1);
    }
  }

  lemma RoomOf(e: Keyed, f: Keyed, es: multiset<Keyed>)
    requires e.key >= 0 && f in es && Fits(e, |f.value| + 1)
    ensures HasRoom(e, es)
  {}

  function Power10(n: nat): nat { if n == 0 then 1 else 10 * Power10(n - 1) }

  lemma {:induction false} PowerAtLeastTen(n: nat)
    requires 1 <= n
    ensures Power10(n) >= 10
  {
    if n > 1 { PowerAtLeastTen(n - 1); }
  }

  lemma {:induction false} DigitCount(key: nat, n: nat)
    requires 1 <= n
    ensures |Digits(key)| <= n <==> key < Power10(n)
  {
    if n == 1 {
      assert key >= 10 ==> |Digits(key / 10)| >= 1 by {
        DigitsRoundTrip(key / 10);
      }
    } else {
      PowerAtLeastTen(n - 1);
      if key >= 10 { DigitCount(key / 10, n - 1); }
    }
  }
}
