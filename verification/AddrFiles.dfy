/** Peer address files: written by the Go node, grouped by peer in the JS node. */
module AddrFiles {
  import opened Text

  const MARK := "/p2p/"

  // --------------------------------------------------------------- Go writer

  datatype Host = Host(id: string, addrs: seq<string>)

  function Line(addr: string, id: string): string { addr + MARK + id }

  function Lines(addrs: seq<string>, id: string): seq<string> {
    seq(|addrs|, i requires 0 <= i < |addrs| => Line(addrs[i], id))
  }

  function Content(h: Host): string { Join(Lines(h.addrs, h.id), "\n") + "\n" }

  method WriteAddrFile(h: Host) returns (content: string)
    ensures content == Content(h)
  {
    var addrs := [];
    for i := 0 to |h.addrs|
      invariant addrs == Lines(h.addrs[..i], h.id)
    {
      addrs := addrs + [h.addrs[i] + "/p2p/" + h.id];
    }
    assert h.addrs[..|h.addrs|] == h.addrs;
    content := Join(addrs, "\n") + "\n";
  }

  // --------------------------------------------------------------- JS reader

  /** White space and line terminators as ECMAScript's `trim` removes them. */
  predicate IsSpace(c: char) {
    || '\t' <= c <= '\r' || c == ' ' || c == '\U{A0}' || c == '\U{1680}'
    || '\U{2000}' <= c <= '\U{200A}' || c == '\U{2028}' || c == '\U{2029}'
    || c == '\U{202F}' || c == '\U{205F}' || c == '\U{3000}' || c == '\U{FEFF}'
  }

  function TrimStart(s: string): string {
    if s != "" && IsSpace(s[0]) then TrimStart(s[1..]) else s
  }

  function TrimEnd(s: string): string {
    if s != "" && IsSpace(s[|s| - 1]) then TrimEnd(s[..|s| - 1]) else s
  }

  function Trim(s: string): string { TrimEnd(TrimStart(s)) }

  datatype DirEntry = File(data: string) | NotAFile

  /** A line filed under a peer id. */
  datatype Filed = Filed(peer: string, line: string)

  function LastPart(line: string): string {
    var parts := SplitOn(line, MARK);
    parts[|parts| - 1]
  }

  function FileLine(line: string): seq<Filed> {
    var trimmed := Trim(line);
    if trimmed == "" || |SplitOn(trimmed, MARK)| < 2 then []
    else [Filed(LastPart(trimmed), trimmed)]
  }

  function FileLines(lines: seq<string>): seq<Filed> {
    if lines == [] then [] else FileLines(lines[..|lines| - 1]) + FileLine(lines[|lines| - 1])
  }

  function FileAll(entries: seq<DirEntry>): seq<Filed> {
    if entries == [] then []
    else
      FileAll(entries[..|entries| - 1])
      + (match entries[|entries| - 1]
         case NotAFile => []
         case File(data) => FileLines(SplitOn(data, "\n")))
  }

  /** The lines filed under `peer`, in order. */
  function LinesOf(filed: seq<Filed>, peer: string): seq<string> {
    if filed == [] then []
    else
      var last := filed[|filed| - 1];
      LinesOf(filed[..|filed| - 1], peer) + (if last.peer == peer then [last.line] else [])
  }

  function Peers(filed: seq<Filed>): set<string> {
    set f | f in filed :: f.peer
  }

  function Group(filed: seq<Filed>): map<string, seq<string>> {
    map peer | peer in Peers(filed) :: LinesOf(filed, peer)
  }

  lemma PeersOneMore(filed: seq<Filed>, f: Filed)
    ensures Peers(filed + [f]) == Peers(filed) + {f.peer}
  {
    assert forall x :: x in filed + [f] <==> x in filed || x == f;
    assert f in filed + [f];
    forall p | p in Peers(filed) ensures p in Peers(filed + [f]) {
      var x :| x in filed && x.peer == p;
      assert x in filed + [f];
    }
  }

  lemma LinesOfOneMore(filed: seq<Filed>, f: Filed, peer: string)
    ensures LinesOf(filed + [f], peer) == LinesOf(filed, peer) + (if f.peer == peer then [f.line] else [])
  {
    assert (filed + [f])[..|filed|] == filed;
  }

  lemma GroupOneMore(filed: seq<Filed>, f: Filed)
    ensures Group(filed + [f])
         == Group(filed)[f.peer := (if f.peer in Group(filed) then Group(filed)[f.peer] else []) + [f.line]]
  {
    PeersOneMore(filed, f);
    var after := Group(filed)[f.peer := (if f.peer in Group(filed) then Group(filed)[f.peer] else []) + [f.line]];
    forall peer | peer in Peers(filed + [f]) ensures Group(filed + [f])[peer] == after[peer] {
      LinesOfOneMore(filed, f, peer);
      if f.peer !in Peers(filed) {
        NothingFiled(filed, f.peer);
      }
    }
  }

  lemma {:induction false} NothingFiled(filed: seq<Filed>, peer: string)
    requires peer !in Peers(filed)
    ensures LinesOf(filed, peer) == []
  {
    if filed != [] {
      assert filed[|filed| - 1] in filed;
      assert forall f :: f in filed[..|filed| - 1] ==> f in filed;
      NothingFiled(filed[..|filed| - 1], peer);
    }
  }

  method ConnectFromDir(entries: seq<DirEntry>) returns (peerAddrs: map<string, seq<string>>)
    ensures peerAddrs == Group(FileAll(entries))
  {
    peerAddrs := map[];
    for e := 0 to |entries|
      invariant peerAddrs == Group(FileAll(entries[..e]))
    {
      assert entries[..e + 1][..e] == entries[..e];
      ghost var filed := FileAll(entries[..e]);
      assert filed + [] == filed;
      match entries[e] {
        case NotAFile =>
          assert FileAll(entries[..e + 1]) == filed;
        case File(data) =>
          assert FileAll(entries[..e + 1]) == filed + FileLines(SplitOn(data, "\n"));
          peerAddrs := GroupLines(SplitOn(data, "\n"), peerAddrs, filed);
      }
    }
    assert entries[..|entries|] == entries;
  }

  /** The inner loop, over the lines of one file. */
  method GroupLines(lines: seq<string>, before: map<string, seq<string>>, ghost filed: seq<Filed>)
    returns (peerAddrs: map<string, seq<string>>)
    requires before == Group(filed)
    ensures peerAddrs == Group(filed + FileLines(lines))
  {
    peerAddrs := before;
    assert filed + [] == filed;
    for l := 0 to |lines|
      invariant peerAddrs == Group(filed + FileLines(lines[..l]))
    {
      ghost var so := filed + FileLines(lines[..l]);
      FileOneMore(filed, lines, l);
      peerAddrs := GroupLine(lines[l], peerAddrs, so);
    }
    assert lines[..|lines|] == lines;
  }

  lemma FileOneMore(filed: seq<Filed>, lines: seq<string>, l: nat)
    requires l < |lines|
    ensures filed + FileLines(lines[..l + 1]) == filed + FileLines(lines[..l]) + FileLine(lines[l])
  {
    assert lines[..l + 1][..l] == lines[..l];
    AppendAssociates(filed, FileLines(lines[..l]), FileLine(lines[l]));
  }

  method GroupLine(line: string, before: map<string, seq<string>>, ghost filed: seq<Filed>)
    returns (peerAddrs: map<string, seq<string>>)
    requires before == Group(filed)
    ensures peerAddrs == Group(filed + FileLine(line))
  {
    assert filed + [] == filed;
    peerAddrs := before;
    var trimmed := Trim(line);
    if trimmed != "" {
      var parts := SplitOn(trimmed, MARK);
      if |parts| >= 2 {
        var peerId := parts[|parts| - 1];
        GroupOneMore(filed, Filed(peerId, trimmed));
        assert FileLine(line) == [Filed(peerId, trimmed)];
        if peerId !in peerAddrs {
          peerAddrs := peerAddrs[peerId := []];
        }
        peerAddrs := peerAddrs[peerId := peerAddrs[peerId] + [trimmed]];
      }
    }
  }

  // ------------------------------------------------- cutting a line at the marks

  predicate EndsWith(s: string, p: string) {
    |p| <= |s| && s[|s| - |p|..] == p
  }

  /** Whether `addr` ends in an odd number of "/p2p" components. */
  predicate OddMarks(addr: string) {
    EndsWith(addr, "/p2p") && !OddMarks(addr[..|addr| - 4])
  }

  lemma MarkEnds(x: string, y: string)
    requires |y| < 4 && EndsWith(x + MARK + y, "/p2p")
    ensures y == "p2p"
  {
    var s := x + MARK + y;
    var t := s[|s| - 4..];
    assert t[1] == s[|s| - 3] && t[2] == s[|s| - 2] && t[3] == s[|s| - 1];
    assert s[|x| + 4] == '/';
    assert y == s[|x| + 5..] == t[1..];
  }

  /** Two "/p2p" components in a row, the second behind a mark, cancel out. */
  lemma Straddled(x: string)
    requires !EndsWith(x, "/p2p")
    ensures !OddMarks(x + MARK + "p2p")
  {
    var s, x' := x + MARK + "p2p", x + "/p2p";
    assert MARK[..4] == "/p2p";
    assert s[..|s| - 4] == x';
    assert x'[..|x'| - 4] == x && x'[|x'| - 4..] == "/p2p";
    assert OddMarks(x');
  }

  lemma TailInside(x: string, y: string)
    ensures |y| >= 4 ==> (EndsWith(x + MARK + y, "/p2p") <==> EndsWith(y, "/p2p"))
  {
    var s := x + MARK + y;
    assert |y| >= 4 ==> s[|s| - 4..] == y[|y| - 4..];
  }

  lemma {:induction false} OddMarksAfter(x: string, y: string)
    requires !EndsWith(x, "/p2p")
    ensures OddMarks(x + MARK + y) == OddMarks(y)
    decreases |y|
  {
    var s := x + MARK + y;
    if EndsWith(y, "/p2p") {
      var y' := y[..|y| - 4];
      assert s[|s| - 4..] == y[|y| - 4..];
      assert s[..|s| - 4] == x + MARK + y';
      OddMarksAfter(x, y');
    } else if EndsWith(s, "/p2p") {
      TailInside(x, y);
      MarkEnds(x, y);
      Straddled(x);
    }
  }

  /** A mark found before the last one ends before it, or shares its slash with it. */
  lemma MarksOverlap(addr: string, id: string, i: nat)
    requires i < |addr| && OccursAt(Line(addr, id), MARK, i)
    ensures i + 5 <= |addr| || (i + 4 == |addr| && addr[i..] == "/p2p")
  {
    var s := Line(addr, id);
    assert s[|addr|] == '/';
    var m := s[i..i + 5];
    assert m == MARK && MARK[..4] == "/p2p";
    if |addr| < i + 5 {
      assert m[|addr| - i] == s[|addr|];
      assert MARK[1] == 'p' && MARK[2] == '2' && MARK[3] == 'p';
      assert |addr| - i == 4;
      assert s[i..|addr|] == addr[i..] && s[i..|addr|] == m[..4];
    }
  }

  lemma NoMark(s: string)
    requires '/' !in s
    ensures SplitOn(s, MARK) == [s]
  {
    forall i | 0 <= i < |s| ensures !OccursAt(s, MARK, i) {
      NoOccurrence(s, MARK, i);
    }
  }

  lemma NoMarkBehindSlash(id: string)
    requires '/' !in id
    ensures SplitOn("p2p/" + id, MARK) == ["p2p/" + id]
  {
    var s := "p2p/" + id;
    forall i | 0 <= i < |s| ensures !OccursAt(s, MARK, i) {
      if i == 3 {
        if |id| > 3 {
          assert s[7] == id[3];
          NoOccurrenceAt(s, MARK, 3, 4);
        }
      } else {
        NoOccurrence(s, MARK, i);
      }
    }
  }

  lemma LastPartAfter(line: string, first: string, rest: string)
    requires SplitOn(line, MARK) == [first] + SplitOn(rest, MARK)
    ensures |SplitOn(line, MARK)| >= 2 && LastPart(line) == LastPart(rest)
  {
  }

  /** The first mark of a written line; no "/p2p" stands right before it. */
  lemma FirstMark(addr: string, id: string) returns (i: nat)
    ensures i <= |addr| && OccursAt(Line(addr, id), MARK, i)
    ensures !EndsWith(addr[..i], "/p2p")
    ensures SplitOn(Line(addr, id), MARK) == [addr[..i]] + SplitOn(Line(addr, id)[i + 5..], MARK)
  {
    var s := Line(addr, id);
    assert OccursAt(s, MARK, |addr|);
    i := FindFrom(s, MARK, 0).value;
    assert s[..i] == addr[..i];
    if i >= 4 {
      assert !OccursAt(s, MARK, i - 4);
      NotRightBefore(s, i);
    }
  }

  lemma NotRightBefore(s: string, i: nat)
    requires 4 <= i && OccursAt(s, MARK, i) && !OccursAt(s, MARK, i - 4)
    ensures !EndsWith(s[..i], "/p2p")
  {
    assert s[i] == s[i..i + 5][0] == '/';
    assert s[i - 4..i + 1] == s[i - 4..i] + "/";
    assert s[..i][i - 4..] == s[i - 4..i];
    assert "/p2p" + "/" == MARK;
  }

  lemma NotOdd(addr: string)
    requires !EndsWith(addr, "/p2p")
    ensures !OddMarks(addr)
  {
  }

  lemma SharedSlash(addr: string, id: string, i: nat)
    requires '/' !in id && i + 4 == |addr| && addr[i..] == "/p2p" && !EndsWith(addr[..i], "/p2p")
    ensures OddMarks(addr) && SplitOn(Line(addr, id)[i + 5..], MARK) == ["p2p/" + id]
  {
    assert addr[|addr| - 4..] == addr[i..];
    NotOdd(addr[..i]);
    assert Line(addr, id)[i + 5..] == "p2p/" + id;
    NoMarkBehindSlash(id);
  }

  lemma MarkInside(addr: string, id: string, i: nat)
    requires i + 5 <= |addr| && OccursAt(Line(addr, id), MARK, i)
    ensures addr == addr[..i] + MARK + addr[i + 5..]
    ensures Line(addr, id)[i + 5..] == Line(addr[i + 5..], id)
  {
    assert addr[i..i + 5] == Line(addr, id)[i..i + 5];
  }

  /** The id read from a line is the id written, exactly when the address does not
      end in an odd number of "/p2p" components. */
  lemma {:induction false} LineRoundTrip(addr: string, id: string)
    requires '/' !in id
    ensures |SplitOn(Line(addr, id), MARK)| >= 2
    ensures LastPart(Line(addr, id)) == if OddMarks(addr) then "p2p/" + id else id
    decreases |addr|
  {
    var i := FirstMark(addr, id);
    var rest := Line(addr, id)[i + 5..];
    LastPartAfter(Line(addr, id), addr[..i], rest);
    if i == |addr| {
      assert addr[..i] == addr && rest == id;
      NotOdd(addr);
      NoMark(id);
    } else {
      MarksOverlap(addr, id, i);
      if i + 5 <= |addr| {
        MarkInside(addr, id, i);
        LineRoundTrip(addr[i + 5..], id);
        OddMarksAfter(addr[..i], addr[i + 5..]);
      } else {
        SharedSlash(addr, id, i);
      }
    }
  }

  // --------------------------------------------------------------- round trip

  predicate Spaceless(s: string) {
    forall i :: 0 <= i < |s| ==> !IsSpace(s[i])
  }

  predicate Writable(h: Host) {
    && Spaceless(h.id) && '/' !in h.id
    && forall i :: 0 <= i < |h.addrs| ==> Spaceless(h.addrs[i])
  }

  function Files(hosts: seq<Host>): seq<DirEntry> {
    seq(|hosts|, i requires 0 <= i < |hosts| => File(Content(hosts[i])))
  }

  /** What each host should be filed as. */
  function FiledHost(addrs: seq<string>, id: string): seq<Filed> {
    seq(|addrs|, i requires 0 <= i < |addrs| =>
      Filed(if OddMarks(addrs[i]) then "p2p/" + id else id, Line(addrs[i], id)))
  }

  function FiledHosts(hosts: seq<Host>): seq<Filed> {
    if hosts == [] then []
    else
      var h := hosts[|hosts| - 1];
      FiledHosts(hosts[..|hosts| - 1]) + FiledHost(h.addrs, h.id)
  }

  lemma LineIsSpaceless(addr: string, id: string)
    requires Spaceless(addr) && Spaceless(id)
    ensures Spaceless(Line(addr, id)) && '\n' !in Line(addr, id) && Trim(Line(addr, id)) == Line(addr, id) != ""
  {
    var s := Line(addr, id);
    assert IsSpace('\n');
    assert s[|addr|] == '/';
    forall i | 0 <= i < |s| ensures !IsSpace(s[i]) {
      if i >= |addr| + 5 {
        assert s[i] == id[i - |addr| - 5];
      } else if i >= |addr| {
        assert s[i] == MARK[i - |addr|];
      }
    }
  }

  lemma FiledHostSplit(addrs: seq<string>, id: string)
    requires addrs != []
    ensures var n := |addrs| - 1;
            FiledHost(addrs, id) == FiledHost(addrs[..n], id)
              + [Filed(if OddMarks(addrs[n]) then "p2p/" + id else id, Line(addrs[n], id))]
  {
  }

  lemma FileWrittenLine(addr: string, id: string)
    requires Spaceless(addr) && Spaceless(id) && '/' !in id
    ensures FileLine(Line(addr, id)) == [Filed(if OddMarks(addr) then "p2p/" + id else id, Line(addr, id))]
  {
    LineIsSpaceless(addr, id);
    LineRoundTrip(addr, id);
  }

  lemma {:induction false} FileWrittenLines(addrs: seq<string>, id: string)
    requires Writable(Host(id, addrs))
    ensures FileLines(Lines(addrs, id)) == FiledHost(addrs, id)
  {
    if addrs != [] {
      var n := |addrs| - 1;
      assert Lines(addrs, id)[..n] == Lines(addrs[..n], id);
      FileWrittenLines(addrs[..n], id);
      FileWrittenLine(addrs[n], id);
      assert FileLines(Lines(addrs, id)) == FiledHost(addrs[..n], id) + FileLine(Line(addrs[n], id));
      FiledHostSplit(addrs, id);
    }
  }

  lemma SplitContent(h: Host)
    requires Writable(h)
    ensures SplitOn(Content(h), "\n") == (if h.addrs == [] then [""] else Lines(h.addrs, h.id)) + [""]
  {
    var lines := if h.addrs == [] then [""] else Lines(h.addrs, h.id);
    JoinAppend(lines, [""], "\n");
    assert Join([""], "\n") == "";
    assert Content(h) == Join(lines + [""], "\n");
    forall i | 0 <= i < |lines| ensures '\n' !in lines[i] {
      if h.addrs != [] {
        LineIsSpaceless(h.addrs[i], h.id);
      }
    }
    SplitJoin(lines + [""], '\n');
  }

  lemma FileBlankEnd(lines: seq<string>)
    ensures FileLines(lines + [""]) == FileLines(lines)
  {
    assert (lines + [""])[..|lines|] == lines;
    assert FileLine("") == [];
  }

  lemma FileWrittenHost(h: Host)
    requires Writable(h)
    ensures FileLines(SplitOn(Content(h), "\n")) == FiledHost(h.addrs, h.id)
  {
    SplitContent(h);
    if h.addrs == [] {
      FileBlankEnd([]);
      assert [] + [""] == [""];
      FileBlankEnd([""]);
    } else {
      FileBlankEnd(Lines(h.addrs, h.id));
      FileWrittenLines(h.addrs, h.id);
    }
  }

  lemma {:induction false} FileWrittenHosts(hosts: seq<Host>)
    requires forall i :: 0 <= i < |hosts| ==> Writable(hosts[i])
    ensures FileAll(Files(hosts)) == FiledHosts(hosts)
  {
    if hosts != [] {
      var n := |hosts| - 1;
      assert Files(hosts)[..n] == Files(hosts[..n]);
      FileWrittenHosts(hosts[..n]);
      FileWrittenHost(hosts[n]);
    }
  }

  /** The lines of every host called `id`, in file order. */
  function WrittenFor(hosts: seq<Host>, id: string): seq<string> {
    if hosts == [] then []
    else
      var h := hosts[|hosts| - 1];
      WrittenFor(hosts[..|hosts| - 1], id) + (if h.id == id then Lines(h.addrs, id) else [])
  }

  function Written(hosts: seq<Host>): map<string, seq<string>> {
    map id | id in Ids(hosts) :: WrittenFor(hosts, id)
  }

  predicate Clean(addrs: seq<string>) {
    forall a :: 0 <= a < |addrs| ==> !OddMarks(addrs[a])
  }

  predicate NoOddMarks(hosts: seq<Host>) {
    forall i :: 0 <= i < |hosts| ==> Clean(hosts[i].addrs)
  }

  lemma {:induction false} LinesOfAppend(a: seq<Filed>, b: seq<Filed>, peer: string)
    ensures LinesOf(a + b, peer) == LinesOf(a, peer) + LinesOf(b, peer)
  {
    if b == [] {
      assert a + b == a;
    } else {
      var n := |b| - 1;
      assert (a + b)[..|a| + n] == a + b[..n];
      LinesOfAppend(a, b[..n], peer);
    }
  }

  lemma {:induction false} LinesOfHost(addrs: seq<string>, id: string, peer: string)
    requires Clean(addrs)
    ensures LinesOf(FiledHost(addrs, id), peer) == if peer == id then Lines(addrs, id) else []
  {
    if addrs != [] {
      var n := |addrs| - 1;
      LinesOfHost(addrs[..n], id, peer);
      HostLinesStep(addrs, id, peer);
      LinesStep(addrs, id);
    }
  }

  lemma LinesStep(addrs: seq<string>, id: string)
    requires addrs != []
    ensures Lines(addrs, id) == Lines(addrs[..|addrs| - 1], id) + [Line(addrs[|addrs| - 1], id)]
  {
  }

  lemma HostLinesStep(addrs: seq<string>, id: string, peer: string)
    requires Clean(addrs) && addrs != []
    ensures var n := |addrs| - 1;
            LinesOf(FiledHost(addrs, id), peer)
            == LinesOf(FiledHost(addrs[..n], id), peer) + (if peer == id then [Line(addrs[n], id)] else [])
  {
    var n := |addrs| - 1;
    assert FiledHost(addrs, id) == FiledHost(addrs[..n], id) + [Filed(id, Line(addrs[n], id))];
    LinesOfOneMore(FiledHost(addrs[..n], id), Filed(id, Line(addrs[n], id)), peer);
  }

  lemma {:induction false} LinesOfHosts(hosts: seq<Host>, peer: string)
    requires NoOddMarks(hosts)
    ensures LinesOf(FiledHosts(hosts), peer) == WrittenFor(hosts, peer)
  {
    if hosts != [] {
      var n := |hosts| - 1;
      var h := hosts[n];
      NoOddMarksPrefix(hosts);
      LinesOfHosts(hosts[..n], peer);
      LinesOfHost(h.addrs, h.id, peer);
      LinesOfAppend(FiledHosts(hosts[..n]), FiledHost(h.addrs, h.id), peer);
    }
  }

  lemma NoOddMarksPrefix(hosts: seq<Host>)
    requires NoOddMarks(hosts) && hosts != []
    ensures NoOddMarks(hosts[..|hosts| - 1])
    ensures Clean(hosts[|hosts| - 1].addrs)
  {
    var n := |hosts| - 1;
    assert forall i :: 0 <= i < n ==> hosts[..n][i] == hosts[i];
  }

  function Ids(hosts: seq<Host>): set<string> {
    set h | h in hosts && h.addrs != [] :: h.id
  }

  lemma {:induction false} PeersAreIds(hosts: seq<Host>)
    requires NoOddMarks(hosts)
    ensures Peers(FiledHosts(hosts)) == Ids(hosts)
  {
    if hosts != [] {
      var n := |hosts| - 1;
      var h := hosts[n];
      NoOddMarksPrefix(hosts);
      PeersAreIds(hosts[..n]);
      PeersAppend(FiledHosts(hosts[..n]), FiledHost(h.addrs, h.id));
      PeersOfHost(h.addrs, h.id);
      assert hosts == hosts[..n] + [h];
      IdsOneMore(hosts[..n], h);
    }
  }

  lemma IdsOneMore(hosts: seq<Host>, h: Host)
    ensures Ids(hosts + [h]) == Ids(hosts) + (if h.addrs != [] then {h.id} else {})
  {
    assert h in hosts + [h];
    forall id | id in Ids(hosts) ensures id in Ids(hosts + [h]) {
      var x :| x in hosts && x.addrs != [] && x.id == id;
      assert x in hosts + [h];
    }
  }

  lemma PeersAppend(a: seq<Filed>, b: seq<Filed>)
    ensures Peers(a + b) == Peers(a) + Peers(b)
  {
    forall p | p in Peers(a) + Peers(b) ensures p in Peers(a + b) {
      var x :| (x in a || x in b) && x.peer == p;
      assert x in a + b;
    }
  }

  lemma PeersOfHost(addrs: seq<string>, id: string)
    requires Clean(addrs)
    ensures Peers(FiledHost(addrs, id)) == if addrs != [] then {id} else {}
  {
    var filed := FiledHost(addrs, id);
    assert forall a :: 0 <= a < |addrs| ==> filed[a].peer == id;
    if addrs != [] {
      assert filed[0] in filed;
    }
  }

  lemma {:induction false} OddLineIsFiled(hosts: seq<Host>, i: nat, a: nat)
    requires i < |hosts| && a < |hosts[i].addrs| && OddMarks(hosts[i].addrs[a])
    ensures Filed("p2p/" + hosts[i].id, Line(hosts[i].addrs[a], hosts[i].id)) in FiledHosts(hosts)
  {
    var n := |hosts| - 1;
    if i == n {
      assert FiledHost(hosts[i].addrs, hosts[i].id)[a] in FiledHosts(hosts);
    } else {
      OddLineIsFiled(hosts[..n], i, a);
    }
  }

  /** Address-file round trip across languages. Reading the files of any hosts
      gives a map whose keys are the ids that have an address and whose values are
      their lines in order, exactly when no address ends in an odd number of
      "/p2p" components; relay addresses, with marks inside, are read back too. */
  lemma AddrFilesRoundTrip(hosts: seq<Host>)
    requires forall i :: 0 <= i < |hosts| ==> Writable(hosts[i])
    ensures Group(FileAll(Files(hosts))) == Written(hosts) <==> NoOddMarks(hosts)
  {
    FileWrittenHosts(hosts);
    var filed := FiledHosts(hosts);
    if NoOddMarks(hosts) {
      PeersAreIds(hosts);
      forall peer | peer in Peers(filed) ensures LinesOf(filed, peer) == WrittenFor(hosts, peer) {
        LinesOfHosts(hosts, peer);
      }
    } else {
      var i :| 0 <= i < |hosts| && !Clean(hosts[i].addrs);
      var a :| 0 <= a < |hosts[i].addrs| && OddMarks(hosts[i].addrs[a]);
      OddKey(hosts, i, a);
    }
  }

  lemma OddKey(hosts: seq<Host>, i: nat, a: nat)
    requires forall k :: 0 <= k < |hosts| ==> Writable(hosts[k])
    requires i < |hosts| && a < |hosts[i].addrs| && OddMarks(hosts[i].addrs[a])
    ensures ("p2p/" + hosts[i].id) in Group(FiledHosts(hosts)) && ("p2p/" + hosts[i].id) !in Written(hosts)
  {
    OddLineIsFiled(hosts, i, a);
    var wrong := "p2p/" + hosts[i].id;
    assert wrong[3] == '/';
    forall h | h in hosts ensures h.id != wrong {
      assert Writable(h);
    }
  }

  /** With distinct ids, each id is mapped to exactly its own host's lines. */
  lemma {:induction false} DistinctIdsKeepTheirLines(hosts: seq<Host>, i: nat)
    requires forall a, b :: 0 <= a < b < |hosts| ==> hosts[a].id != hosts[b].id
    requires i < |hosts|
    ensures WrittenFor(hosts, hosts[i].id) == Lines(hosts[i].addrs, hosts[i].id)
  {
    var n := |hosts| - 1;
    if i < n {
      DistinctIdsKeepTheirLines(hosts[..n], i);
    } else {
      NothingWritten(hosts[..n], hosts[i].id);
    }
  }

  lemma {:induction false} NothingWritten(hosts: seq<Host>, id: string)
    requires forall a :: 0 <= a < |hosts| ==> hosts[a].id != id
    ensures WrittenFor(hosts, id) == []
  {
    if hosts != [] {
      NothingWritten(hosts[..|hosts| - 1], id);
    }
  }

  // ------------------------------------------------------- white space, and junk

  predicate AllSpace(s: string) { forall i :: 0 <= i < |s| ==> IsSpace(s[i]) }

  lemma {:induction false} TrimStartPads(pad: string, s: string)
    requires AllSpace(pad)
    ensures TrimStart(pad + s) == TrimStart(s)
  {
    if pad == "" {
      assert pad + s == s;
    } else {
      assert (pad + s)[1..] == pad[1..] + s;
      TrimStartPads(pad[1..], s);
    }
  }

  lemma {:induction false} TrimEndPads(s: string, pad: string)
    requires AllSpace(pad)
    ensures TrimEnd(s + pad) == TrimEnd(s)
  {
    if pad == "" {
      assert s + pad == s;
    } else {
      var n := |pad| - 1;
      assert (s + pad)[..|s| + n] == s + pad[..n];
      TrimEndPads(s, pad[..n]);
    }
  }

  /** Trimming gives the text back from any padding, when it has none of its own. */
  lemma TrimUndoesPadding(before: string, s: string, after: string)
    requires AllSpace(before) && AllSpace(after)
    requires s != "" ==> !IsSpace(s[0]) && !IsSpace(s[|s| - 1])
    ensures Trim(before + s + after) == s
  {
    assert before + s + after == before + (s + after);
    TrimStartPads(before, s + after);
    if s == "" {
      assert s + after == after + "";
      TrimStartPads(after, "");
    } else {
      assert (s + after)[0] == s[0];
      TrimEndPads(s, after);
    }
  }

  /** A padded line of a written file, carriage returns included, is filed as the
      line itself, whatever white space stands around it. */
  lemma PaddingIsIgnored(before: string, addr: string, id: string, after: string)
    requires AllSpace(before) && AllSpace(after)
    requires Spaceless(addr) && Spaceless(id)
    ensures FileLine(before + Line(addr, id) + after) == FileLine(Line(addr, id))
  {
    LineIsSpaceless(addr, id);
    TrimUndoesPadding(before, Line(addr, id), after);
  }

  /** A blank line, and one without the mark, is not filed at all. */
  lemma JunkIsSkipped(s: string)
    requires AllSpace(s) || forall i :: !OccursAt(Trim(s), MARK, i)
    ensures FileLine(s) == []
  {
    if AllSpace(s) {
      TrimUndoesPadding(s, "", "");
      assert s + "" + "" == s;
    }
  }

  /** The code points ECMAScript trims (WhiteSpace and LineTerminator, sections 12.2
      and 12.3 of ECMA-262): tab to carriage return, the Unicode space separators, the
      two line separators and the byte order mark. */
  lemma SpaceByCode(c: char)
    ensures var n := c as int;
            IsSpace(c) <==> n in {9, 10, 11, 12, 13, 32, 160, 5760, 8192, 8193, 8194, 8195, 8196, 8197, 8198, 8199,
                                  8200, 8201, 8202, 8232, 8233, 8239, 8287, 12288, 65279}
  {
  }
}
