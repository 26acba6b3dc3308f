/** Which addresses the JS tracker takes for external, in terms of octets. */
module Externals {
  import opened Text
  import opened Trackers

  const IP4 := "/ip4/"

  /** Four texts joined by dots. */
  function Quad(p1: string, p2: string, p3: string, p4: string): string {
    p1 + "." + p2 + "." + p3 + "." + p4
  }

  function QuadOf(a: nat, b: nat, c: nat, d: nat): string {
    Quad(Decimal(a), Decimal(b), Decimal(c), Decimal(d))
  }

  predicate Octets(p1: string, p2: string, p3: string, p4: string) {
    IsDigits(p1) && IsDigits(p2) && IsDigits(p3) && IsDigits(p4)
  }

  // ------------------------------------------------------------ finding a quad

  lemma {:induction false} SkipsRun(s: string, i: nat, run: string)
    requires i + |run| <= |s| && s[i..i + |run|] == run && forall k :: 0 <= k < |run| ==> IsDigit(run[k])
    requires i + |run| < |s| ==> !IsDigit(s[i + |run|])
    ensures SkipDigits(s, i) == i + |run|
    decreases |run|
  {
    if run != "" {
      assert s[i] == s[i..i + |run|][0] == run[0];
      assert s[i + 1..i + |run|] == run[1..];
      SkipsRun(s, i + 1, run[1..]);
    }
  }

  /** A run of digits at `i`, then a character that is none. */
  predicate RunAt(s: string, i: nat, run: string, c: char) {
    IsDigits(run) && !IsDigit(c) && i + |run| < |s| && s[i..i + |run|] == run && s[i + |run|] == c
  }

  lemma QuadEndLast(s: string, i: nat, run: string)
    requires RunAt(s, i, run, '/')
    ensures QuadEnd(s, i, 1) == Some(i + |run|)
  {
    SkipsRun(s, i, run);
  }

  lemma QuadEndNext(s: string, i: nat, run: string, parts: nat)
    requires RunAt(s, i, run, '.') && parts > 1
    ensures QuadEnd(s, i, parts) == QuadEnd(s, i + |run| + 1, parts - 1)
  {
    SkipsRun(s, i, run);
  }

  lemma RunInside(before: string, run: string, c: char, after: string)
    requires IsDigits(run) && !IsDigit(c)
    ensures RunAt(before + run + [c] + after, |before|, run, c)
  {
  }

  function Around(before: string, ip: string, rest: string): string { before + ip + "/" + rest }

  lemma CutFirst(before: string, p: string, tail: string, rest: string)
    requires IsDigits(p)
    ensures var s := Around(before, p + "." + tail, rest);
            && s == Around(before + p + ".", tail, rest)
            && RunAt(s, |before|, p, '.')
  {
    RunInside(before, p, '.', tail + "/" + rest);
    assert !IsDigit('.');
    assert Around(before, p + "." + tail, rest) == before + p + ['.'] + (tail + "/" + rest);
  }

  lemma CutLast(before: string, p: string, rest: string)
    requires IsDigits(p)
    ensures RunAt(Around(before, p, rest), |before|, p, '/')
  {
    RunInside(before, p, '/', rest);
    assert !IsDigit('/');
  }

  /** One run of digits less to go. */
  lemma QuadEndStep(before: string, p: string, tail: string, rest: string, parts: nat)
    requires IsDigits(p) && parts > 1
    ensures QuadEnd(Around(before, p + "." + tail, rest), |before|, parts)
         == QuadEnd(Around(before + p + ".", tail, rest), |before + p + "."|, parts - 1)
  {
    CutFirst(before, p, tail, rest);
    QuadEndNext(Around(before, p + "." + tail, rest), |before|, p, parts);
  }

  lemma {:induction false} QuadEndIs(before: string, ps: seq<string>, rest: string)
    requires ps != [] && forall k :: 0 <= k < |ps| ==> IsDigits(ps[k])
    ensures QuadEnd(Around(before, Join(ps, "."), rest), |before|, |ps|) == Some(|before| + |Join(ps, ".")|)
    decreases |ps|
  {
    var p := ps[0];
    if |ps| == 1 {
      CutLast(before, p, rest);
      QuadEndLast(Around(before, p, rest), |before|, p);
    } else {
      QuadEndStep(before, p, Join(ps[1..], "."), rest, |ps|);
      QuadEndIs(before + p + ".", ps[1..], rest);
    }
  }

  lemma Ip4IsQuad(p1: string, p2: string, p3: string, p4: string, rest: string)
    requires Octets(p1, p2, p3, p4)
    ensures Ip4Of(IP4 + Quad(p1, p2, p3, p4) + "/" + rest, 0) == Some(Quad(p1, p2, p3, p4))
  {
    var ip := Quad(p1, p2, p3, p4);
    JoinFour([p1, p2, p3, p4]);
    QuadEndIs(IP4, [p1, p2, p3, p4], rest);
    Ip4AtStart(ip, rest);
  }

  lemma Ip4AtStart(ip: string, rest: string)
    requires QuadEnd(IP4 + ip + "/" + rest, 5, 4) == Some(5 + |ip|)
    ensures Ip4Of(IP4 + ip + "/" + rest, 0) == Some(ip)
  {
    var s := IP4 + ip + "/" + rest;
    assert s[0..5] == IP4 && s[5..5 + |ip|] == ip;
  }

  // ------------------------------------------------------------ what it begins with

  /** Digits and a dot begin a text of digits, a dot and more only if they are those digits. */
  lemma FirstPart(n: string, p: string, more: string)
    requires IsDigits(n) && IsDigits(p)
    ensures n + "." <= p + "." + more <==> n == p
  {
    var s := p + "." + more;
    assert !IsDigit('.');
    assert s[0..|p|] == p && s[|p|] == '.';
    SkipsRun(s, 0, p);
    if n + "." <= s {
      assert (n + ".")[|n|] == '.' && s[..|n| + 1] == n + ".";
      assert s[0..|n|] == n;
      SkipsRun(s, 0, n);
    }
  }

  lemma FirstTwoParts(n: string, m: string, p: string, q: string, more: string)
    requires IsDigits(n) && IsDigits(m) && IsDigits(p) && IsDigits(q)
    ensures n + "." + m + "." <= p + "." + (q + "." + more) <==> n == p && m == q
  {
    var s := p + "." + (q + "." + more);
    if n + "." + m + "." <= s {
      assert (n + "." + m + ".")[..|n| + 1] == n + ".";
      FirstPart(n, p, q + "." + more);
      assert s[|p| + 1..] == q + "." + more && (n + "." + m + ".")[|n| + 1..] == m + ".";
      FirstPart(m, q, more);
    }
    if n == p && m == q {
      assert s == n + "." + m + "." + more;
    }
  }

  /** A private address range, by its leading octets as they are written. */
  predicate PrivateText(p1: string, p2: string) {
    || p1 == "0" || p1 == "10" || p1 == "127"
    || (p1 == "192" && p2 == "168")
    || (p1 == "169" && p2 == "254")
  }

  /** Any address that begins with a dotted quad is external exactly when the quad
      is in none of the private ranges. */
  lemma ExternalByText(p1: string, p2: string, p3: string, p4: string, rest: string)
    requires Octets(p1, p2, p3, p4)
    ensures IsExternalAddr(IP4 + Quad(p1, p2, p3, p4) + "/" + rest) <==> !PrivateText(p1, p2)
  {
    Ip4IsQuad(p1, p2, p3, p4, rest);
    QuadNested(p1, p2, p3, p4);
    PrivateRanges(p1, p2, p3 + "." + p4);
    ExternalByIp(IP4 + Quad(p1, p2, p3, p4) + "/" + rest, Quad(p1, p2, p3, p4));
  }

  lemma QuadNested(p1: string, p2: string, p3: string, p4: string)
    ensures Quad(p1, p2, p3, p4) == p1 + "." + (p2 + "." + (p3 + "." + p4))
  {
  }

  lemma ExternalByIp(addr: string, ip: string)
    requires Ip4Of(addr, 0) == Some(ip)
    ensures IsExternalAddr(addr)
       <==> !("127." <= ip || "10." <= ip || "0." <= ip || "192.168." <= ip || "169.254." <= ip)
  {
  }

  lemma PrivateRanges(p: string, q: string, more: string)
    requires IsDigits(p) && IsDigits(q)
    ensures var ip := p + "." + (q + "." + more);
            && ("127." <= ip <==> p == "127") && ("10." <= ip <==> p == "10") && ("0." <= ip <==> p == "0")
            && ("192.168." <= ip <==> p == "192" && q == "168")
            && ("169.254." <= ip <==> p == "169" && q == "254")
  {
    WholeRanges(p, q + "." + more);
    HalfRanges(p, q, more);
  }

  lemma WholeRanges(p: string, more: string)
    requires IsDigits(p)
    ensures var ip := p + "." + more;
            ("127." <= ip <==> p == "127") && ("10." <= ip <==> p == "10") && ("0." <= ip <==> p == "0")
  {
    assert "127" + "." == "127." && "10" + "." == "10." && "0" + "." == "0.";
    FirstPart("127", p, more);
    FirstPart("10", p, more);
    FirstPart("0", p, more);
  }

  lemma HalfRanges(p: string, q: string, more: string)
    requires IsDigits(p) && IsDigits(q)
    ensures var ip := p + "." + (q + "." + more);
            && ("192.168." <= ip <==> p == "192" && q == "168")
            && ("169.254." <= ip <==> p == "169" && q == "254")
  {
    assert "192" + "." + "168" + "." == "192.168." && "169" + "." + "254" + "." == "169.254.";
    FirstTwoParts("192", "168", p, q, more);
    FirstTwoParts("169", "254", p, q, more);
  }

  // ---------------------------------------------------------------- by number

  lemma DecimalIs(a: nat, n: nat)
    ensures Decimal(a) == Decimal(n) <==> a == n
  {
    DecimalNat(a);
    DecimalNat(n);
  }

  lemma Spelled()
    ensures Decimal(0) == "0" && Decimal(10) == "10" && Decimal(127) == "127"
    ensures Decimal(192) == "192" && Decimal(168) == "168" && Decimal(169) == "169" && Decimal(254) == "254"
  {
    assert Decimal(1) == "1" && Decimal(12) == "12" && Decimal(19) == "19" && Decimal(16) == "16";
    assert Decimal(2) == "2" && Decimal(25) == "25";
  }

  predicate Private(a: nat, b: nat) {
    a == 0 || a == 10 || a == 127 || (a == 192 && b == 168) || (a == 169 && b == 254)
  }

  /** The same over octets. */
  lemma ExternalByOctets(a: nat, b: nat, c: nat, d: nat, rest: string)
    ensures IsExternalAddr(IP4 + QuadOf(a, b, c, d) + "/" + rest) <==> !Private(a, b)
  {
    ExternalByText(Decimal(a), Decimal(b), Decimal(c), Decimal(d), rest);
    Spelled();
    DecimalIs(a, 0);
    DecimalIs(a, 10);
    DecimalIs(a, 127);
    DecimalIs(a, 192);
    DecimalIs(b, 168);
    DecimalIs(a, 169);
    DecimalIs(b, 254);
  }

  // ------------------------------------------------------ nothing without a quad

  lemma {:induction false} RunFound(s: string, i: nat)
    requires i <= |s|
    ensures forall k :: i <= k < SkipDigits(s, i) ==> IsDigit(s[k])
    decreases |s| - i
  {
    if i < |s| && IsDigit(s[i]) {
      RunFound(s, i + 1);
    }
  }

  /** Digit runs `ps`, joined by dots, between `i` and `end`. */
  predicate Dotted(s: string, i: nat, ps: seq<string>, end: nat) {
    && i <= end <= |s|
    && (forall k :: 0 <= k < |ps| ==> IsDigits(ps[k]))
    && s[i..end] == Join(ps, ".")
  }

  lemma {:induction false} QuadFound(s: string, i: nat, parts: nat) returns (ps: seq<string>)
    requires i <= |s| && QuadEnd(s, i, parts).Some?
    ensures |ps| == parts && Dotted(s, i, ps, QuadEnd(s, i, parts).value)
    ensures s[QuadEnd(s, i, parts).value] == '/'
    decreases parts
  {
    var j := SkipDigits(s, i);
    RunFound(s, i);
    var run := s[i..j];
    assert IsDigits(run);
    if parts == 1 {
      ps := [run];
    } else {
      var rest := QuadFound(s, j + 1, parts - 1);
      var end := QuadEnd(s, i, parts).value;
      ps := [run] + rest;
      assert s[i..end] == run + "." + s[j + 1..end];
      assert ps[1..] == rest;
    }
  }

  lemma {:induction false} Ip4Found(addr: string, i: nat) returns (k: nat, ps: seq<string>)
    requires Ip4Of(addr, i).Some?
    ensures OccursAt(addr, IP4, k) && |ps| == 4 && forall q :: 0 <= q < 4 ==> IsDigits(ps[q])
    ensures exists end :: k + 5 <= end < |addr| && addr[k + 5..end] == Join(ps, ".") && addr[end] == '/'
    decreases |addr| - i
  {
    if OccursAt(addr, IP4, i) && QuadEnd(addr, i + 5, 4).Some? {
      k := i;
      ps := QuadFound(addr, i + 5, 4);
    } else {
      k, ps := Ip4Found(addr, i + 1);
    }
  }

  /** An external address holds a dotted quad between "/ip4/" and a slash. */
  lemma ExternalHasQuad(addr: string) returns (before: string, p1: string, p2: string, p3: string, p4: string, rest: string)
    requires IsExternalAddr(addr)
    ensures Octets(p1, p2, p3, p4) && addr == before + IP4 + Quad(p1, p2, p3, p4) + "/" + rest
  {
    var k, ps := Ip4Found(addr, 0);
    var end :| k + 5 <= end < |addr| && addr[k + 5..end] == Join(ps, ".") && addr[end] == '/';
    before, p1, p2, p3, p4, rest := addr[..k], ps[0], ps[1], ps[2], ps[3], addr[end + 1..];
    JoinFour(ps);
    assert addr == addr[..k] + addr[k..k + 5] + addr[k + 5..end] + [addr[end]] + addr[end + 1..];
  }

  lemma JoinFour(ps: seq<string>)
    requires |ps| == 4
    ensures Join(ps, ".") == Quad(ps[0], ps[1], ps[2], ps[3])
  {
    assert ps[1..][1..] == ps[2..] && ps[2..][1..] == ps[3..] && ps[3..] == [ps[3]];
    assert Join(ps[3..], ".") == ps[3];
    assert Join(ps[2..], ".") == ps[2] + "." + ps[3];
    assert Join(ps[1..], ".") == ps[1] + "." + (ps[2] + "." + ps[3]);
  }

  // ------------------------------------------------------------ tracker runs

  /** No address of a private range is ever reported by the JS tracker, neither held
      as reachable nor in any span it emitted. */
  lemma NoPrivateIsReported(t: PeerTracker, a: nat, b: nat, c: nat, d: nat, rest: string)
    requires t.Valid() && Private(a, b)
    ensures var addr := IP4 + QuadOf(a, b, c, d) + "/" + rest;
            && addr !in t.reachableAddrs && addr !in t.unreachableAddrs
            && forall i :: 0 <= i < |t.emitted| ==>
                 addr !in t.emitted[i].reachable && addr !in t.emitted[i].unreachable
  {
    ExternalByOctets(a, b, c, d, rest);
    AllReportedExternal(t);
  }

  /** Whatever the tracker holds or ever emitted is external. */
  lemma AllReportedExternal(t: PeerTracker)
    requires t.Valid()
    ensures forall x :: x in t.reachableAddrs || x in t.unreachableAddrs ==> IsExternalAddr(x)
    ensures forall i, x :: 0 <= i < |t.emitted| && (x in t.emitted[i].reachable || x in t.emitted[i].unreachable)
              ==> IsExternalAddr(x)
  {
    ReportsAlternate(t.updates);
    CurrentIsEver(t.updates);
    forall x | x in t.reachableAddrs || x in t.unreachableAddrs ensures IsExternalAddr(x) {
      assert x in Elements(t.reachableAddrs) || x in Elements(t.unreachableAddrs);
      assert x in Ever(t.updates);
    }
    forall i, x | 0 <= i < |t.emitted| && (x in t.emitted[i].reachable || x in t.emitted[i].unreachable)
      ensures IsExternalAddr(x)
    {
      assert x in Elements(t.emitted[i].reachable) || x in Elements(t.emitted[i].unreachable);
      assert x in Reports(t.updates)[i].reachable + Reports(t.updates)[i].unreachable;
      assert x in Ever(t.updates);
    }
  }
}
