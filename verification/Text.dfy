/** The string operations the testbed's scripts rely on: leftmost search, split,
    join, deletion of a substring, and decimal printing and parsing. */
module Text {

  datatype Option<+T> = None | Some(value: T) {
    function GetOr(default: T): T {
      match this
      case None => default
      case Some(v) => v
    }
  }

  // ------------------------------------------------------------------ search

  lemma HeadOfAppend<T>(a: seq<T>, b: seq<T>)
    requires a != []
    ensures a + b != [] && (a + b)[0] == a[0] && (a + b)[1..] == a[1..] + b
  {
  }

  lemma AppendAssociates<T>(a: seq<T>, b: seq<T>, c: seq<T>)
    ensures a + (b + c) == (a + b) + c
  {
  }

  predicate OccursAt(s: string, p: string, i: int) {
    0 <= i && i + |p| <= |s| && s[i..i + |p|] == p
  }

  /** The leftmost occurrence of `p` in `s` at or after `i`. */
  function FindFrom(s: string, p: string, i: nat): (r: Option<nat>)
    ensures r.Some? ==> i <= r.value && OccursAt(s, p, r.value)
    ensures r.Some? ==> forall j :: i <= j < r.value ==> !OccursAt(s, p, j)
    ensures r.None? ==> forall j :: i <= j ==> !OccursAt(s, p, j)
    decreases |s| - i
  {
    if |s| < i + |p| then None
    else if OccursAt(s, p, i) then Some(i)
    else FindFrom(s, p, i + 1)
  }

  predicate Contains(s: string, p: string) {
    FindFrom(s, p, 0).Some?
  }

  // ---------------------------------------------------------- split and join

  /** Cut `s` at the leftmost non-overlapping occurrences of `p`. */
  function SplitOn(s: string, p: string): (parts: seq<string>)
    requires p != ""
    ensures |parts| >= 1
    decreases |s|
  {
    match FindFrom(s, p, 0)
    case None => [s]
    case Some(i) => [s[..i]] + SplitOn(s[i + |p|..], p)
  }

  function Join(parts: seq<string>, sep: string): string {
    if parts == [] then ""
    else if |parts| == 1 then parts[0]
    else parts[0] + sep + Join(parts[1..], sep)
  }

  /** `s` with every occurrence of `p` deleted. */
  function Delete(s: string, p: string): string
    requires p != ""
  {
    Join(SplitOn(s, p), "")
  }

  lemma NoOccurrenceAt(s: string, p: string, i: nat, k: nat)
    requires k < |p| && i + k < |s| && s[i + k] != p[k]
    ensures !OccursAt(s, p, i)
  {
    if i + |p| <= |s| {
      assert s[i..i + |p|][k] == s[i + k];
    }
  }

  lemma NoOccurrence(s: string, p: string, i: nat)
    requires p != "" && i < |s| && s[i] != p[0]
    ensures !OccursAt(s, p, i)
  {
    NoOccurrenceAt(s, p, i, 0);
  }

  lemma SplitHead(a: string, p: string, rest: string)
    requires p != ""
    requires forall i :: 0 <= i < |a| ==> !OccursAt(a + p + rest, p, i)
    ensures SplitOn(a + p + rest, p) == [a] + SplitOn(rest, p)
  {
    var s := a + p + rest;
    assert OccursAt(s, p, |a|);
    assert s[|a| + |p|..] == rest && s[..|a|] == a;
  }

  lemma SplitToken(a: string, c: char, rest: string)
    requires c !in a
    ensures SplitOn(a + [c] + rest, [c]) == [a] + SplitOn(rest, [c])
  {
    var s := a + [c] + rest;
    forall i | 0 <= i < |a| ensures !OccursAt(s, [c], i) {
      NoOccurrence(s, [c], i);
    }
    SplitHead(a, [c], rest);
  }

  lemma SplitNone(a: string, c: char)
    requires c !in a
    ensures SplitOn(a, [c]) == [a]
  {
    forall i | 0 <= i < |a| ensures !OccursAt(a, [c], i) {
      NoOccurrence(a, [c], i);
    }
  }

  lemma {:induction false} SplitJoin(parts: seq<string>, c: char)
    requires |parts| >= 1
    requires forall i :: 0 <= i < |parts| ==> c !in parts[i]
    ensures SplitOn(Join(parts, [c]), [c]) == parts
  {
    if |parts| == 1 {
      SplitNone(parts[0], c);
    } else {
      SplitToken(parts[0], c, Join(parts[1..], [c]));
      SplitJoin(parts[1..], c);
    }
  }

  lemma {:induction false} JoinAppend(a: seq<string>, b: seq<string>, sep: string)
    requires a != [] && b != []
    ensures Join(a + b, sep) == Join(a, sep) + sep + Join(b, sep)
  {
    if |a| == 1 {
      assert (a + b)[1..] == b;
    } else {
      assert (a + b)[1..] == a[1..] + b;
      JoinAppend(a[1..], b, sep);
    }
  }

  /** Joining an already joined group inside a list is joining the flat list. */
  lemma JoinNested(xs: seq<string>, ys: seq<string>, zs: seq<string>, sep: string)
    requires ys != []
    ensures Join(xs + [Join(ys, sep)] + zs, sep) == Join(xs + ys + zs, sep)
  {
    var y := [Join(ys, sep)];
    assert Join(y, sep) == Join(ys, sep);
    assert xs + y + zs == xs + (y + zs) && xs + ys + zs == xs + (ys + zs);
    if zs != [] {
      JoinAppend(y, zs, sep);
      JoinAppend(ys, zs, sep);
    } else {
      assert y + zs == y && ys + zs == ys;
    }
    if xs != [] {
      JoinAppend(xs, y + zs, sep);
      JoinAppend(xs, ys + zs, sep);
    } else {
      assert xs + (y + zs) == y + zs && xs + (ys + zs) == ys + zs;
    }
  }

  lemma {:induction false} JoinChars(parts: seq<string>, sep: string, c: char)
    requires c !in sep
    requires forall i :: 0 <= i < |parts| ==> c !in parts[i]
    ensures c !in Join(parts, sep)
  {
    if |parts| > 1 {
      JoinChars(parts[1..], sep, c);
    }
  }

  lemma OccursShift(a: string, s: string, b: string, p: string, i: nat)
    requires OccursAt(s, p, i)
    ensures OccursAt(a + s + b, p, |a| + i)
  {
    assert (a + s + b)[|a| + i..|a| + i + |p|] == s[i..i + |p|];
  }

  lemma {:induction false} JoinContains(parts: seq<string>, sep: string, k: nat, p: string)
    requires k < |parts| && p <= parts[k]
    ensures Contains(Join(parts, sep), p)
  {
    assert OccursAt(parts[k], p, 0);
    if |parts| == 1 {
    } else if k == 0 {
      var tail := sep + Join(parts[1..], sep);
      OccursShift("", parts[0], tail, p, 0);
      assert "" + parts[0] + tail == Join(parts, sep);
    } else {
      JoinContains(parts[1..], sep, k - 1, p);
      var tail := Join(parts[1..], sep);
      var i := FindFrom(tail, p, 0).value;
      OccursShift(parts[0] + sep, tail, "", p, i);
      assert parts[0] + sep + tail + "" == Join(parts, sep);
    }
  }

  /** A suffix that starts with a character foreign to the body is cut off exactly. */
  lemma DeleteSuffix(s: string, suffix: string)
    requires suffix != "" && suffix[0] !in s
    ensures Delete(s + suffix, suffix) == s
  {
    var t := s + suffix + "";
    assert t == s + suffix;
    forall i | 0 <= i < |s| ensures !OccursAt(t, suffix, i) {
      NoOccurrence(t, suffix, i);
    }
    SplitHead(s, suffix, "");
    assert SplitOn("", suffix) == [""];
    assert Join([s, ""], "") == s + "" + Join([s, ""][1..], "");
  }

  lemma DeletePrefix(p: string, s: string)
    requires p != "" && p[0] !in s
    ensures Delete(p + s, p) == s
  {
    assert "" + p + s == p + s;
    SplitHead("", p, s);
    forall i | 0 <= i < |s| ensures !OccursAt(s, p, i) {
      NoOccurrence(s, p, i);
    }
    assert SplitOn(s, p) == [s];
    assert Join(["", s], "") == "" + "" + Join(["", s][1..], "");
  }

  // ------------------------------------------------------------ decimal text

  predicate IsDigit(c: char) { '0' <= c <= '9' }

  /** Python's `str.isdigit` on ASCII text. */
  predicate IsDigits(s: string) {
    s != "" && forall i :: 0 <= i < |s| ==> IsDigit(s[i])
  }

  function DigitChar(d: nat): (c: char)
    requires d < 10
    ensures IsDigit(c)
  {
    (d + 48) as char
  }

  function Decimal(n: nat): (s: string)
    ensures IsDigits(s)
  {
    if n < 10 then [DigitChar(n)] else Decimal(n / 10) + [DigitChar(n % 10)]
  }

  function DecimalInt(n: int): string {
    if n < 0 then "-" + Decimal(-n) else Decimal(n)
  }

  function DigitValue(c: char): nat
    requires IsDigit(c)
  {
    c as int - 48
  }

  function NatOf(s: string): nat
    requires forall i :: 0 <= i < |s| ==> IsDigit(s[i])
  {
    if s == "" then 0
    else NatOf(s[..|s| - 1]) * 10 + DigitValue(s[|s| - 1])
  }

  /** `int(text)`: an optional sign and at least one digit; anything else raises. */
  function ParseInt(s: string): Option<int> {
    if IsDigits(s) then Some(NatOf(s))
    else if s != "" && s[0] == '-' && IsDigits(s[1..]) then Some(-(NatOf(s[1..]) as int))
    else if s != "" && s[0] == '+' && IsDigits(s[1..]) then Some(NatOf(s[1..]))
    else None
  }

  lemma {:induction false} DecimalNat(n: nat)
    ensures NatOf(Decimal(n)) == n
  {
    if n >= 10 {
      DecimalNat(n / 10);
      var s := Decimal(n);
      assert s[..|s| - 1] == Decimal(n / 10);
    } else {
      assert Decimal(n)[..0] == "";
    }
  }

  /** Printing an integer and reading it back is the identity. */
  lemma DecimalRoundTrip(n: int)
    ensures ParseInt(DecimalInt(n)) == Some(n)
  {
    if n < 0 {
      DecimalNat(-n);
      assert DecimalInt(n)[1..] == Decimal(-n);
      assert !IsDigit(DecimalInt(n)[0]);
    } else {
      DecimalNat(n);
    }
  }

  /** What `int` reads from a text: digits, with or without a sign, and nothing else. */
  lemma ParseIntReads(digits: string)
    requires IsDigits(digits)
    ensures ParseInt(digits) == Some(NatOf(digits)) == ParseInt("+" + digits)
    ensures ParseInt("-" + digits) == Some(-(NatOf(digits) as int))
  {
    assert ("+" + digits)[1..] == digits && ("-" + digits)[1..] == digits;
    assert !IsDigit('+') && !IsDigit('-');
  }

  lemma ParseIntNeedsDigits(s: string)
    requires ParseInt(s).Some?
    ensures exists digits :: IsDigits(digits) && (s == digits || s == "-" + digits || s == "+" + digits)
  {
    if IsDigits(s) {
      assert s == s;
    } else {
      assert s == [s[0]] + s[1..];
      assert s == "-" + s[1..] || s == "+" + s[1..];
    }
  }
}
