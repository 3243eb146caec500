/** A session log as bytes: its newline-terminated lines and the torn write that may follow them. */
module LogLines {
  import opened Basics

  newtype byte = x: int | 0 <= x < 256

  type Bytes = seq<byte>

  const NL: byte := 10
  const CR: byte := 13

  /** The length of the first line, its newline included. */
  function FirstLine(s: Bytes): (n: Option<nat>)
    ensures n.Some? ==> 0 < n.value <= |s| && s[n.value - 1] == NL && NL !in s[..n.value - 1]
    ensures n.None? ==> NL !in s
  {
    if s == [] then None
    else if s[0] == NL then Some(1)
    else
      match FirstLine(s[1..])
      case None =>
        assert s == [s[0]] + s[1..];
        None
      case Some(n) =>
        assert s[..n] == [s[0]] + s[1..][..n - 1];
        Some(n + 1)
  }

  function Lines(s: Bytes): seq<Bytes>
    decreases |s|
  {
    match FirstLine(s)
    case None => []
    case Some(n) => [s[..n]] + Lines(s[n..])
  }

  /** What follows the last newline. */
  function Tail(s: Bytes): Bytes
    decreases |s|
  {
    match FirstLine(s)
    case None => s
    case Some(n) => Tail(s[n..])
  }

  function Flatten(lines: seq<Bytes>): Bytes {
    if lines == [] then [] else lines[0] + Flatten(lines[1..])
  }

  predicate IsLine(l: Bytes) {
    l != [] && l[|l| - 1] == NL && NL !in l[..|l| - 1]
  }

  /** Empty, or ended by a newline: where the next write begins a line. */
  predicate AtBoundary(s: Bytes) {
    s == [] || s[|s| - 1] == NL
  }

  lemma FlattenCons(first: Bytes, lines: seq<Bytes>)
    ensures Flatten([first] + lines) == first + Flatten(lines)
  {
    assert ([first] + lines)[1..] == lines;
  }

  lemma LineInFront(first: Bytes, lines: seq<Bytes>, tail: Bytes)
    ensures Flatten([first] + lines) + tail == first + (Flatten(lines) + tail)
  {
    FlattenCons(first, lines);
    Regroup(first, Flatten(lines), tail);
  }

  lemma Rejoin(s: Bytes, n: nat)
    requires n <= |s|
    ensures s[..n] + s[n..] == s
  {
  }

  lemma {:induction false} LinesAndTail(s: Bytes)
    ensures Flatten(Lines(s)) + Tail(s) == s
    decreases |s|
  {
    match FirstLine(s)
    case None =>
    case Some(n) =>
      LinesAndTail(s[n..]);
      LineInFront(s[..n], Lines(s[n..]), Tail(s[n..]));
      Rejoin(s, n);
  }

  lemma {:induction false} TailHasNoNewline(s: Bytes)
    ensures NL !in Tail(s)
    decreases |s|
  {
    var n := FirstLine(s);
    if n.Some? {
      TailHasNoNewline(s[n.value..]);
    }
  }

  lemma {:induction false} LinesAreLines(s: Bytes)
    ensures forall l | l in Lines(s) :: IsLine(l)
    decreases |s|
  {
    var n := FirstLine(s);
    if n.Some? {
      LinesAreLines(s[n.value..]);
      assert s[..n.value][..n.value - 1] == s[..n.value - 1];
    }
  }

  lemma {:induction false} FlattenConcat(a: seq<Bytes>, b: seq<Bytes>)
    ensures Flatten(a + b) == Flatten(a) + Flatten(b)
  {
    if a == [] {
      assert a + b == b;
    } else {
      assert (a + b)[1..] == a[1..] + b;
      FlattenConcat(a[1..], b);
    }
  }

  lemma {:induction false} FlattenEndsInNewline(lines: seq<Bytes>)
    requires forall l | l in lines :: IsLine(l)
    ensures AtBoundary(Flatten(lines))
  {
    if lines != [] {
      FlattenEndsInNewline(lines[1..]);
      var first, rest := lines[0], Flatten(lines[1..]);
      assert first in lines;
      assert rest == [] ==> first + rest == first;
    }
  }

  lemma TailIsWhatLinesLeave(s: Bytes)
    ensures |Tail(s)| <= |s| && s[|s| - |Tail(s)|..] == Tail(s)
    ensures |Flatten(Lines(s))| == |s| - |Tail(s)|
    ensures AtBoundary(s) <==> Tail(s) == []
  {
    LinesAndTail(s);
    TailHasNoNewline(s);
    var head, tail := Flatten(Lines(s)), Tail(s);
    assert head + tail == s;
    if tail != [] {
      assert s[|s| - 1] == tail[|tail| - 1];
    } else if s != [] {
      LinesAreLines(s);
      FlattenEndsInNewline(Lines(s));
      assert head == s;
    }
  }

  lemma {:induction false} FirstLineOfAppend(s: Bytes, more: Bytes)
    requires FirstLine(s).Some?
    ensures FirstLine(s + more) == FirstLine(s)
  {
    if s[0] != NL {
      assert (s + more)[1..] == s[1..] + more;
      FirstLineOfAppend(s[1..], more);
    }
  }

  lemma Reassociate(first: Bytes, a: seq<Bytes>, b: seq<Bytes>)
    ensures [first] + (a + b) == ([first] + a) + b
  {
  }

  // Appending only completes the torn tail and adds lines after it.
  lemma {:induction false} LinesOfAppend(s: Bytes, more: Bytes)
    ensures Lines(s + more) == Lines(s) + Lines(Tail(s) + more)
    ensures Tail(s + more) == Tail(Tail(s) + more)
    decreases |s|
  {
    var n := FirstLine(s);
    if n.Some? {
      FirstLineOfAppend(s, more);
      assert (s + more)[..n.value] == s[..n.value];
      var rest := s[n.value..];
      assert (s + more)[n.value..] == rest + more;
      LinesOfAppend(rest, more);
      Reassociate(s[..n.value], Lines(rest), Lines(Tail(rest) + more));
    }
  }

  lemma FirstLineUnique(l: Bytes)
    requires IsLine(l)
    ensures FirstLine(l) == Some(|l|)
  {
    assert forall i | 0 <= i < |l| - 1 :: l[i] == l[..|l| - 1][i];
    assert l[|l| - 1] in l;
  }

  lemma {:induction false} SingleLine(l: Bytes)
    requires IsLine(l)
    ensures Lines(l) == [l] && Tail(l) == []
  {
    FirstLineUnique(l);
    assert l[..|l|] == l && l[|l|..] == [];
  }

  // At a boundary a log is its first part and its second part, line by line.
  lemma LinesAtBoundary(a: Bytes, b: Bytes)
    requires AtBoundary(a)
    ensures Lines(a + b) == Lines(a) + Lines(b) && Tail(a + b) == Tail(b)
  {
    LinesOfAppend(a, b);
    TailIsWhatLinesLeave(a);
    assert [] + b == b;
  }

  /** What reading a text line by line hands out: no newline, and no carriage return before it. */
  function Content(l: Bytes): Bytes
    requires IsLine(l)
  {
    if |l| >= 2 && l[|l| - 2] == CR then l[..|l| - 2] else l[..|l| - 1]
  }
}
