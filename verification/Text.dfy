/** The string operations the matchers and the ref names are built from. */
module Text {
  import opened Basics

  /** Put one more character in front of what has been split. */
  function Prepend(c: char, parts: seq<string>, sep: char): seq<string>
    requires |parts| >= 1
  {
    if c == sep then [""] + parts else [[c] + parts[0]] + parts[1..]
  }

  /** The pieces of `s` between occurrences of `sep`; never empty. */
  function Split(s: string, sep: char): (parts: seq<string>)
    ensures |parts| >= 1
  {
    if s == "" then [""]
    else
      Prepend(s[0], Split(s[1..], sep), sep)
  }

  function Join(parts: seq<string>, sep: char): string
    requires |parts| >= 1
  {
    if |parts| == 1 then parts[0] else parts[0] + [sep] + Join(parts[1..], sep)
  }

  lemma PrependJoins(c: char, parts: seq<string>, sep: char)
    requires |parts| >= 1
    ensures Join(Prepend(c, parts, sep), sep) == [c] + Join(parts, sep)
    ensures (forall i | 0 <= i < |parts| :: sep !in parts[i]) ==>
              forall i | 0 <= i < |Prepend(c, parts, sep)| :: sep !in Prepend(c, parts, sep)[i]
  {
    var all := Prepend(c, parts, sep);
    if c == sep {
      assert all[1..] == parts;
    } else {
      assert all[1..] == parts[1..];
      if |parts| > 1 {
        Regroup([c], parts[0], [sep] + Join(parts[1..], sep));
      }
    }
  }

  lemma {:induction false} SplitInverse(s: string, sep: char)
    ensures Join(Split(s, sep), sep) == s
    ensures forall i | 0 <= i < |Split(s, sep)| :: sep !in Split(s, sep)[i]
  {
    if s != "" {
      SplitInverse(s[1..], sep);
      PrependJoins(s[0], Split(s[1..], sep), sep);
      assert s == [s[0]] + s[1..];
    }
  }

  lemma PrependConcat(c: char, a: seq<string>, b: seq<string>, sep: char)
    requires |a| >= 1
    ensures Prepend(c, a + b, sep) == Prepend(c, a, sep) + b
  {
    assert (a + b)[1..] == a[1..] + b;
  }

  lemma {:induction false} SplitConcat(a: string, b: string, sep: char)
    ensures Split(a + [sep] + b, sep) == Split(a, sep) + Split(b, sep)
  {
    var s := a + [sep] + b;
    if a == "" {
      assert s[1..] == b;
    } else {
      assert s[1..] == a[1..] + [sep] + b;
      SplitConcat(a[1..], b, sep);
      PrependConcat(a[0], Split(a[1..], sep), Split(b, sep), sep);
    }
  }

  lemma {:induction false} SplitNone(s: string, sep: char)
    requires sep !in s
    ensures Split(s, sep) == [s]
  {
    if s != "" {
      SplitNone(s[1..], sep);
      assert s == [s[0]] + s[1..];
    }
  }

  function DropTrailing(s: string, c: char): string {
    if s != "" && s[|s| - 1] == c then DropTrailing(s[..|s| - 1], c) else s
  }

  predicate OccursAt(hay: string, needle: string, k: nat) {
    k <= |hay| && needle <= hay[k..]
  }

  /** The leftmost place `needle` occurs. */
  function Find(hay: string, needle: string): (at: Option<nat>)
    ensures at.Some? ==> at.value + |needle| <= |hay|
  {
    if needle <= hay then Some(0)
    else if hay == "" then None
    else
      match Find(hay[1..], needle)
      case Some(at) => Some(at + 1)
      case None => None
  }

  lemma {:induction false} FindOccurs(hay: string, needle: string)
    requires Find(hay, needle).Some?
    ensures OccursAt(hay, needle, Find(hay, needle).value)
  {
    if needle <= hay {
      assert hay[0..] == hay;
    } else {
      FindOccurs(hay[1..], needle);
      var at := Find(hay[1..], needle).value;
      assert hay[1..][at..] == hay[at + 1..];
    }
  }

  lemma {:induction false} FindIsLeftmost(hay: string, needle: string, k: nat)
    requires OccursAt(hay, needle, k)
    ensures Find(hay, needle).Some? && Find(hay, needle).value <= k
  {
    assert hay[0..] == hay;
    if !(needle <= hay) {
      assert hay[k..] == hay[1..][k - 1..];
      FindIsLeftmost(hay[1..], needle, k - 1);
    }
  }

  function LowerChar(c: char): char {
    if 'A' <= c <= 'Z' then c - 'A' + 'a' else c
  }

  /** ASCII lowercase; every other character is left alone. */
  function Lower(s: string): (r: string)
    ensures |r| == |s|
    ensures forall i | 0 <= i < |s| :: r[i] == LowerChar(s[i])
  {
    if s == "" then "" else [LowerChar(s[0])] + Lower(s[1..])
  }

  const CAPITALS := "ABCDEFGHIJKLMNOPQRSTUVWXYZ"
  const SMALL := "abcdefghijklmnopqrstuvwxyz"

  const DIGITS := "0123456789"

  lemma Capitals(c: char)
    ensures c in CAPITALS <==> 'A' <= c <= 'Z'
  {
    if 'A' <= c <= 'Z' {
      assert CAPITALS[c as int - 'A' as int] == c;
    }
  }

  lemma Small(c: char)
    ensures c in SMALL <==> 'a' <= c <= 'z'
  {
    if 'a' <= c <= 'z' {
      assert SMALL[c as int - 'a' as int] == c;
    }
  }

  lemma Digits(c: char)
    ensures c in DIGITS <==> '0' <= c <= '9'
  {
    if '0' <= c <= '9' {
      assert DIGITS[c as int - '0' as int] == c;
    }
  }

  /** The same character, or an ASCII letter and its other case. */
  predicate SameLetter(a: char, b: char) {
    a == b || exists i | 0 <= i < 26 :: (a == CAPITALS[i] && b == SMALL[i]) || (a == SMALL[i] && b == CAPITALS[i])
  }

  predicate SameButForCase(a: string, b: string) {
    |a| == |b| && forall i | 0 <= i < |a| :: SameLetter(a[i], b[i])
  }

  lemma {:induction false} LettersInOrder(c: char)
    ensures 'A' <= c <= 'Z' ==> CAPITALS[c as int - 'A' as int] == c && SMALL[c as int - 'A' as int] == LowerChar(c)
    ensures forall i | 0 <= i < 26 :: LowerChar(CAPITALS[i]) == SMALL[i] == LowerChar(SMALL[i])
  {
  }

  lemma {:induction false} LowerCharMeans(a: char, b: char)
    ensures LowerChar(a) == LowerChar(b) <==> SameLetter(a, b)
  {
    LettersInOrder(a);
    LettersInOrder(b);
  }

  // Lowercasing forgets the case of ASCII letters and nothing else.
  lemma LowerExactly(a: string, b: string)
    ensures Lower(a) == Lower(b) <==> SameButForCase(a, b)
  {
    if |a| == |b| {
      forall i | 0 <= i < |a|
        ensures Lower(a)[i] == Lower(b)[i] <==> SameLetter(a[i], b[i])
      {
        LowerCharMeans(a[i], b[i]);
      }
    }
  }

  /** The characters Unicode gives the White_Space property. */
  predicate IsSpace(c: char) {
    '\U{0009}' <= c <= '\U{000D}' || c == ' ' || c == '\U{0085}' || c == '\U{00A0}' || c == '\U{1680}'
    || '\U{2000}' <= c <= '\U{200A}' || c == '\U{2028}' || c == '\U{2029}' || c == '\U{202F}'
    || c == '\U{205F}' || c == '\U{3000}'
  }

  lemma SpacesOneByOne(c: char)
    ensures IsSpace(c) <==>
            c as int in {0x9, 0xA, 0xB, 0xC, 0xD, 0x20, 0x85, 0xA0, 0x1680, 0x2000, 0x2001, 0x2002, 0x2003, 0x2004,
                         0x2005, 0x2006, 0x2007, 0x2008, 0x2009, 0x200A, 0x2028, 0x2029, 0x202F, 0x205F, 0x3000}
  {
  }

  function TrimStart(s: string): string {
    if s != "" && IsSpace(s[0]) then TrimStart(s[1..]) else s
  }

  function TrimEnd(s: string): string {
    if s != "" && IsSpace(s[|s| - 1]) then TrimEnd(s[..|s| - 1]) else s
  }

  function Trim(s: string): string {
    TrimEnd(TrimStart(s))
  }

  lemma {:induction false} TrimStartSplits(s: string) returns (before: string)
    ensures s == before + TrimStart(s) && forall c | c in before :: IsSpace(c)
  {
    before := "";
    if s != "" && IsSpace(s[0]) {
      var rest := TrimStartSplits(s[1..]);
      before := [s[0]] + rest;
      Regroup([s[0]], rest, TrimStart(s));
      assert s == [s[0]] + s[1..];
    }
  }

  lemma {:induction false} TrimEndSplits(s: string) returns (after: string)
    ensures s == TrimEnd(s) + after && forall c | c in after :: IsSpace(c)
  {
    after := "";
    if s != "" && IsSpace(s[|s| - 1]) {
      var rest := TrimEndSplits(s[..|s| - 1]);
      after := rest + [s[|s| - 1]];
      Regroup(TrimEnd(s), rest, [s[|s| - 1]]);
      assert s == s[..|s| - 1] + [s[|s| - 1]];
    }
  }

  /** What trimming removes is white space on either side of what it keeps. */
  lemma TrimSplits(s: string) returns (before: string, after: string)
    ensures s == before + Trim(s) + after
    ensures forall c | c in before :: IsSpace(c)
    ensures forall c | c in after :: IsSpace(c)
  {
    before := TrimStartSplits(s);
    after := TrimEndSplits(TrimStart(s));
  }

  lemma {:induction false} TrimStartTight(s: string)
    ensures TrimStart(s) != "" ==> !IsSpace(TrimStart(s)[0])
  {
    if s != "" && IsSpace(s[0]) {
      TrimStartTight(s[1..]);
    }
  }

  lemma {:induction false} TrimEndTight(s: string)
    ensures TrimEnd(s) != "" ==> !IsSpace(TrimEnd(s)[|TrimEnd(s)| - 1])
  {
    if s != "" && IsSpace(s[|s| - 1]) {
      TrimEndTight(s[..|s| - 1]);
    }
  }

  // ... and nothing is left to remove.
  lemma {:induction false} TrimIsTight(s: string)
    ensures Trim(s) != "" ==> !IsSpace(Trim(s)[0]) && !IsSpace(Trim(s)[|Trim(s)| - 1])
  {
    var t := TrimStart(s);
    TrimStartTight(s);
    TrimEndTight(t);
    var after := TrimEndSplits(t);
    if Trim(s) != "" {
      assert t[0] == Trim(s)[0];
    }
  }
}
