/** The Python `str` operations that URL parsing and `url_base` rely on,
    for strings as sequences of characters. */
module Strings {
  import opened Wrappers

  /** `s.find(c)`: the index of the first `c` in `s`, or None where Python gives -1. */
  function Find(s: string, c: char): (r: Option<nat>)
    ensures r.None? <==> c !in s
    ensures r.Some? ==> r.value < |s| && s[r.value] == c && c !in s[..r.value]
  {
    if s == [] then None
    else if s[0] == c then Some(0)
    else
      match Find(s[1..], c)
      case None =>
        assert s == [s[0]] + s[1..];
        None
      case Some(i) =>
        assert s[..i + 1] == [s[0]] + s[1..][..i];
        Some(i + 1)
  }

  /** The index of the first character of `s` that belongs to `cs`, or `|s|` when there is none. */
  function FirstOf(s: string, cs: set<char>): (r: nat)
    ensures r <= |s|
    ensures forall k :: 0 <= k < r ==> s[k] !in cs
    ensures r < |s| ==> s[r] in cs
  {
    if s == [] || s[0] in cs then 0 else 1 + FirstOf(s[1..], cs)
  }

  /** `s.split(c)` for a one-character separator: the pieces between the occurrences of `c`. */
  function Split(s: string, c: char): (r: seq<string>)
    ensures |r| >= 1
    ensures forall k :: 0 <= k < |r| ==> c !in r[k]
    decreases |s|
  {
    match Find(s, c)
    case None => [s]
    case Some(i) => [s[..i]] + Split(s[i + 1..], c)
  }

  /** `c.join(pieces)`. */
  function Join(pieces: seq<string>, c: char): string
  {
    if |pieces| == 0 then ""
    else if |pieces| == 1 then pieces[0]
    else pieces[0] + [c] + Join(pieces[1..], c)
  }

  /** `s.split(c, 1)` when `c` occurs in `s`: the text before the first `c` and the text after it;
      None when `c` does not occur. */
  function SplitOnce(s: string, c: char): (r: Option<(string, string)>)
    ensures r.None? <==> c !in s
    ensures r.Some? ==> s == r.value.0 + [c] + r.value.1 && c !in r.value.0
  {
    match Find(s, c)
    case None => None
    case Some(i) =>
      assert s == s[..i] + [c] + s[i + 1..];
      Some((s[..i], s[i + 1..]))
  }

  /** `s.rstrip(c)`: `s` without its trailing run of `c`. */
  function RStrip(s: string, c: char): (r: string)
    ensures |r| <= |s| && s[..|r|] == r
    ensures r == [] || r[|r| - 1] != c
    ensures forall k :: |r| <= k < |s| ==> s[k] == c
  {
    if s != [] && s[|s| - 1] == c then RStrip(s[..|s| - 1], c) else s
  }

  /** `s.lstrip(chars)` for the C0 control characters and space (U+0000 to U+0020). */
  function LStripC0(s: string): (r: string)
    ensures |r| <= |s| && r == s[|s| - |r|..]
    ensures r == [] || r[0] > ' '
    ensures forall k :: 0 <= k < |s| - |r| ==> s[k] <= ' '
  {
    if s != [] && s[0] <= ' ' then LStripC0(s[1..]) else s
  }

  /** `s` with every character in `cs` removed (repeated `s.replace(ch, "")`). */
  function RemoveChars(s: string, cs: set<char>): (r: string)
    ensures forall ch :: ch in r ==> ch in s && ch !in cs
    ensures (forall k :: 0 <= k < |s| ==> s[k] !in cs) ==> r == s
  {
    if s == [] then []
    else
      (if s[0] in cs then [] else [s[0]]) + RemoveChars(s[1..], cs)
  }

  /** Every character outside `cs` is kept, as many times as it occurs. */
  lemma {:induction false} RemoveCharsKeepsOthers(s: string, cs: set<char>, ch: char)
    requires ch !in cs
    ensures multiset(RemoveChars(s, cs))[ch] == multiset(s)[ch]
  {
    if s != [] {
      RemoveCharsKeepsOthers(s[1..], cs, ch);
      var head := if s[0] in cs then [] else [s[0]];
      var rest := RemoveChars(s[1..], cs);
      assert s == [s[0]] + s[1..];
      assert multiset(s) == multiset([s[0]]) + multiset(s[1..]);
      assert multiset(head + rest) == multiset(head) + multiset(rest);
    }
  }

  /** Removing characters works piece by piece, so what is kept keeps its order. */
  lemma {:induction false} RemoveCharsConcat(a: string, b: string, cs: set<char>)
    ensures RemoveChars(a + b, cs) == RemoveChars(a, cs) + RemoveChars(b, cs)
  {
    if a == [] {
      assert a + b == b;
    } else {
      assert (a + b)[0] == a[0];
      assert (a + b)[1..] == a[1..] + b;
      RemoveCharsConcat(a[1..], b, cs);
      var head := if a[0] in cs then [] else [a[0]];
      var restA := RemoveChars(a[1..], cs);
      var restB := RemoveChars(b, cs);
      assert RemoveChars(a + b, cs) == head + (restA + restB);
      assert RemoveChars(a, cs) == head + restA;
      ConcatAssoc(head, restA, restB);
    }
  }

  lemma ConcatAssoc(x: string, y: string, z: string)
    ensures x + (y + z) == (x + y) + z
  {
  }

  /** `s.replace(from, to)` for single characters. */
  function ReplaceChar(s: string, from: char, to: char): string
  {
    seq(|s|, k requires 0 <= k < |s| => if s[k] == from then to else s[k])
  }

  /** `Find` gives the first occurrence: any index holding `c` with no `c` before it is the one found. */
  lemma {:induction false} FindFirst(s: string, c: char, j: nat)
    requires j < |s| && s[j] == c && c !in s[..j]
    ensures Find(s, c) == Some(j)
  {
    if j > 0 {
      assert s[0] == s[..j][0];
      assert s[1..][..j - 1] == s[..j][1..];
      FindFirst(s[1..], c, j - 1);
    }
  }

  lemma SplitOnceAt(a: string, b: string, c: char)
    requires c !in a
    ensures SplitOnce(a + [c] + b, c) == Some((a, b))
  {
    var s := a + [c] + b;
    assert s[..|a|] == a;
    FindFirst(s, c, |a|);
    assert s[|a| + 1..] == b;
  }

  /** `FirstOf` stops at the first character in `cs`. */
  lemma {:induction false} FirstOfAt(a: string, b: string, cs: set<char>)
    requires forall k :: 0 <= k < |a| ==> a[k] !in cs
    requires b != [] && b[0] in cs
    ensures FirstOf(a + b, cs) == |a|
  {
    if a == [] {
      assert a + b == b;
    } else {
      assert (a + b)[0] == a[0];
      assert (a + b)[1..] == a[1..] + b;
      FirstOfAt(a[1..], b, cs);
    }
  }

  /** Splitting on `c` and joining the pieces with `c` gives back the string. */
  lemma {:induction false} JoinSplit(s: string, c: char)
    ensures Join(Split(s, c), c) == s
    decreases |s|
  {
    var f := Find(s, c);
    if f.Some? {
      var i := f.value;
      var rest := s[i + 1..];
      var tail := Split(rest, c);
      JoinSplit(rest, c);
      var pieces := [s[..i]] + tail;
      assert Split(s, c) == pieces;
      assert |pieces| >= 2 && pieces[0] == s[..i] && pieces[1..] == tail;
      assert Join(pieces, c) == s[..i] + [c] + Join(tail, c);
      assert s == s[..i] + [c] + rest;
    }
  }

  /** Joining pieces that do not contain `c` and splitting on `c` gives back the pieces. */
  lemma {:induction false} SplitJoin(pieces: seq<string>, c: char)
    requires |pieces| >= 1
    requires forall k :: 0 <= k < |pieces| ==> c !in pieces[k]
    ensures Split(Join(pieces, c), c) == pieces
  {
    if |pieces| == 1 {
      assert Join(pieces, c) == pieces[0];
    } else {
      var rest := Join(pieces[1..], c);
      SplitJoin(pieces[1..], c);
      var s := Join(pieces, c);
      assert s == pieces[0] + [c] + rest;
      SplitOnceAt(pieces[0], rest, c);
      assert pieces == [pieces[0]] + pieces[1..];
    }
  }

  /** A join starts with its first piece. */
  lemma JoinCoversFirst(pieces: seq<string>, c: char)
    requires |pieces| >= 1
    ensures |Join(pieces, c)| >= |pieces[0]|
  {
  }
}
