/**
  String helpers the loader relies on: splitting a value on a delimiter (the
  decode rule of List and Set bindings) and joining strings with a separator
  (the missing-variables error text). Both follow Go's strings.Split and
  strings.Join, so an empty delimiter splits a string into its characters and
  splitting the empty string on a non-empty delimiter gives one empty part.
*/
module Text {
  import opened Options

  /** `d` occurs in `s` starting at index `j`. */
  predicate OccursAt(s: string, d: string, j: nat) {
    j + |d| <= |s| && s[j..j + |d|] == d
  }

  ghost predicate Contains(s: string, d: string) {
    exists j: nat :: OccursAt(s, d, j)
  }

  /** The first index at or after `from` where `d` occurs in `s`. */
  function IndexFrom(s: string, d: string, from: nat): (r: Option<nat>)
    requires d != []
    ensures r.Some? ==> from <= r.value && OccursAt(s, d, r.value)
    ensures forall j: nat :: from <= j && (r.None? || j < r.value) ==> !OccursAt(s, d, j)
    decreases |s| - from
  {
    if from + |d| > |s| then None
    else if OccursAt(s, d, from) then Some(from)
    else IndexFrom(s, d, from + 1)
  }

  /** One single-character string per character of `s`. */
  function Explode(s: string): (r: seq<string>)
    ensures |r| == |s|
    ensures forall i :: 0 <= i < |r| ==> r[i] == [s[i]]
  {
    if s == [] then [] else [s[..1]] + Explode(s[1..])
  }

  /**
    The parts of `s` between the occurrences of `d`, left to right. An empty
    `d` splits `s` into its characters. Otherwise there is always at least
    one part, no part contains `d`, and the first part ends where the
    leftmost occurrence of `d` begins (the whole of `s` when there is none).
  */
  function Split(s: string, d: string): (r: seq<string>)
    ensures d == [] ==> r == Explode(s)
    ensures d != [] ==> |r| >= 1
    ensures d != [] ==> forall i :: 0 <= i < |r| ==> !Contains(r[i], d)
    ensures d != [] && IndexFrom(s, d, 0).None? ==> r == [s]
    ensures d != [] && IndexFrom(s, d, 0).Some? ==> r[0] == s[..IndexFrom(s, d, 0).value]
    decreases |s|
  {
    if d == [] then Explode(s)
    else
      match IndexFrom(s, d, 0)
      case None => NoOccurrenceNoContains(s, d); [s]
      case Some(j) =>
        PrefixBeforeFirstOccurrence(s, d, j);
        [s[..j]] + Split(s[j + |d|..], d)
  }

  lemma NoOccurrenceNoContains(s: string, d: string)
    requires d != [] && IndexFrom(s, d, 0).None?
    ensures !Contains(s, d)
  {
  }

  lemma PrefixBeforeFirstOccurrence(s: string, d: string, j: nat)
    requires d != [] && IndexFrom(s, d, 0) == Some(j)
    ensures !Contains(s[..j], d)
  {
    IndexFromFinds(s, d, 0);
    forall i: nat ensures !OccursAt(s[..j], d, i) {
      if i + |d| <= j {
        assert s[..j][i..i + |d|] == s[i..i + |d|];
        assert NextOccurrence(s, d, 0, j) && i < j;
        assert !OccursAt(s, d, i);
      }
    }
  }

  /** The total length of the parts. */
  function PartsLength(parts: seq<string>): nat {
    if parts == [] then 0 else |parts[0]| + PartsLength(parts[1..])
  }

  /**
    Go's strings.Join: the parts with `sep` between neighbours. The result
    holds every part and one separator per pair of neighbours, and begins
    with the first part.
  */
  function Join(parts: seq<string>, sep: string): (r: string)
    ensures |r| == PartsLength(parts) + (if parts == [] then 0 else (|parts| - 1) * |sep|)
    ensures parts != [] ==> |parts[0]| <= |r| && r[..|parts[0]|] == parts[0]
  {
    if |parts| == 0 then ""
    else if |parts| == 1 then parts[0]
    else parts[0] + sep + Join(parts[1..], sep)
  }

  lemma {:induction false} JoinExplode(s: string)
    ensures Join(Explode(s), "") == s
    decreases |s|
  {
    if s != [] {
      JoinExplode(s[1..]);
      if |s| > 1 {
        assert Explode(s)[1..] == Explode(s[1..]);
      }
    }
  }

  lemma JoinCons(head: string, tail: seq<string>, sep: string)
    requires |tail| >= 1
    ensures Join([head] + tail, sep) == head + sep + Join(tail, sep)
  {
    assert ([head] + tail)[1..] == tail;
  }

  /** A string is its prefix, middle and suffix run together. */
  lemma SplitThreeWays(s: string, j: nat, k: nat)
    requires j <= k <= |s|
    ensures s == s[..j] + s[j..k] + s[k..]
  {
    assert s[..k] == s[..j] + s[j..k];
  }

  /** Joining the parts of a split with the same delimiter gives back the input. */
  lemma {:induction false} JoinSplit(s: string, d: string)
    ensures Join(Split(s, d), d) == s
    decreases |s|
  {
    if d == [] {
      JoinExplode(s);
    } else {
      IndexFromFinds(s, d, 0);
      match IndexFrom(s, d, 0)
      case None =>
        assert Split(s, d) == [s];
      case Some(j) =>
        var rest := s[j + |d|..];
        var tail := Split(rest, d);
        JoinSplit(rest, d);
        assert Split(s, d) == [s[..j]] + tail;
        JoinAtCut(s, d, j, tail);
    }
  }

  /** Joining the text before a cut with parts that join to the text after it restores `s`. */
  lemma JoinAtCut(s: string, d: string, j: nat, tail: seq<string>)
    requires j + |d| <= |s| && s[j..j + |d|] == d
    requires |tail| >= 1 && Join(tail, d) == s[j + |d|..]
    ensures Join([s[..j]] + tail, d) == s
  {
    JoinCons(s[..j], tail, d);
    SplitThreeWays(s, j, j + |d|);
  }

  /** `x` is the first index at or after `from` where `d` occurs in `s`. */
  predicate NextOccurrence(s: string, d: string, from: nat, x: nat) {
    from <= x && OccursAt(s, d, x) && forall j: nat :: from <= j < x ==> !OccursAt(s, d, j)
  }

  /** `d` does not occur in `s` at or after `from` (it cannot start past the end). */
  predicate NoOccurrenceFrom(s: string, d: string, from: nat) {
    forall j: nat :: from <= j <= |s| ==> !OccursAt(s, d, j)
  }

  /** What IndexFrom finds, stated without it. */
  lemma IndexFromFinds(s: string, d: string, from: nat)
    requires d != []
    ensures IndexFrom(s, d, from).None? ==> NoOccurrenceFrom(s, d, from)
    ensures IndexFrom(s, d, from).Some? ==> NextOccurrence(s, d, from, IndexFrom(s, d, from).value)
  {
  }

  /**
    `r` cuts `s` at the leftmost occurrences of `d`: when `d` does not occur
    in `s`, `r` is the single part `s`; otherwise the first part ends where
    `d` first occurs, and the remaining parts cut what follows that
    occurrence in the same way.
  */
  predicate CutsLeftmost(s: string, d: string, r: seq<string>)
    decreases |r|
  {
    |r| >= 1 &&
    if |r| == 1 then NoOccurrenceFrom(s, d, 0) && r[0] == s
    else
      NextOccurrence(s, d, 0, |r[0]|) && r[0] == s[..|r[0]|] &&
      CutsLeftmost(s[|r[0]| + |d|..], d, r[1..])
  }

  /** One cut at the first occurrence, followed by leftmost cuts of what follows it. */
  lemma CutsLeftmostIntro(s: string, d: string, r: seq<string>, j: nat, rest: string, tail: seq<string>)
    requires NextOccurrence(s, d, 0, j) && rest == s[j + |d|..]
    requires |r| >= 2 && r[0] == s[..j] && r[1..] == tail
    requires CutsLeftmost(rest, d, tail)
    ensures CutsLeftmost(s, d, r)
  {
  }

  /**
    Every cut of a split is at the leftmost occurrence of the delimiter, and
    the parts are the text between the cuts. This fixes the parts even when
    the delimiter can overlap itself.
  */
  lemma {:induction false} SplitCutsLeftmost(s: string, d: string)
    requires d != []
    ensures CutsLeftmost(s, d, Split(s, d))
    decreases |s|
  {
    IndexFromFinds(s, d, 0);
    match IndexFrom(s, d, 0)
    case None =>
      assert Split(s, d) == [s];
    case Some(j) =>
      var rest := s[j + |d|..];
      var tail := Split(rest, d);
      var r := Split(s, d);
      assert r == [s[..j]] + tail;
      assert r[1..] == tail;
      SplitCutsLeftmost(rest, d);
      CutsLeftmostIntro(s, d, r, j, rest, tail);
  }

  /** A delimiter that overlaps itself is cut at its leftmost occurrences. */
  lemma SplitOverlapping()
    ensures Split("aaaaa", "aa") == ["", "", "a"]
  {
    assert OccursAt("aaaaa", "aa", 0);
    assert "aaaaa"[2..] == "aaa";
    assert OccursAt("aaa", "aa", 0);
    assert "aaa"[2..] == "a";
    assert IndexFrom("a", "aa", 0).None?;
  }

  /** A string without the delimiter's first character is a single part. */
  lemma SplitWithout(a: string, d: string)
    requires d != [] && d[0] !in a
    ensures Split(a, d) == [a]
  {
  }

  /** Splitting peels off a leading part that lacks the delimiter's first character. */
  lemma SplitCons(a: string, d: string, rest: string)
    requires d != [] && d[0] !in a
    ensures Split(a + d + rest, d) == [a] + Split(rest, d)
  {
    var s := a + d + rest;
    assert s[|a|..|a| + |d|] == d;
    assert OccursAt(s, d, |a|);
    var r := IndexFrom(s, d, 0);
    assert r == Some(|a|);
    assert s[..|a|] == a;
    assert s[|a| + |d|..] == rest;
  }

  /**
    Splitting a join gives back the parts, provided no part holds the first
    character of the delimiter.
  */
  lemma {:induction false} SplitJoin(parts: seq<string>, d: string)
    requires d != [] && |parts| >= 1
    requires forall i :: 0 <= i < |parts| ==> d[0] !in parts[i]
    ensures Split(Join(parts, d), d) == parts
    decreases |parts|
  {
    if |parts| == 1 {
      SplitWithout(parts[0], d);
    } else {
      SplitJoin(parts[1..], d);
      SplitCons(parts[0], d, Join(parts[1..], d));
    }
  }
}
