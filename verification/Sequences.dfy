/** What several modules say about lists. */
module Sequences {

  ghost predicate NoDuplicates<T>(s: seq<T>) {
    forall i, j :: 0 <= i < j < |s| ==> s[i] != s[j]
  }

  // The parts with the separator between them.
  function Join(parts: seq<string>, separator: string): string {
    if parts == [] then ""
    else if |parts| == 1 then parts[0]
    else parts[0] + separator + Join(parts[1..], separator)
  }

  function IndexOf(s: string, c: char): (i: nat)
    ensures i <= |s| && c !in s[..i] && (i < |s| ==> s[i] == c)
    ensures i == |s| ==> c !in s
  {
    if s == "" || s[0] == c then 0
    else
      var i := 1 + IndexOf(s[1..], c);
      assert s[..i] == [s[0]] + s[1..][..i - 1];
      i
  }

  // The parts between the occurrences of a character.
  function Split(s: string, c: char): seq<string>
    decreases |s|
  {
    var i := IndexOf(s, c);
    if i == |s| then [s] else [s[..i]] + Split(s[i + 1..], c)
  }

  lemma SplitCons(p: string, rest: string, c: char)
    requires c !in p
    ensures Split(p + [c] + rest, c) == [p] + Split(rest, c)
  {
    var s := p + [c] + rest;
    var i := IndexOf(s, c);
    assert s[|p|] == c;
    assert forall k :: 0 <= k < |p| ==> s[k] == p[k] && p[k] in p;
    forall k | 0 <= k < i ensures s[k] != c {
      assert s[..i][k] == s[k];
    }
    assert s[..i] == p && s[i + 1..] == rest;
  }

  lemma SplitOne(p: string, c: char)
    requires c !in p
    ensures Split(p, c) == [p]
  {}

  /** Splitting a joined list at the separator gives its parts back. */
  lemma {:induction false} SplitInvertsJoin(parts: seq<string>, c: char)
    requires parts != [] && forall p :: p in parts ==> c !in p
    ensures Split(Join(parts, [c]), c) == parts
    decreases |parts|
  {
    hide Split;
    var p := parts[0];
    assert p in parts;
    if |parts| == 1 {
      SplitOne(p, c);
      assert parts == [p];
    } else {
      var rest := parts[1..];
      assert forall q :: q in rest ==> q in parts;
      SplitInvertsJoin(rest, c);
      SplitCons(p, Join(rest, [c]), c);
      assert parts == [p] + rest;
    }
  }

  // A joined list with one more part.
  lemma {:induction false} JoinSnoc(parts: seq<string>, last: string, separator: string)
    requires parts != []
    ensures Join(parts + [last], separator) == Join(parts, separator) + separator + last
    decreases |parts|
  {
    assert (parts + [last])[1..] == parts[1..] + [last];
    if |parts| > 1 {
      JoinSnoc(parts[1..], last, separator);
    } else {
      assert parts[1..] + [last] == [last];
    }
  }
}
