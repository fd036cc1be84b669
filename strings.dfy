/**
 * Character runs, and JavaScript's `split("/")` / `join("/")` on strings.
 */
module Strings {

  /** No character of s[lo..hi] is c. */
  predicate Avoids(s: string, lo: nat, hi: nat, c: char)
    requires lo <= hi <= |s|
  {
    forall k :: lo <= k < hi ==> s[k] != c
  }

  /**
   * The number of characters a greedy `[^c]*` consumes from position i:
   * the longest run of characters other than c that starts there.
   */
  function RunWithout(s: string, i: nat, c: char): (n: nat)
    requires i <= |s|
    ensures i + n <= |s|
    ensures Avoids(s, i, i + n, c)
    ensures i + n == |s| || s[i + n] == c
    decreases |s| - i
  {
    if i == |s| || s[i] == c then 0 else 1 + RunWithout(s, i + 1, c)
  }

  /** A c-free stretch that ends at c or at the end of s is exactly the run. */
  lemma RunEndsAt(s: string, i: nat, j: nat, c: char)
    requires i <= j <= |s|
    requires Avoids(s, i, j, c)
    requires j == |s| || s[j] == c
    ensures RunWithout(s, i, c) == j - i
  {
  }

  /** Any c-free stretch from i lies within the run. */
  lemma RunCovers(s: string, i: nat, j: nat, c: char)
    requires i <= j <= |s|
    requires Avoids(s, i, j, c)
    ensures j <= i + RunWithout(s, i, c)
  {
  }

  /** `parts.join("/")`. */
  function Join(parts: seq<string>): string
  {
    if |parts| == 0 then ""
    else if |parts| == 1 then parts[0]
    else parts[0] + "/" + Join(parts[1..])
  }

  /**
   * `s.split("/")`: the pieces between separators, in order; an empty
   * string, a leading, a trailing or a doubled separator gives empty pieces.
   */
  function Split(s: string): (parts: seq<string>)
    ensures |parts| >= 1
    ensures forall k :: 0 <= k < |parts| ==> '/' !in parts[k]
    ensures Join(parts) == s
    decreases |s|
  {
    var n := RunWithout(s, 0, '/');
    if n == |s| then
      [s]
    else
      var rest := Split(s[n + 1..]);
      assert s == s[..n] + "/" + s[n + 1..];
      [s[..n]] + rest
  }

  /** Splitting a join of separator-free pieces gives the pieces back. */
  lemma {:induction false} SplitJoin(parts: seq<string>)
    requires |parts| >= 1
    requires forall k :: 0 <= k < |parts| ==> '/' !in parts[k]
    ensures Split(Join(parts)) == parts
    decreases |parts|
  {
    var s := Join(parts);
    var p := parts[0];
    if |parts| == 1 {
      RunEndsAt(s, 0, |s|, '/');
    } else {
      assert s == p + "/" + Join(parts[1..]);
      assert s[|p|] == '/';
      RunEndsAt(s, 0, |p|, '/');
      assert s[..|p|] == p;
      assert s[|p| + 1..] == Join(parts[1..]);
      SplitJoin(parts[1..]);
      assert parts == [p] + parts[1..];
    }
  }

  /** A c-free stretch, as a string, does not contain c. */
  lemma AvoidsNotIn(s: string, lo: nat, hi: nat, c: char)
    requires lo <= hi <= |s| && Avoids(s, lo, hi, c)
    ensures c !in s[lo..hi]
  {
  }

  /** A character absent from a join is absent from every piece. */
  lemma {:induction false} NotInJoin(parts: seq<string>, c: char)
    requires c !in Join(parts)
    ensures forall k :: 0 <= k < |parts| ==> c !in parts[k]
    decreases |parts|
  {
    if |parts| > 1 {
      assert Join(parts) == parts[0] + "/" + Join(parts[1..]);
      NotInJoin(parts[1..], c);
      assert forall k :: 1 <= k < |parts| ==> parts[k] == parts[1..][k - 1];
    }
  }

  /** A join of pieces that all lack c lacks c. */
  lemma {:induction false} JoinAvoids(parts: seq<string>, c: char)
    requires c != '/'
    requires forall k :: 0 <= k < |parts| ==> c !in parts[k]
    ensures c !in Join(parts)
    decreases |parts|
  {
    if |parts| > 1 {
      JoinAvoids(parts[1..], c);
    }
  }

  /** The first piece of a join runs up to the first separator. */
  lemma JoinHead(parts: seq<string>)
    requires |parts| >= 1 && '/' !in parts[0]
    ensures RunWithout(Join(parts), 0, '/') == |parts[0]|
    ensures Join(parts)[..|parts[0]|] == parts[0]
    ensures |parts| == 1 ==> Join(parts) == parts[0]
    ensures |parts| >= 2 ==> Join(parts) == parts[0] + "/" + Join(parts[1..])
  {
    var s := Join(parts);
    if |parts| >= 2 {
      assert s[|parts[0]|] == '/';
    }
    RunEndsAt(s, 0, |parts[0]|, '/');
  }

  /** The converse of AvoidsNotIn. */
  lemma NotInAvoids(s: string, lo: nat, hi: nat, c: char)
    requires lo <= hi <= |s| && c !in s[lo..hi]
    ensures Avoids(s, lo, hi, c)
  {
    assert forall k :: lo <= k < hi ==> s[k] == s[lo..hi][k - lo];
  }

  /** A stretch equal to x + y splits into x and y. */
  lemma SliceConcat(s: string, lo: nat, hi: nat, x: string, y: string)
    requires lo <= hi <= |s| && s[lo..hi] == x + y
    ensures s[lo..lo + |x|] == x && s[lo + |x|..hi] == y
  {
    assert s[lo..lo + |x|] == s[lo..hi][..|x|];
    assert s[lo + |x|..hi] == s[lo..hi][|x|..];
  }

  /** A string cut at a separator. */
  lemma CutAt(s: string, k: nat)
    requires k < |s| && s[k] == '/'
    ensures s == s[..k] + "/" + s[k + 1..]
  {
  }

  /** Two separator-free pieces joined by '/' split back. */
  lemma SplitPair(x: string, y: string)
    requires '/' !in x && '/' !in y
    ensures Split(x + "/" + y) == [x, y]
  {
    assert Join([x, y]) == x + "/" + y by {
      assert [x, y][1..] == [y];
    }
    SplitJoin([x, y]);
  }

  /** Three separator-free pieces joined by '/' split back. */
  lemma SplitTriple(x: string, y: string, z: string)
    requires '/' !in x && '/' !in y && '/' !in z
    ensures Split(x + "/" + y + "/" + z) == [x, y, z]
  {
    assert Join([x, y, z]) == x + "/" + y + "/" + z by {
      assert [x, y, z][1..] == [y, z];
      assert [y, z][1..] == [z];
      assert Join([y, z]) == y + "/" + z;
      assert x + "/" + (y + "/" + z) == x + "/" + y + "/" + z;
    }
    SplitJoin([x, y, z]);
  }
}
