// The line counts of a repository, as a tree of directories and files, and
// the walk down that tree along the pieces of a path.

module LocTree {
  import opened Wrappers

  /**
   * The counts for one directory or file: its total, its total per
   * language, and, for a directory, its entries by name.
   */
  datatype Locs = Locs(loc: nat, locByLangs: map<string, nat>, children: Option<map<string, Locs>>)

  /** `node.children?.[part]` names an entry. */
  predicate HasChild(node: Locs, part: string)
  {
    node.children.Some? && part in node.children.value
  }

  function Child(node: Locs, part: string): Locs
    requires HasChild(node, part)
  {
    node.children.value[part]
  }

  /** The node reached from `node` by following `parts`, or None at the first missing entry. */
  function Walk(node: Locs, parts: seq<string>): Option<Locs>
    decreases |parts|
  {
    if |parts| == 0 then Some(node)
    else if HasChild(node, parts[0]) then Walk(Child(node, parts[0]), parts[1..])
    else None
  }

  /** The node a parsed path leads to: the root itself when there is no path. */
  function Resolve(root: Locs, path: Option<seq<string>>): Option<Locs>
  {
    match path
    case None => Some(root)
    case Some(p) => Walk(root, p)
  }

  /**
   * The loop of `attachDropdown` that replaces `locs` by `locs.children[part]`
   * for each part in turn, failing as soon as one is missing.
   */
  method Descend(root: Locs, path: Option<seq<string>>) returns (r: Option<Locs>)
    ensures r == Resolve(root, path)
  {
    if path.None? {
      return Some(root);
    }
    var parts := path.value;
    var locs := root;
    for i := 0 to |parts|
      invariant Walk(root, parts) == Walk(locs, parts[i..])
    {
      assert parts[i..][1..] == parts[i + 1..];
      if !HasChild(locs, parts[i]) {
        return None;
      }
      locs := Child(locs, parts[i]);
    }
    assert parts[|parts|..] == [];
    return Some(locs);
  }

  // ---------------------------------------------------------------------
  // Properties of the walk.
  // ---------------------------------------------------------------------

  /** Walking `p + q` is walking `p`, then `q` from where `p` ends. */
  lemma {:induction false} WalkAppend(node: Locs, p: seq<string>, q: seq<string>)
    ensures Walk(node, p + q) == match Walk(node, p) case None => None case Some(n) => Walk(n, q)
    decreases |p|
  {
    if |p| > 0 {
      assert (p + q)[0] == p[0];
      assert (p + q)[1..] == p[1..] + q;
      if HasChild(node, p[0]) {
        WalkAppend(Child(node, p[0]), p[1..], q);
      }
    } else {
      assert p + q == q;
    }
  }

  /** Every prefix of the walk reaches a node that has the next part as an entry. */
  predicate EveryStepExists(node: Locs, parts: seq<string>)
  {
    forall i :: 0 <= i < |parts| ==>
      Walk(node, parts[..i]).Some? && HasChild(Walk(node, parts[..i]).value, parts[i])
  }

  /** Descent succeeds exactly when every step names an existing entry. */
  lemma {:induction false} WalkSucceedsIff(node: Locs, parts: seq<string>)
    ensures Walk(node, parts).Some? <==> EveryStepExists(node, parts)
    decreases |parts|
  {
    if |parts| > 0 {
      var rest := parts[1..];
      if HasChild(node, parts[0]) {
        var c := Child(node, parts[0]);
        WalkSucceedsIff(c, rest);
        forall i | 1 <= i <= |parts|
          ensures Walk(node, parts[..i]) == Walk(c, rest[..i - 1])
        {
          assert parts[..i][0] == parts[0];
          assert parts[..i][1..] == rest[..i - 1];
        }
        if EveryStepExists(c, rest) {
          forall i | 0 <= i < |parts|
            ensures Walk(node, parts[..i]).Some? && HasChild(Walk(node, parts[..i]).value, parts[i])
          {
            if i == 0 {
              assert parts[..0] == [];
            } else {
              assert parts[i] == rest[i - 1];
            }
          }
        }
        if EveryStepExists(node, parts) {
          forall i | 0 <= i < |rest|
            ensures Walk(c, rest[..i]).Some? && HasChild(Walk(c, rest[..i]).value, rest[i])
          {
            assert Walk(node, parts[..i + 1]) == Walk(c, rest[..i]);
            assert rest[i] == parts[i + 1];
          }
        }
      } else {
        assert parts[..0] == [];
      }
    }
  }

  /** The first missing entry is where descent stops. */
  lemma WalkFailsAt(node: Locs, parts: seq<string>, i: nat)
    requires i < |parts| && Walk(node, parts[..i]).Some?
    requires !HasChild(Walk(node, parts[..i]).value, parts[i])
    ensures Walk(node, parts) == None
  {
    assert parts == parts[..i] + parts[i..];
    WalkAppend(node, parts[..i], parts[i..]);
    assert parts[i..][0] == parts[i];
  }

  /** A path ending in an empty piece (a trailing slash) fails unless some directory has an entry named "". */
  lemma TrailingSlashFails(node: Locs, p: seq<string>)
    requires Walk(node, p).Some? && !HasChild(Walk(node, p).value, "")
    ensures Walk(node, p + [""]) == None
  {
    WalkAppend(node, p, [""]);
  }

  /** A directory `src` holding `index.ts`, and no `docs`. */
  function ExampleTree(): Locs
  {
    var file := Locs(40, map["TypeScript" := 40], None);
    var src := Locs(40, map["TypeScript" := 40], Some(map["index.ts" := file]));
    Locs(52, map["TypeScript" := 40, "JSON" := 12], Some(map["src" := src]))
  }

  lemma DescendExample()
    ensures Resolve(ExampleTree(), None) == Some(ExampleTree())
    ensures Resolve(ExampleTree(), Some([])) == Some(ExampleTree())
    ensures Resolve(ExampleTree(), Some(["src", "index.ts"])).Some?
    ensures Resolve(ExampleTree(), Some(["src", "index.ts"])).value.loc == 40
    ensures Resolve(ExampleTree(), Some(["docs"])) == None
    ensures Resolve(ExampleTree(), Some(["src", ""])) == None
  {
    assert ["src", "index.ts"][1..] == ["index.ts"];
    assert ["src", ""][1..] == [""];
  }
}
