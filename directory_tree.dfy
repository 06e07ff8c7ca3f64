/**
 * The numbered list of target folders: the folders below `dev`, found by a
 * depth-first scan that lists `_reference` folders without entering them
 * and skips hidden folders (ts.py, `KnownTargets.__getRecursiveDirs`).
 */
module DirectoryTree {
  import opened Paths

  /** A file or folder as `iterdir` yields it, with a folder's own entries in the order they are yielded. */
  datatype Node = Node(name: string, isDir: bool, children: seq<Node>)

  const REFERENCE: string := "_reference"

  predicate Hidden(name: string) {
    |name| > 0 && name[0] == '.'
  }

  /** The folders the scan lists below `prefix`, in the order it appends them. */
  function Listing(prefix: Path, nodes: seq<Node>): seq<Path>
    decreases nodes
  {
    if nodes == [] then []
    else
      var before := Listing(prefix, nodes[..|nodes| - 1]);
      var n := nodes[|nodes| - 1];
      var p := prefix + [n.name];
      if !n.isDir then before
      else if n.name == REFERENCE then before + [p]
      else if Hidden(n.name) then before
      else before + [p] + Listing(p, n.children)
  }

  /** The scan of `curr_dir`: appends what it finds to `currList` and returns the list. */
  method RecursiveDirs(currList: seq<Path>, currDir: Path, nodes: seq<Node>) returns (list: seq<Path>)
    ensures list == currList + Listing(currDir, nodes)
    decreases nodes
  {
    list := currList;
    for i := 0 to |nodes|
      invariant list == currList + Listing(currDir, nodes[..i])
    {
      var n := nodes[i];
      assert nodes[..i + 1][..i] == nodes[..i];
      if n.isDir {
        if n.name == REFERENCE {
          list := list + [currDir + [n.name]];
        } else if !Hidden(n.name) {
          list := list + [currDir + [n.name]];
          list := RecursiveDirs(list, currDir + [n.name], n.children);
        }
      }
    }
    assert nodes[..|nodes|] == nodes;
  }

  /**
   * `q`, read below the scanned folder, names a folder the scan reaches:
   * each step is a non-hidden folder, and no step goes into `_reference`.
   */
  ghost predicate Reachable(nodes: seq<Node>, q: Path)
    decreases |q|
  {
    |q| >= 1 &&
    exists k :: 0 <= k < |nodes| && nodes[k].isDir && nodes[k].name == q[0] && !Hidden(q[0]) &&
      (|q| == 1 || (q[0] != REFERENCE && Reachable(nodes[k].children, q[1..])))
  }

  /** Every listed folder lies strictly below `prefix`. */
  lemma {:induction false} ListingBelow(prefix: Path, nodes: seq<Node>)
    ensures forall p :: p in Listing(prefix, nodes) ==> |p| > |prefix| && p[..|prefix|] == prefix
    decreases nodes
  {
    if nodes != [] {
      var n := nodes[|nodes| - 1];
      var p := prefix + [n.name];
      ListingBelow(prefix, nodes[..|nodes| - 1]);
      if n.isDir && n.name != REFERENCE && !Hidden(n.name) {
        ListingBelow(p, n.children);
        forall x | x in Listing(p, n.children)
          ensures |x| > |prefix| && x[..|prefix|] == prefix
        {
          assert x[..|p|][..|prefix|] == x[..|prefix|];
        }
      }
    }
  }

  /** A path is reachable through some folder of `nodes` when it is through one of the others or through the last. */
  lemma ReachableSplit(nodes: seq<Node>, q: Path)
    requires nodes != []
    ensures var n := nodes[|nodes| - 1];
      Reachable(nodes, q) <==>
        (Reachable(nodes[..|nodes| - 1], q) ||
         (|q| >= 1 && n.isDir && n.name == q[0] && !Hidden(q[0]) &&
          (|q| == 1 || (q[0] != REFERENCE && Reachable(n.children, q[1..])))))
  {
    var init := nodes[..|nodes| - 1];
    if Reachable(nodes, q) {
      var k :| 0 <= k < |nodes| && nodes[k].isDir && nodes[k].name == q[0] && !Hidden(q[0]) &&
        (|q| == 1 || (q[0] != REFERENCE && Reachable(nodes[k].children, q[1..])));
      if k < |init| {
        assert init[k] == nodes[k];
      }
    }
    if Reachable(init, q) {
      var k :| 0 <= k < |init| && init[k].isDir && init[k].name == q[0] && !Hidden(q[0]) &&
        (|q| == 1 || (q[0] != REFERENCE && Reachable(init[k].children, q[1..])));
      assert nodes[k] == init[k];
    }
  }

  /** The scan lists exactly the reachable folders. */
  lemma {:induction false} ListingExactlyReachable(prefix: Path, nodes: seq<Node>, q: Path)
    ensures prefix + q in Listing(prefix, nodes) <==> Reachable(nodes, q)
    decreases nodes
  {
    if nodes != [] {
      var init := nodes[..|nodes| - 1];
      var n := nodes[|nodes| - 1];
      var p := prefix + [n.name];
      ListingExactlyReachable(prefix, init, q);
      ReachableSplit(nodes, q);
      if n.isDir && n.name != REFERENCE && !Hidden(n.name) {
        ListingBelow(p, n.children);
        if |q| >= 2 && q[0] == n.name {
          assert prefix + q == p + q[1..];
          ListingExactlyReachable(p, n.children, q[1..]);
        }
        if prefix + q in Listing(p, n.children) {
          var x := prefix + q;
          assert x[..|p|] == p && |x| > |p|;
          assert q[0] == x[|prefix|] == p[|prefix|];
          assert x == p + q[1..];
          ListingExactlyReachable(p, n.children, q[1..]);
        }
        if prefix + q == p {
          assert q == (prefix + q)[|prefix|..] == p[|prefix|..];
        }
      } else if n.isDir && n.name == REFERENCE {
        if prefix + q == p {
          assert q == (prefix + q)[|prefix|..] == p[|prefix|..];
        }
      }
    }
  }

  /** A folder is listed after its parent, unless its parent is the scanned folder itself. */
  lemma {:induction false} ParentListedFirst(prefix: Path, nodes: seq<Node>, j: int)
    requires 0 <= j < |Listing(prefix, nodes)|
    requires |Listing(prefix, nodes)[j]| > |prefix| + 1
    ensures exists i :: 0 <= i < j && Listing(prefix, nodes)[i] == Listing(prefix, nodes)[j][..|Listing(prefix, nodes)[j]| - 1]
    decreases nodes
  {
    var all := Listing(prefix, nodes);
    var init := nodes[..|nodes| - 1];
    var n := nodes[|nodes| - 1];
    var p := prefix + [n.name];
    var before := Listing(prefix, init);
    var x := all[j];
    if j < |before| {
      assert all[j] == before[j];
      ParentListedFirst(prefix, init, j);
      var i :| 0 <= i < j && before[i] == before[j][..|before[j]| - 1];
      assert all[i] == before[i];
    } else if n.isDir && n.name != REFERENCE && !Hidden(n.name) {
      var nested := Listing(p, n.children);
      assert all == before + [p] + nested;
      if j == |before| {
        assert false;
      } else {
        var j' := j - |before| - 1;
        assert x == nested[j'];
        ListingBelow(p, n.children);
        assert x in nested;
        if |x| > |p| + 1 {
          ParentListedFirst(p, n.children, j');
          var i' :| 0 <= i' < j' && nested[i'] == nested[j'][..|nested[j']| - 1];
          assert all[|before| + 1 + i'] == nested[i'];
        } else {
          assert x[..|x| - 1] == x[..|p|] == p;
          assert all[|before|] == p;
        }
      }
    } else {
      assert false;
    }
  }
}
