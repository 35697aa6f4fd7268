/** The bounded discovery walk (`find_node_modules_roots`): below each search
    root, every directory at most `maxDepth` levels down that lists a
    `node_modules` subdirectory contributes `dirpath/node_modules`; that
    `node_modules` is treated as a leaf and never walked. */
module Discovery {
  import opened Wrappers
  import opened FsTree

  const NodeModules := "node_modules"

  /** Whether an entry appears in `os.walk`'s `dirnames` under the name
      `node_modules`; `dirnames` holds every entry that resolves to a
      directory, a link to one included. */
  predicate IsNodeModulesDir(e: Entry) {
    e.name == NodeModules && IsDir(e.node)
  }

  /** The position of the first `node_modules` in `dirnames` (the one
      `dirnames.remove` takes out), or `|entries|` when there is none. */
  function FirstNodeModules(entries: seq<Entry>): (k: nat)
    ensures k <= |entries|
    ensures k < |entries| ==> IsNodeModulesDir(entries[k])
    ensures forall j :: 0 <= j < k ==> !IsNodeModulesDir(entries[j])
  {
    if entries == [] then 0
    else if IsNodeModulesDir(entries[0]) then 0
    else 1 + FirstNodeModules(entries[1..])
  }

  /** What the walk reports from the directory `d` found at `dirpath`, `depth`
      levels below the search root: nothing past the bound or when the listing
      fails; otherwise `dirpath/node_modules` when it is listed, then what the
      walk reports below every subdirectory that is neither that
      `node_modules` nor a symbolic link, in listing order. */
  function FoundIn(d: Node, dirpath: Path, depth: nat, maxDepth: nat): seq<Path>
    requires d.Dir?
    decreases d, 1, 0
  {
    if !d.readable || depth > maxDepth then []
    else
      var k := FirstNodeModules(d.entries);
      (if k < |d.entries| then [dirpath + [NodeModules]] else [])
        + FoundBelow(d, k, dirpath, depth, maxDepth, |d.entries|)
  }

  /** What the walk reports below the first `i` entries of `d`, the entry at
      `skip` having been removed from `dirnames`. */
  function FoundBelow(d: Node, skip: nat, dirpath: Path, depth: nat, maxDepth: nat, i: nat): seq<Path>
    requires d.Dir? && i <= |d.entries|
    decreases d, 0, i
  {
    if i == 0 then []
    else FoundBelow(d, skip, dirpath, depth, maxDepth, i - 1) + FoundThrough(d, skip, dirpath, depth, maxDepth, i - 1)
  }

  /** What the walk reports below the entry at `i`: nothing unless it is a
      directory other than the removed one. */
  function FoundThrough(d: Node, skip: nat, dirpath: Path, depth: nat, maxDepth: nat, i: nat): seq<Path>
    requires d.Dir? && i < |d.entries|
    decreases d, 0, i
  {
    var e := d.entries[i];
    if i != skip && e.node.Dir? then FoundIn(e.node, dirpath + [e.name], depth + 1, maxDepth) else []
  }

  /** What the walk reports for one search root; a root that does not exist
      is skipped, and `os.walk` of something that is not a directory reports
      nothing. */
  function FoundAtRoot(fs: Node, root: Path, maxDepth: nat): seq<Path> {
    var n := Lookup(fs, root);
    if !Exists(n) then []
    else
      var r := Resolve(n.value).value;
      if r.Dir? then FoundIn(r, root, 0, maxDepth) else []
  }

  /** The results for all roots, grouped root by root in root order. */
  function FoundAll(fs: Node, roots: seq<Path>, maxDepth: nat): seq<Path> {
    if roots == [] then []
    else FoundAll(fs, roots[..|roots| - 1], maxDepth) + FoundAtRoot(fs, roots[|roots| - 1], maxDepth)
  }

  /** `find_node_modules_roots(search_roots, max_depth)`. */
  method FindNodeModulesRoots(fs: Node, searchRoots: seq<Path>, maxDepth: nat) returns (found: seq<Path>)
    ensures found == FoundAll(fs, searchRoots, maxDepth)
  {
    found := [];
    for i := 0 to |searchRoots|
      invariant found == FoundAll(fs, searchRoots[..i], maxDepth)
    {
      assert searchRoots[..i + 1][..i] == searchRoots[..i];
      var root := searchRoots[i];
      var n := Lookup(fs, root);
      if !Exists(n) {
        continue;
      }
      var r := Resolve(n.value).value;
      if r.Dir? {
        var below := WalkFrom(r, root, 0, maxDepth);
        found := found + below;
      }
    }
    assert searchRoots[..|searchRoots|] == searchRoots;
  }

  /** One directory visit of `os.walk` and everything below it: past the
      bound `dirnames` is cleared; otherwise a listed `node_modules` is
      recorded and removed from `dirnames` before the walk goes on. */
  method WalkFrom(d: Node, dirpath: Path, depth: nat, maxDepth: nat) returns (found: seq<Path>)
    requires d.Dir?
    ensures found == FoundIn(d, dirpath, depth, maxDepth)
    decreases d, 1
  {
    found := [];
    if !d.readable || depth > maxDepth {
      return;
    }
    // `"node_modules" in dirnames` and `dirnames.remove("node_modules")`
    var skip := FirstNodeModules(d.entries);
    if skip < |d.entries| {
      found := [dirpath + [NodeModules]];
    }
    var below := WalkBelow(d, skip, dirpath, depth, maxDepth);
    found := found + below;
  }

  /** The walk's descent into the subdirectories left in `dirnames`: those
      that are not the removed entry at `skip` and not symbolic links. */
  method WalkBelow(d: Node, skip: nat, dirpath: Path, depth: nat, maxDepth: nat) returns (found: seq<Path>)
    requires d.Dir?
    ensures found == FoundBelow(d, skip, dirpath, depth, maxDepth, |d.entries|)
    decreases d, 0
  {
    var entries := d.entries;
    found := [];
    var i := 0;
    while i < |entries|
      invariant 0 <= i <= |entries|
      invariant found == FoundBelow(d, skip, dirpath, depth, maxDepth, i)
    {
      var e := entries[i];
      assert e in d.entries;
      if i != skip && e.node.Dir? {
        var sub := WalkFrom(e.node, dirpath + [e.name], depth + 1, maxDepth);
        found := found + sub;
      }
      assert found == FoundBelow(d, skip, dirpath, depth, maxDepth, i + 1);
      i := i + 1;
    }
  }

  // ---------------------------------------------------------------------
  // Properties of the discovery walk

  /** Every path reported from `dirpath` is `dirpath`, then the names of the
      directories walked through, then `node_modules`; its parent directory
      lies at most `maxDepth` levels below the search root, so the path itself
      lies at most `maxDepth + 1` levels below it. */
  predicate WellPlaced(p: Path, dirpath: Path, depth: nat, maxDepth: nat) {
    |dirpath| < |p|
    && p[..|dirpath|] == dirpath
    && p[|p| - 1] == NodeModules
    && depth + (|p| - 1 - |dirpath|) <= maxDepth
  }

  lemma {:induction false} FoundInWellPlaced(d: Node, dirpath: Path, depth: nat, maxDepth: nat)
    requires d.Dir?
    ensures forall p :: p in FoundIn(d, dirpath, depth, maxDepth) ==> WellPlaced(p, dirpath, depth, maxDepth)
    decreases d, 1
  {
    if d.readable && depth <= maxDepth {
      FoundBelowWellPlaced(d, FirstNodeModules(d.entries), dirpath, depth, maxDepth, |d.entries|);
    }
  }

  lemma {:induction false} FoundBelowWellPlaced(d: Node, skip: nat, dirpath: Path, depth: nat, maxDepth: nat, i: nat)
    requires d.Dir? && i <= |d.entries|
    ensures forall p :: p in FoundBelow(d, skip, dirpath, depth, maxDepth, i) ==> WellPlaced(p, dirpath, depth, maxDepth)
    decreases d, 0, i
  {
    if i > 0 {
      FoundBelowWellPlaced(d, skip, dirpath, depth, maxDepth, i - 1);
      var e := d.entries[i - 1];
      if i - 1 != skip && e.node.Dir? {
        var sub := dirpath + [e.name];
        FoundInWellPlaced(e.node, sub, depth + 1, maxDepth);
        forall p | p in FoundIn(e.node, sub, depth + 1, maxDepth)
          ensures WellPlaced(p, dirpath, depth, maxDepth)
        {
          assert p[..|dirpath|] == p[..|sub|][..|dirpath|];
        }
      }
    }
  }

  /** No component between the search root and the final `node_modules` is
      itself `node_modules`: the walk never descends into a directory it has
      recorded (directory entries having distinct names). */
  predicate OutsideNodeModules(p: Path, dirpath: Path)
    requires |dirpath| < |p|
  {
    forall m :: |dirpath| <= m < |p| - 1 ==> p[m] != NodeModules
  }

  lemma {:induction false} FoundInNeverNested(d: Node, dirpath: Path, depth: nat, maxDepth: nat)
    requires d.Dir? && UniqueNames(d)
    ensures forall p :: p in FoundIn(d, dirpath, depth, maxDepth) ==> |dirpath| < |p| && OutsideNodeModules(p, dirpath)
    decreases d, 1
  {
    if d.readable && depth <= maxDepth {
      FoundBelowNeverNested(d, FirstNodeModules(d.entries), dirpath, depth, maxDepth, |d.entries|);
    }
  }

  lemma {:induction false} FoundBelowNeverNested(d: Node, skip: nat, dirpath: Path, depth: nat, maxDepth: nat, i: nat)
    requires d.Dir? && UniqueNames(d) && i <= |d.entries|
    requires skip == FirstNodeModules(d.entries)
    ensures forall p :: p in FoundBelow(d, skip, dirpath, depth, maxDepth, i) ==> |dirpath| < |p| && OutsideNodeModules(p, dirpath)
    decreases d, 0, i
  {
    if i > 0 {
      FoundBelowNeverNested(d, skip, dirpath, depth, maxDepth, i - 1);
      var e := d.entries[i - 1];
      if i - 1 != skip && e.node.Dir? {
        OnlyFirstNodeModules(d.entries, skip, i - 1);
        assert e.node < d;
        ChildNeverNested(e, dirpath, depth, maxDepth);
      }
    }
  }

  /** What the walk reports below a subdirectory not called `node_modules`
      stays outside every `node_modules` from the parent on. */
  lemma {:induction false} ChildNeverNested(e: Entry, dirpath: Path, depth: nat, maxDepth: nat)
    requires e.node.Dir? && UniqueNames(e.node) && e.name != NodeModules
    ensures forall p :: p in FoundIn(e.node, dirpath + [e.name], depth + 1, maxDepth) ==>
              |dirpath| < |p| && OutsideNodeModules(p, dirpath)
    decreases e.node, 2
  {
    var sub := dirpath + [e.name];
    FoundInNeverNested(e.node, sub, depth + 1, maxDepth);
    FoundInWellPlaced(e.node, sub, depth + 1, maxDepth);
    forall p | p in FoundIn(e.node, sub, depth + 1, maxDepth)
      ensures |dirpath| < |p| && OutsideNodeModules(p, dirpath)
    {
      ExtendOutside(p, dirpath, e.name);
    }
  }

  lemma ExtendOutside(p: Path, dirpath: Path, name: string)
    requires |dirpath| + 1 < |p| && p[..|dirpath| + 1] == dirpath + [name]
    requires name != NodeModules && OutsideNodeModules(p, dirpath + [name])
    ensures |dirpath| < |p| && OutsideNodeModules(p, dirpath)
  {
    assert p[|dirpath|] == p[..|dirpath| + 1][|dirpath|] == name;
  }

  /** In a directory whose entries have distinct names, the `node_modules`
      removed from `dirnames` is the only entry of that name the walk could
      enter. */
  lemma OnlyFirstNodeModules(entries: seq<Entry>, skip: nat, j: nat)
    requires DistinctNames(entries) && skip == FirstNodeModules(entries)
    requires j < |entries| && j != skip && IsDir(entries[j].node)
    ensures entries[j].name != NodeModules
  {
    if skip < j {
      assert entries[skip].name != entries[j].name;
    }
  }

  /** Hence no reported path is a proper extension of another reported path. */
  lemma NoResultInsideAnother(d: Node, dirpath: Path, depth: nat, maxDepth: nat, p: Path, q: Path)
    requires d.Dir? && UniqueNames(d)
    requires p in FoundIn(d, dirpath, depth, maxDepth) && q in FoundIn(d, dirpath, depth, maxDepth)
    ensures !(|p| < |q| && q[..|p|] == p)
  {
    FoundInWellPlaced(d, dirpath, depth, maxDepth);
    FoundInNeverNested(d, dirpath, depth, maxDepth);
    if |p| < |q| {
      assert |dirpath| <= |p| - 1 < |q| - 1;
      assert q[|p| - 1] != NodeModules;
      assert q[..|p|][|p| - 1] == q[|p| - 1];
    }
  }

  // ---------------------------------------------------------------------
  // What the results mean in the tree

  /** `rel` leads from the directory `d`, visited `depth` levels below the
      search root, to a `node_modules` directory the walk must record: `d`
      and every directory on the way are real directories that can be
      listed, lie at most `maxDepth` levels down and are not themselves
      called `node_modules`; the last step is a `node_modules` entry that
      resolves to a directory. */
  predicate WalkReaches(d: Node, rel: Path, depth: nat, maxDepth: nat)
    requires d.Dir?
    decreases |rel|
  {
    d.readable && depth <= maxDepth && rel != []
    && Child(d.entries, rel[0]).Some?
    && (var c := Child(d.entries, rel[0]).value;
        if |rel| == 1 then rel[0] == NodeModules && IsDir(c)
        else rel[0] != NodeModules && c.Dir? && WalkReaches(c, rel[1..], depth + 1, maxDepth))
  }

  /** What such a path leads to is a directory called `node_modules`. */
  lemma {:induction false} WalkReachesDir(d: Node, rel: Path, depth: nat, maxDepth: nat)
    requires d.Dir? && WalkReaches(d, rel, depth, maxDepth)
    ensures Descend(d, rel).Some? && IsDir(Descend(d, rel).value) && rel[|rel| - 1] == NodeModules
    decreases |rel|
  {
    if |rel| > 1 {
      var c := Child(d.entries, rel[0]).value;
      WalkReachesDir(c, rel[1..], depth + 1, maxDepth);
      assert rel[1..][|rel| - 2] == rel[|rel| - 1];
    }
  }

  /** `p` is `dirpath` followed by a path that `WalkReaches` from `d`. */
  predicate Reached(d: Node, dirpath: Path, depth: nat, maxDepth: nat, p: Path)
    requires d.Dir?
  {
    |dirpath| < |p| && p[..|dirpath|] == dirpath && WalkReaches(d, p[|dirpath|..], depth, maxDepth)
  }

  /** Soundness: everything the walk reports from `d` is a `node_modules`
      directory that `WalkReaches` from `d`. */
  lemma {:induction false} FoundInSound(d: Node, dirpath: Path, depth: nat, maxDepth: nat)
    requires d.Dir? && UniqueNames(d)
    ensures forall p :: p in FoundIn(d, dirpath, depth, maxDepth) ==> Reached(d, dirpath, depth, maxDepth, p)
    decreases d, 1
  {
    if d.readable && depth <= maxDepth {
      var k := FirstNodeModules(d.entries);
      if k < |d.entries| {
        ChildOfDistinct(d.entries, k);
        var p := dirpath + [NodeModules];
        assert p[..|dirpath|] == dirpath && p[|dirpath|..] == [NodeModules];
        assert Reached(d, dirpath, depth, maxDepth, p);
      }
      FoundBelowSound(d, k, dirpath, depth, maxDepth, |d.entries|);
    }
  }

  lemma {:induction false} FoundBelowSound(d: Node, skip: nat, dirpath: Path, depth: nat, maxDepth: nat, i: nat)
    requires d.Dir? && UniqueNames(d) && d.readable && depth <= maxDepth && i <= |d.entries|
    requires skip == FirstNodeModules(d.entries)
    ensures forall p :: p in FoundBelow(d, skip, dirpath, depth, maxDepth, i) ==> Reached(d, dirpath, depth, maxDepth, p)
    decreases d, 0, i
  {
    if i > 0 {
      FoundBelowSound(d, skip, dirpath, depth, maxDepth, i - 1);
      var e := d.entries[i - 1];
      if i - 1 != skip && e.node.Dir? {
        OnlyFirstNodeModules(d.entries, skip, i - 1);
        ChildOfDistinct(d.entries, i - 1);
        assert e.node < d;
        ChildSound(d, e, dirpath, depth, maxDepth);
      }
      var before := FoundBelow(d, skip, dirpath, depth, maxDepth, i - 1);
      var sub := FoundThrough(d, skip, dirpath, depth, maxDepth, i - 1);
      forall p | p in before + sub ensures Reached(d, dirpath, depth, maxDepth, p) {
        if p !in before {
          assert p in sub;
        }
      }
    }
  }

  /** What the walk reports below a subdirectory `e` of `d` that is not
      called `node_modules` is reached from `d` through `e`. */
  lemma {:induction false} ChildSound(d: Node, e: Entry, dirpath: Path, depth: nat, maxDepth: nat)
    requires d.Dir? && d.readable && depth <= maxDepth
    requires e.node.Dir? && UniqueNames(e.node) && e.name != NodeModules
    requires Child(d.entries, e.name) == Some(e.node)
    ensures forall p :: p in FoundIn(e.node, dirpath + [e.name], depth + 1, maxDepth) ==> Reached(d, dirpath, depth, maxDepth, p)
    decreases e.node, 2
  {
    var sub := dirpath + [e.name];
    FoundInSound(e.node, sub, depth + 1, maxDepth);
    forall p | p in FoundIn(e.node, sub, depth + 1, maxDepth)
      ensures Reached(d, dirpath, depth, maxDepth, p)
    {
      assert Reached(e.node, sub, depth + 1, maxDepth, p);
      var rel := p[|dirpath|..];
      assert p[..|dirpath|] == p[..|sub|][..|dirpath|] == dirpath;
      assert rel[0] == p[..|sub|][|dirpath|] == e.name;
      assert rel[1..] == p[|sub|..];
    }
  }

  /** Completeness: every `node_modules` directory that `WalkReaches` from
      `d` is reported. */
  lemma {:induction false} FoundInComplete(d: Node, dirpath: Path, depth: nat, maxDepth: nat, rel: Path)
    requires d.Dir? && WalkReaches(d, rel, depth, maxDepth)
    ensures dirpath + rel in FoundIn(d, dirpath, depth, maxDepth)
    decreases |rel|
  {
    var k := FirstNodeModules(d.entries);
    var c := Child(d.entries, rel[0]).value;
    ChildIn(d.entries, rel[0]);
    var i :| 0 <= i < |d.entries| && d.entries[i].name == rel[0] && d.entries[i].node == c;
    if |rel| == 1 {
      assert IsNodeModulesDir(d.entries[i]);
      assert k < |d.entries|;
      assert dirpath + rel == dirpath + [NodeModules];
    } else {
      assert i != k by {
        if k < |d.entries| {
          assert d.entries[k].name == NodeModules;
        }
      }
      FoundInComplete(c, dirpath + [rel[0]], depth + 1, maxDepth, rel[1..]);
      assert dirpath + [rel[0]] + rel[1..] == dirpath + rel;
      var p := dirpath + rel;
      assert p in FoundBelow(d, k, dirpath, depth, maxDepth, i + 1) by {
        assert FoundBelow(d, k, dirpath, depth, maxDepth, i + 1)
               == FoundBelow(d, k, dirpath, depth, maxDepth, i) + FoundIn(c, dirpath + [rel[0]], depth + 1, maxDepth);
      }
      FoundBelowGrows(d, k, dirpath, depth, maxDepth, i + 1, |d.entries|, p);
    }
  }

  /** The walk below a directory only adds results as it moves through the
      listing. */
  lemma {:induction false} FoundBelowGrows(d: Node, skip: nat, dirpath: Path, depth: nat, maxDepth: nat,
                                           m: nat, n: nat, p: Path)
    requires d.Dir? && m <= n <= |d.entries|
    requires p in FoundBelow(d, skip, dirpath, depth, maxDepth, m)
    ensures p in FoundBelow(d, skip, dirpath, depth, maxDepth, n)
    decreases n
  {
    if m < n {
      FoundBelowGrows(d, skip, dirpath, depth, maxDepth, m, n - 1, p);
    }
  }

  /** `p` is a `node_modules` directory the walk from the search root `r`
      must record. */
  predicate ReportedFrom(fs: Node, r: Path, p: Path, maxDepth: nat) {
    var n := Lookup(fs, r);
    Exists(n) && Resolve(n.value).value.Dir? && Reached(Resolve(n.value).value, r, 0, maxDepth, p)
  }

  lemma FoundAtRootExactly(fs: Node, r: Path, maxDepth: nat)
    requires UniqueNames(fs)
    ensures forall p :: p in FoundAtRoot(fs, r, maxDepth) <==> ReportedFrom(fs, r, p, maxDepth)
  {
    var n := Lookup(fs, r);
    if Exists(n) && Resolve(n.value).value.Dir? {
      var d := Resolve(n.value).value;
      UniqueNamesDescend(fs, r[1..]);
      UniqueNamesResolve(n.value);
      FoundInSound(d, r, 0, maxDepth);
      forall p | ReportedFrom(fs, r, p, maxDepth)
        ensures p in FoundAtRoot(fs, r, maxDepth)
      {
        FoundInComplete(d, r, 0, maxDepth, p[|r|..]);
        assert r + p[|r|..] == p;
      }
    }
  }

  /** The results are exactly the `node_modules` directories listed by a
      directory at most `maxDepth` levels below an existing search root and
      reached through real, listable directories none of which is itself
      `node_modules`. */
  lemma {:induction false} FoundAllExactly(fs: Node, roots: seq<Path>, maxDepth: nat)
    requires UniqueNames(fs)
    ensures forall p :: p in FoundAll(fs, roots, maxDepth) <==> exists r :: r in roots && ReportedFrom(fs, r, p, maxDepth)
  {
    if roots != [] {
      var init, last := roots[..|roots| - 1], roots[|roots| - 1];
      FoundAllExactly(fs, init, maxDepth);
      FoundAtRootExactly(fs, last, maxDepth);
      assert roots == init + [last];
      forall p | exists r :: r in roots && ReportedFrom(fs, r, p, maxDepth)
        ensures p in FoundAll(fs, roots, maxDepth)
      {
        var r :| r in roots && ReportedFrom(fs, r, p, maxDepth);
        if r != last {
          assert r in init;
        }
      }
    }
  }

  /** A recorded path names, on disk, a directory called `node_modules`. */
  lemma ReportedIsNodeModulesDir(fs: Node, r: Path, p: Path, maxDepth: nat)
    requires ReportedFrom(fs, r, p, maxDepth)
    ensures Lookup(fs, p).Some? && IsDir(Lookup(fs, p).value) && Name(p) == NodeModules
  {
    var d := Resolve(Lookup(fs, r).value).value;
    var rel := p[|r|..];
    assert Reached(d, r, 0, maxDepth, p);
    WalkReachesDir(d, rel, 0, maxDepth);
    assert p == r + rel;
    LookupBelow(fs, r, rel);
    assert p[|p| - 1] == rel[|rel| - 1];
  }

  /** Soundness on disk: every path `find_node_modules_roots` returns is a
      directory called `node_modules`. */
  lemma FoundAllOnDisk(fs: Node, roots: seq<Path>, maxDepth: nat)
    requires UniqueNames(fs)
    ensures forall p :: p in FoundAll(fs, roots, maxDepth) ==>
              Lookup(fs, p).Some? && IsDir(Lookup(fs, p).value) && Name(p) == NodeModules
  {
    FoundAllExactly(fs, roots, maxDepth);
    forall p | p in FoundAll(fs, roots, maxDepth)
      ensures Lookup(fs, p).Some? && IsDir(Lookup(fs, p).value) && Name(p) == NodeModules
    {
      var r :| r in roots && ReportedFrom(fs, r, p, maxDepth);
      ReportedIsNodeModulesDir(fs, r, p, maxDepth);
    }
  }

  /** Results come root by root, in the order of the roots. */
  lemma {:induction false} FoundAllAppend(fs: Node, a: seq<Path>, b: seq<Path>, maxDepth: nat)
    ensures FoundAll(fs, a + b, maxDepth) == FoundAll(fs, a, maxDepth) + FoundAll(fs, b, maxDepth)
    decreases |b|
  {
    if b == [] {
      assert a + b == a;
    } else {
      var b', last := b[..|b| - 1], b[|b| - 1];
      assert b == b' + [last];
      assert a + b == (a + b') + [last];
      FoundAllAppend(fs, a, b', maxDepth);
      FoundAllSnoc(fs, a + b', last, maxDepth);
      FoundAllSnoc(fs, b', last, maxDepth);
      ConcatAssociative(FoundAll(fs, a, maxDepth), FoundAll(fs, b', maxDepth), FoundAtRoot(fs, last, maxDepth));
    }
  }

  lemma ConcatAssociative(x: seq<Path>, y: seq<Path>, z: seq<Path>)
    ensures (x + y) + z == x + (y + z)
  {
  }

  lemma FoundAllSnoc(fs: Node, roots: seq<Path>, r: Path, maxDepth: nat)
    ensures FoundAll(fs, roots + [r], maxDepth) == FoundAll(fs, roots, maxDepth) + FoundAtRoot(fs, r, maxDepth)
  {
    assert (roots + [r])[..|roots|] == roots;
  }

  /** Every reported path lies below one of the search roots that exist and
      ends in `node_modules`; its parent directory is at most `maxDepth` levels
      down, so the path itself is at most `maxDepth + 1`. */
  lemma {:induction false} FoundAllBelowRoots(fs: Node, roots: seq<Path>, maxDepth: nat)
    ensures forall p :: p in FoundAll(fs, roots, maxDepth) ==>
              exists r :: r in roots && Exists(Lookup(fs, r)) && WellPlaced(p, r, 0, maxDepth)
  {
    if roots != [] {
      var init, r := roots[..|roots| - 1], roots[|roots| - 1];
      FoundAllBelowRoots(fs, init, maxDepth);
      var n := Lookup(fs, r);
      if Exists(n) && Resolve(n.value).value.Dir? {
        FoundInWellPlaced(Resolve(n.value).value, r, 0, maxDepth);
      }
      forall p | p in FoundAll(fs, roots, maxDepth)
        ensures exists r' :: r' in roots && Exists(Lookup(fs, r')) && WellPlaced(p, r', 0, maxDepth)
      {
        if p in FoundAll(fs, init, maxDepth) {
          var r' :| r' in init && Exists(Lookup(fs, r')) && WellPlaced(p, r', 0, maxDepth);
          assert r' in roots;
        } else {
          assert r in roots;
        }
      }
    }
  }
}
