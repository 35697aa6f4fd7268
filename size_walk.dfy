/** The size walk (`safe_walk`): the bytes and the number of regular files
    under a path, never entering a symbolically linked directory and
    silently skipping every file whose `stat` fails. */
module SizeWalk {
  import opened Wrappers
  import opened FsTree

  /** A `(total_size, file_count)` pair. */
  datatype Pair<N> = Pair(size: N, files: N)
  type Totals = Pair<nat>

  function Plus(a: Totals, b: Totals): Totals {
    Pair(a.size + b.size, a.files + b.files)
  }

  const Zero: Totals := Pair(0, 0)

  /** What a successful `stat` of a regular file adds (its size, one file),
      or nothing when the `stat` fails. */
  function StatTotals(stat: Option<nat>): (t: Totals)
    ensures stat.None? ==> t == Zero
    ensures stat.Some? ==> t == Pair(stat.value, 1)
  {
    if stat.None? then Zero else Pair(stat.value, 1)
  }

  /** What an entry that the walk lists among a directory's files adds: the
      `stat` follows links, so a link to a regular file adds that file and a
      dangling link adds nothing. */
  function FileStat(n: Node): Totals {
    var r := Resolve(n);
    if r.Some? && r.value.File? then StatTotals(r.value.stat) else Zero
  }

  /** Reference definition: a directory entry contributes its whole subtree
      when it is a real directory, and otherwise whatever `stat` reports for a
      regular file; a link to a directory therefore contributes nothing. */
  function EntryTotals(n: Node): Totals
    decreases n, 2, 0
  {
    if n.Dir? then TreeTotals(n) else FileStat(n)
  }

  /** The totals of a directory's subtree; a directory that cannot be listed
      contributes nothing. */
  function TreeTotals(d: Node): Totals
    requires d.Dir?
    decreases d, 1, 0
  {
    if !d.readable then Zero else EntriesTotals(d, |d.entries|)
  }

  /** The sum of the contributions of the first `i` entries of `d`. */
  function EntriesTotals(d: Node, i: nat): Totals
    requires d.Dir? && i <= |d.entries|
    decreases d, 0, i
  {
    if i == 0 then Zero else Plus(EntriesTotals(d, i - 1), EntryTotals(d.entries[i - 1].node))
  }

  /** What `safe_walk` returns for the node found at a path. */
  function PathTotals(n: Option<Node>): (t: Totals)
    ensures !Exists(n) ==> t == Zero
    ensures IsFile(n) ==> t == Pair(Resolve(n.value).value.stat.value, 1)
  {
    if !Exists(n) then Zero
    else
      var r := Resolve(n.value).value;
      if r.File? then Pair(r.stat.value, 1) else TreeTotals(r)
  }

  // ---------------------------------------------------------------------
  // The walk as `os.walk(path, followlinks=False)` performs it: for each
  // directory, first the entries listed as files (those that do not resolve
  // to a directory), then the subdirectories left after pruning the
  // symbolic links.

  /** Sum over the first `i` entries that the walk lists as files. */
  function FilesTotals(d: Node, i: nat): Totals
    requires d.Dir? && i <= |d.entries|
  {
    if i == 0 then Zero
    else
      var n := d.entries[i - 1].node;
      if IsDir(n) then FilesTotals(d, i - 1) else Plus(FilesTotals(d, i - 1), FileStat(n))
  }

  /** Sum over the first `i` entries that the walk descends into. */
  function DirsTotals(d: Node, i: nat): Totals
    requires d.Dir? && i <= |d.entries|
    decreases d, i
  {
    if i == 0 then Zero
    else
      var n := d.entries[i - 1].node;
      if n.Dir? then Plus(DirsTotals(d, i - 1), TreeTotals(n)) else DirsTotals(d, i - 1)
  }

  /** Listing the files first and walking the subdirectories afterwards adds
      up to the reference definition: each entry is counted either as a file
      or as a subdirectory walked, and a linked directory as neither. */
  lemma {:induction false} FilesThenDirs(d: Node, i: nat)
    requires d.Dir? && i <= |d.entries|
    ensures EntriesTotals(d, i) == Plus(FilesTotals(d, i), DirsTotals(d, i))
  {
    if i > 0 {
      FilesThenDirs(d, i - 1);
      var n := d.entries[i - 1].node;
      var files, dirs, e := FilesTotals(d, i - 1), DirsTotals(d, i - 1), EntryTotals(n);
      assert EntriesTotals(d, i) == Plus(Plus(files, dirs), e);
      if n.Dir? {
        assert FilesTotals(d, i) == files;
        assert DirsTotals(d, i) == Plus(dirs, e);
      } else if IsDir(n) {
        assert FilesTotals(d, i) == files;
        assert DirsTotals(d, i) == dirs;
        assert e == Zero;
      } else {
        assert FilesTotals(d, i) == Plus(files, e);
        assert DirsTotals(d, i) == dirs;
      }
    }
  }

  /** `safe_walk(path)` on the node found at `path`. */
  method SafeWalk(n: Option<Node>) returns (t: Totals)
    ensures t == PathTotals(n)
  {
    if !Exists(n) {
      return Zero;
    }
    var r := Resolve(n.value).value;
    if r.File? {
      // `exists()` has just seen this `stat` succeed
      return Pair(r.stat.value, 1);
    }
    t := WalkDir(r);
  }

  /** The part of `os.walk` that lists one directory, adds its files and then
      walks each subdirectory that is not a symbolic link. */
  method WalkDir(d: Node) returns (t: Totals)
    requires d.Dir?
    ensures t == TreeTotals(d)
    decreases d
  {
    if !d.readable {
      // the listing fails; os.walk reports nothing for this directory
      return Zero;
    }
    var entries := d.entries;
    t := Zero;
    var i := 0;
    while i < |entries|
      invariant 0 <= i <= |entries|
      invariant t == FilesTotals(d, i)
    {
      var n := entries[i].node;
      if !IsDir(n) {
        var r := Resolve(n);
        if r.Some? && r.value.File? && r.value.stat.Some? {
          t := Pair(t.size + r.value.stat.value, t.files + 1);
        }
      }
      i := i + 1;
    }
    i := 0;
    while i < |entries|
      invariant 0 <= i <= |entries|
      invariant t == Plus(FilesTotals(d, |entries|), DirsTotals(d, i))
    {
      var n := entries[i].node;
      if n.Dir? {
        var sub := WalkDir(n);
        t := Plus(t, sub);
      }
      i := i + 1;
    }
    FilesThenDirs(d, |entries|);
  }

  // ---------------------------------------------------------------------
  // Properties of the walk

  /** Bytes are only ever counted together with a file: a walk that counted
      no file counted no byte. */
  lemma {:induction false} NoFilesNoBytes(n: Option<Node>)
    ensures PathTotals(n).files == 0 ==> PathTotals(n).size == 0
  {
    if Exists(n) {
      var r := Resolve(n.value).value;
      if r.Dir? {
        TreeNoFilesNoBytes(r);
      }
    }
  }

  lemma {:induction false} TreeNoFilesNoBytes(d: Node)
    requires d.Dir?
    ensures TreeTotals(d).files == 0 ==> TreeTotals(d).size == 0
    decreases d, 1
  {
    if d.readable {
      EntriesNoFilesNoBytes(d, |d.entries|);
    }
  }

  lemma {:induction false} EntriesNoFilesNoBytes(d: Node, i: nat)
    requires d.Dir? && i <= |d.entries|
    ensures EntriesTotals(d, i).files == 0 ==> EntriesTotals(d, i).size == 0
    decreases d, 0, i
  {
    if i > 0 {
      EntriesNoFilesNoBytes(d, i - 1);
      var n := d.entries[i - 1].node;
      if n.Dir? {
        TreeNoFilesNoBytes(n);
      }
    }
  }

  lemma {:induction false} EntriesTotalsOfPrefix(d: Node, e: Node, i: nat)
    requires d.Dir? && e.Dir? && i <= |d.entries| && i <= |e.entries|
    requires d.entries[..i] == e.entries[..i]
    ensures EntriesTotals(d, i) == EntriesTotals(e, i)
  {
    if i > 0 {
      assert d.entries[..i - 1] == d.entries[..i][..i - 1];
      assert e.entries[..i - 1] == e.entries[..i][..i - 1];
      EntriesTotalsOfPrefix(d, e, i - 1);
      assert d.entries[i - 1] == d.entries[..i][i - 1];
    }
  }

  /** A symbolic link to a directory is never entered: adding one to a
      directory, whatever tree it points to, leaves the totals unchanged. */
  lemma LinkedDirectoryIgnored(readable: bool, entries: seq<Entry>, name: string, target: Node)
    requires IsDir(Link(Some(target)))
    ensures TreeTotals(Dir(readable, entries + [Entry(name, Link(Some(target)))]))
         == TreeTotals(Dir(readable, entries))
  {
    var d := Dir(readable, entries);
    var d' := Dir(readable, entries + [Entry(name, Link(Some(target)))]);
    if readable {
      assert d'.entries[..|entries|] == d.entries[..|entries|];
      EntriesTotalsOfPrefix(d', d, |entries|);
      assert EntryTotals(d'.entries[|entries|].node) == Zero;
      assert EntriesTotals(d', |entries| + 1) == Plus(EntriesTotals(d', |entries|), Zero);
    }
  }

  /** Three files of 100, 200 and 400 bytes (one in a subdirectory) and a
      linked directory holding a 1000-byte file give (700, 3). */
  lemma LinkedScenario()
    ensures PathTotals(Some(Dir(true, [
              Entry("a", File(Some(100))),
              Entry("b", File(Some(200))),
              Entry("sub", Dir(true, [Entry("c", File(Some(400)))])),
              Entry("out", Link(Some(Dir(true, [Entry("big", File(Some(1000)))]))))
            ]))) == Pair(700, 3)
  {
    var sub := Dir(true, [Entry("c", File(Some(400)))]);
    var out := Link(Some(Dir(true, [Entry("big", File(Some(1000)))])));
    var root := Dir(true, [Entry("a", File(Some(100))), Entry("b", File(Some(200))), Entry("sub", sub), Entry("out", out)]);
    assert EntriesTotals(sub, 1) == Pair(400, 1);
    assert EntryTotals(sub) == Pair(400, 1);
    assert EntryTotals(out) == Zero;
    assert EntriesTotals(root, 1) == Pair(100, 1);
    assert EntriesTotals(root, 2) == Pair(300, 2);
    assert EntriesTotals(root, 3) == Pair(700, 3);
    assert EntriesTotals(root, 4) == Pair(700, 3);
  }
}
