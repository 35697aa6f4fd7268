/** An abstract snapshot of the filesystem the cleaner scans.

    A path is the sequence of its `Path.parts`: an absolute path starts with
    the component "/", so `/var/tmp` is ["/", "var", "tmp"] and the Docker
    sentinel `Path("[Docker]")` is ["[Docker]"].

    A node is a regular file whose `stat` either yields a size or fails, a
    directory whose listing either succeeds or fails, or a symbolic link.  A
    link carries the node it resolves to (None when it dangles); that node
    lives outside the tree the link sits in, and no walk of this model ever
    goes through a link.
 */
module FsTree {
  import opened Wrappers

  type Path = seq<string>

  datatype Node =
    | File(stat: Option<nat>)
    | Dir(readable: bool, entries: seq<Entry>)
    | Link(target: Option<Node>)

  datatype Entry = Entry(name: string, node: Node)

  /** What `stat` (which follows links) sees: None for a dangling link. */
  function Resolve(n: Node): (r: Option<Node>)
    ensures r.Some? ==> !r.value.Link?
    ensures !n.Link? ==> r == Some(n)
  {
    match n
    case Link(t) => if t.None? then None else Resolve(t.value)
    case _ => Some(n)
  }

  /** `Path.exists()` of a looked-up node: `stat` succeeds, so the node
      resolves, and not to a regular file whose `stat` fails. */
  predicate Exists(n: Option<Node>) {
    n.Some? && Resolve(n.value).Some?
    && !(Resolve(n.value).value.File? && Resolve(n.value).value.stat.None?)
  }

  /** `Path.is_file()`: `stat` succeeds and reports a regular file. */
  predicate IsFile(n: Option<Node>) {
    Exists(n) && Resolve(n.value).value.File?
  }

  /** `Path.is_dir()`: the node resolves to a directory. */
  predicate IsDir(n: Node) {
    Resolve(n).Some? && Resolve(n).value.Dir?
  }

  /** The entry of `entries` called `name`, the first one if names repeat. */
  function Child(entries: seq<Entry>, name: string): Option<Node>
  {
    if entries == [] then None
    else if entries[0].name == name then Some(entries[0].node)
    else Child(entries[1..], name)
  }

  /** The node found at the components `rel` below `n`; intermediate links are
      followed, as the operating system does when it resolves a path, and the
      last component is returned as it is (a link stays a link). */
  function Descend(n: Node, rel: Path): Option<Node>
    decreases |rel|
  {
    if rel == [] then Some(n)
    else
      var r := Resolve(n);
      if r.None? || !r.value.Dir? then None
      else
        var c := Child(r.value.entries, rel[0]);
        if c.None? then None else Descend(c.value, rel[1..])
  }

  /** The node at an absolute path in the filesystem whose root directory is
      `root`; relative paths (the Docker sentinel) name nothing on disk. */
  function Lookup(root: Node, p: Path): (r: Option<Node>)
    ensures (|p| == 0 || p[0] != "/") ==> r.None?
  {
    if |p| == 0 || p[0] != "/" then None else Descend(root, p[1..])
  }

  /** `Path.name`: the last component, "" for the root or an empty path. */
  function Name(p: Path): (r: string)
    ensures |p| > 0 && !(|p| == 1 && p[0] == "/") ==> r == p[|p| - 1]
  {
    if |p| == 0 || (|p| == 1 && p[0] == "/") then "" else p[|p| - 1]
  }

  /** No two entries of a directory share a name, at every level of the tree
      and in every tree a link leads to; the operating system guarantees this
      of every real directory. */
  predicate UniqueNames(n: Node)
    decreases n, 1
  {
    match n
    case Dir(_, es) => DistinctNames(es) && forall i :: 0 <= i < |es| ==> UniqueNames(es[i].node)
    case Link(t) => t.None? || UniqueNames(t.value)
    case File(_) => true
  }

  predicate DistinctNames(es: seq<Entry>) {
    forall i, j :: 0 <= i < j < |es| ==> es[i].name != es[j].name
  }

  /** Where names are distinct, looking a name up finds the entry of that
      name. */
  lemma {:induction false} ChildOfDistinct(entries: seq<Entry>, i: nat)
    requires DistinctNames(entries) && i < |entries|
    ensures Child(entries, entries[i].name) == Some(entries[i].node)
  {
    if i > 0 {
      assert entries[0].name != entries[i].name;
      assert entries[1..][i - 1] == entries[i];
      ChildOfDistinct(entries[1..], i - 1);
    }
  }

  /** `Child` finds an entry of that name exactly when there is one. */
  lemma {:induction false} ChildIn(entries: seq<Entry>, name: string)
    ensures Child(entries, name).Some? ==>
      exists i :: 0 <= i < |entries| && entries[i].name == name && entries[i].node == Child(entries, name).value
    ensures Child(entries, name).None? ==> forall i :: 0 <= i < |entries| ==> entries[i].name != name
  {
    if entries != [] && entries[0].name != name {
      ChildIn(entries[1..], name);
      if Child(entries, name).Some? {
        var i :| 0 <= i < |entries[1..]| && entries[1..][i].name == name && entries[1..][i].node == Child(entries, name).value;
        assert entries[i + 1] == entries[1..][i];
      } else {
        forall i | 0 <= i < |entries| ensures entries[i].name != name {
          if i > 0 { assert entries[i] == entries[1..][i - 1]; }
        }
      }
    }
  }

  /** Looking up `a + b` is looking up `a`, then `b` from what was found. */
  lemma {:induction false} DescendAppend(n: Node, a: Path, b: Path)
    ensures Descend(n, a + b) == if Descend(n, a).None? then None else Descend(Descend(n, a).value, b)
    decreases |a|
  {
    if a == [] {
      assert a + b == b;
    } else {
      assert (a + b)[0] == a[0] && (a + b)[1..] == a[1..] + b;
      var r := Resolve(n);
      if r.Some? && r.value.Dir? {
        var c := Child(r.value.entries, a[0]);
        if c.Some? {
          DescendAppend(c.value, a[1..], b);
        }
      }
    }
  }

  /** Below a node, only what it resolves to matters. */
  lemma DescendResolved(n: Node, rel: Path)
    requires rel != [] && Resolve(n).Some?
    ensures Descend(n, rel) == Descend(Resolve(n).value, rel)
  {
  }

  /** Looking up `r + rel` is looking up `rel` in what `r` resolves to. */
  lemma LookupBelow(root: Node, r: Path, rel: Path)
    requires rel != [] && Lookup(root, r).Some? && Resolve(Lookup(root, r).value).Some?
    ensures Lookup(root, r + rel) == Descend(Resolve(Lookup(root, r).value).value, rel)
  {
    assert (r + rel)[1..] == r[1..] + rel;
    DescendAppend(root, r[1..], rel);
    DescendResolved(Lookup(root, r).value, rel);
  }

  lemma {:induction false} UniqueNamesResolve(n: Node)
    requires UniqueNames(n) && Resolve(n).Some?
    ensures UniqueNames(Resolve(n).value)
  {
    if n.Link? {
      UniqueNamesResolve(n.target.value);
    }
  }

  /** Every node found below a tree with distinct names has distinct names. */
  lemma {:induction false} UniqueNamesDescend(n: Node, rel: Path)
    requires UniqueNames(n) && Descend(n, rel).Some?
    ensures UniqueNames(Descend(n, rel).value)
    decreases |rel|
  {
    if rel != [] {
      UniqueNamesResolve(n);
      var r := Resolve(n).value;
      var c := Child(r.entries, rel[0]).value;
      ChildIn(r.entries, rel[0]);
      var i :| 0 <= i < |r.entries| && r.entries[i].name == rel[0] && r.entries[i].node == c;
      UniqueNamesDescend(c, rel[1..]);
    }
  }

}
