/** Category assembly (`PathItem`, `Category`, `add_if_exists`, the user
    cache loop and `discover_categories`).  The filesystem is one snapshot
    `fs` (the root directory `/`), the home directory is an absolute path and
    the container engine answers through a `DockerEnv`. */
module Scan {
  import opened Wrappers
  import opened FsTree
  import opened Text
  import opened SizeWalk
  import Discovery
  import Docker

  /** One measured path: what `safe_walk` reported for it. */
  datatype PathItem = PathItem(path: Path, sizeBytes: nat, fileCount: nat)

  /** `sum(i.size_bytes for i in items)`: never below any one item. */
  function SumSizes(items: seq<PathItem>): (n: nat)
    ensures forall k :: 0 <= k < |items| ==> items[k].sizeBytes <= n
  {
    if items == [] then 0
    else
      var init := items[..|items| - 1];
      assert forall k :: 0 <= k < |init| ==> init[k] == items[k];
      SumSizes(init) + items[|items| - 1].sizeBytes
  }

  /** `sum(i.file_count for i in items)`: never below any one item. */
  function SumFiles(items: seq<PathItem>): (n: nat)
    ensures forall k :: 0 <= k < |items| ==> items[k].fileCount <= n
  {
    if items == [] then 0
    else
      var init := items[..|items| - 1];
      assert forall k :: 0 <= k < |init| ==> init[k] == items[k];
      SumFiles(init) + items[|items| - 1].fileCount
  }

  /** Sizes add up across a concatenation of item lists. */
  lemma {:induction false} SumSizesAppend(a: seq<PathItem>, b: seq<PathItem>)
    ensures SumSizes(a + b) == SumSizes(a) + SumSizes(b)
    decreases |b|
  {
    if b == [] {
      assert a + b == a;
    } else {
      assert (a + b)[..|a + b| - 1] == a + b[..|b| - 1];
      SumSizesAppend(a, b[..|b| - 1]);
    }
  }

  /** File counts add up across a concatenation of item lists. */
  lemma {:induction false} SumFilesAppend(a: seq<PathItem>, b: seq<PathItem>)
    ensures SumFiles(a + b) == SumFiles(a) + SumFiles(b)
    decreases |b|
  {
    if b == [] {
      assert a + b == a;
    } else {
      assert (a + b)[..|a + b| - 1] == a + b[..|b| - 1];
      SumFilesAppend(a, b[..|b| - 1]);
    }
  }

  /** The value a category holds at one moment. */
  datatype CategoryValue = CategoryValue(name: string, description: string, items: seq<PathItem>)

  /** A category of cleanable paths; `add_if_exists` and the user cache loop
      append to its items in place. */
  class Category {
    const name: string
    const description: string
    var items: seq<PathItem>

    constructor (name: string, description: string)
      ensures this.name == name && this.description == description && items == []
    {
      this.name := name;
      this.description := description;
      items := [];
    }

    /** `total_size`: at least each item's size. */
    function TotalSize(): (n: nat)
      reads this
      ensures forall k :: 0 <= k < |items| ==> items[k].sizeBytes <= n
    {
      SumSizes(items)
    }

    /** `total_files`: at least each item's file count. */
    function TotalFiles(): (n: nat)
      reads this
      ensures forall k :: 0 <= k < |items| ==> items[k].fileCount <= n
    {
      SumFiles(items)
    }

    function Value(): CategoryValue
      reads this
    {
      CategoryValue(name, description, items)
    }
  }

  /** The values of a list of categories. */
  function Snapshot(cs: seq<Category>): (vs: seq<CategoryValue>)
    reads set c | c in cs
    ensures |vs| == |cs|
  {
    if cs == [] then [] else Snapshot(cs[..|cs| - 1]) + [cs[|cs| - 1].Value()]
  }

  // ---------------------------------------------------------------------
  // add_if_exists

  /** The item `add_if_exists` records for `p`: what `safe_walk` measures. */
  function Measured(fs: Node, p: Path): PathItem {
    var t := PathTotals(Lookup(fs, p));
    PathItem(p, t.size, t.files)
  }

  /** `p.exists()` and then `count > 0 or p.is_file()`. */
  predicate Kept(fs: Node, p: Path) {
    var n := Lookup(fs, p);
    Exists(n) && (PathTotals(n).files > 0 || IsFile(n))
  }

  /** The items `add_if_exists(cat, paths)` appends, in the order of `paths`. */
  function AddedItems(fs: Node, paths: seq<Path>): seq<PathItem> {
    if paths == [] then []
    else
      var p := paths[|paths| - 1];
      AddedItems(fs, paths[..|paths| - 1]) + (if Kept(fs, p) then [Measured(fs, p)] else [])
  }

  /** An item is added exactly when its path exists and either holds a file
      the walk counted or is itself a file; it carries what the walk
      measured. */
  lemma {:induction false} AddedItemsMembers(fs: Node, paths: seq<Path>)
    ensures forall it :: it in AddedItems(fs, paths) <==> exists p :: p in paths && Kept(fs, p) && it == Measured(fs, p)
  {
    if paths != [] {
      var init, p := paths[..|paths| - 1], paths[|paths| - 1];
      AddedItemsMembers(fs, init);
      assert paths == init + [p];
      forall it | exists q :: q in paths && Kept(fs, q) && it == Measured(fs, q)
        ensures it in AddedItems(fs, paths)
      {
        var q :| q in paths && Kept(fs, q) && it == Measured(fs, q);
        if q != p {
          assert q in init;
        }
      }
    }
  }

  /** A path whose `stat` fails (`exists()` is false) never becomes an item,
      even though the walk would measure it as (0, 0). */
  lemma UnstatableNotAdded(fs: Node, paths: seq<Path>, p: Path)
    requires Lookup(fs, p).Some? && Resolve(Lookup(fs, p).value) == Some(File(None))
    ensures forall it :: it in AddedItems(fs, paths) ==> it.path != p
  {
    AddedItemsMembers(fs, paths);
    forall it | it in AddedItems(fs, paths)
      ensures it.path != p
    {
      var q :| q in paths && Kept(fs, q) && it == Measured(fs, q);
      assert it.path == q;
    }
  }

  /** Adding from two lists of paths in turn is adding from their
      concatenation: the items keep the order of the paths. */
  lemma {:induction false} AddedItemsAppend(fs: Node, a: seq<Path>, b: seq<Path>)
    ensures AddedItems(fs, a + b) == AddedItems(fs, a) + AddedItems(fs, b)
    decreases |b|
  {
    if b == [] {
      assert a + b == a;
    } else {
      assert (a + b)[..|a + b| - 1] == a + b[..|b| - 1];
      AddedItemsAppend(fs, a, b[..|b| - 1]);
    }
  }

  /** `add_if_exists(cat, paths)`. */
  method AddIfExists(cat: Category, fs: Node, paths: seq<Path>)
    modifies cat
    ensures cat.items == old(cat.items) + AddedItems(fs, paths)
  {
    for i := 0 to |paths|
      invariant cat.items == old(cat.items) + AddedItems(fs, paths[..i])
    {
      assert paths[..i + 1][..i] == paths[..i];
      var p := paths[i];
      var n := Lookup(fs, p);
      if Exists(n) {
        var t := SafeWalk(n);
        if t.files > 0 || IsFile(n) {
          cat.items := cat.items + [PathItem(p, t.size, t.files)];
        }
      }
    }
    assert paths[..|paths|] == paths;
  }

  // ---------------------------------------------------------------------
  // The user cache loop

  const ProtectedPrefix := "com.apple."

  /** What one child of the caches directory contributes: nothing when its
      name carries the protected prefix or the walk finds no bytes under
      it. */
  function CacheChild(caches: Path, e: Entry): seq<PathItem> {
    if StartsWith(e.name, ProtectedPrefix) then []
    else
      var t := PathTotals(Some(e.node));
      if t.size > 0 then [PathItem(caches + [e.name], t.size, t.files)] else []
  }

  /** The items the loop appends for the children `entries`, in listing
      order. */
  function CacheChildren(caches: Path, entries: seq<Entry>): seq<PathItem> {
    if entries == [] then []
    else CacheChildren(caches, entries[..|entries| - 1]) + CacheChild(caches, entries[|entries| - 1])
  }

  /** The user cache items as written: listing a caches directory that exists
      but cannot be listed raises out of the whole scan. */
  function UserCacheItemsAsWritten(fs: Node, caches: Path): Result<seq<PathItem>, string> {
    var n := Lookup(fs, caches);
    if !Exists(n) then Ok([])
    else
      var r := Resolve(n.value).value;
      if r.Dir? && r.readable then Ok(CacheChildren(caches, r.entries)) else Err("listing failed")
  }

  /** The user cache items, with a caches directory that cannot be listed
      contributing nothing. */
  function UserCacheItems(fs: Node, caches: Path): (items: seq<PathItem>)
    ensures UserCacheItemsAsWritten(fs, caches).Ok? ==> items == UserCacheItemsAsWritten(fs, caches).value
  {
    var n := Lookup(fs, caches);
    if !Exists(n) then []
    else
      var r := Resolve(n.value).value;
      if r.Dir? && r.readable then CacheChildren(caches, r.entries) else []
  }

  /** A user cache item is a child of the caches directory whose name does
      not carry the protected prefix and under which the walk found bytes,
      and so at least one file; every such child is an item. */
  lemma {:induction false} CacheChildrenMembers(caches: Path, entries: seq<Entry>)
    ensures forall it :: it in CacheChildren(caches, entries) <==>
      exists e :: (e in entries && !StartsWith(e.name, ProtectedPrefix) && PathTotals(Some(e.node)).size > 0
        && it == PathItem(caches + [e.name], PathTotals(Some(e.node)).size, PathTotals(Some(e.node)).files))
    ensures forall it :: it in CacheChildren(caches, entries) ==> it.sizeBytes > 0 && it.fileCount > 0
  {
    if entries != [] {
      var init, e := entries[..|entries| - 1], entries[|entries| - 1];
      CacheChildrenMembers(caches, init);
      assert entries == init + [e];
      NoFilesNoBytes(Some(e.node));
      forall it | exists e' :: (e' in entries && !StartsWith(e'.name, ProtectedPrefix) && PathTotals(Some(e'.node)).size > 0
        && it == PathItem(caches + [e'.name], PathTotals(Some(e'.node)).size, PathTotals(Some(e'.node)).files))
        ensures it in CacheChildren(caches, entries)
      {
        var e' :| e' in entries && !StartsWith(e'.name, ProtectedPrefix) && PathTotals(Some(e'.node)).size > 0
          && it == PathItem(caches + [e'.name], PathTotals(Some(e'.node)).size, PathTotals(Some(e'.node)).files);
        if e' != e {
          assert e' in init;
        }
      }
    }
  }

  /** A caches directory that exists but cannot be listed aborts the scan as
      written, and contributes no item once corrected. */
  lemma UnreadableCachesAborts(fs: Node, caches: Path, entries: seq<Entry>)
    requires Lookup(fs, caches) == Some(Dir(false, entries))
    ensures UserCacheItemsAsWritten(fs, caches).Err?
    ensures UserCacheItems(fs, caches) == []
  {
  }

  /** The user cache loop, appending to `cat`. */
  method UserCacheScan(cat: Category, fs: Node, caches: Path)
    modifies cat
    ensures cat.items == old(cat.items) + UserCacheItems(fs, caches)
  {
    var n := Lookup(fs, caches);
    if !Exists(n) {
      return;
    }
    var r := Resolve(n.value).value;
    if !(r.Dir? && r.readable) {
      return;
    }
    var entries := r.entries;
    for i := 0 to |entries|
      invariant cat.items == old(cat.items) + CacheChildren(caches, entries[..i])
    {
      assert entries[..i + 1][..i] == entries[..i];
      var e := entries[i];
      if StartsWith(e.name, ProtectedPrefix) {
        continue;
      }
      var t := SafeWalk(Some(e.node));
      if t.size > 0 {
        cat.items := cat.items + [PathItem(caches + [e.name], t.size, t.files)];
      }
    }
    assert entries[..|entries|] == entries;
  }

  // ---------------------------------------------------------------------
  // discover_categories

  const PlannedTotal: nat := 8

  // The names and descriptions of the eight categories.
  const TempName := "Temporary Files"
  const TempDescription := "Archivos temporales del sistema y apps"
  const LogsName := "System Log Files"
  const LogsDescription := "Logs del sistema y aplicaciones"
  const BrewName := "Homebrew Cache"
  const BrewDescription := "Caches y descargas de Homebrew"
  const BrowserName := "Browser Cache"
  const BrowserDescription := "Cache de navegadores"
  const NodeName := "Node Modules"
  const NodeDescription := "node_modules encontrados en proyectos"
  const UserCacheName := "User Cache Files"
  const UserCacheDescription := "Caches de usuario (excluyendo com.apple.*)"
  const DevName := "Development Cache"
  const DevDescription := "Caches de Xcode, npm, pip, yarn, etc."
  const DockerName := "Docker Data"
  const DockerDescription := "Imágenes y volúmenes no usados de Docker"

  const TempPaths: seq<Path> := [["/", "tmp"], ["/", "var", "tmp"], ["/", "private", "var", "tmp"], ["/", "private", "var", "folders"]]

  function LogPaths(home: Path): seq<Path> {
    [home + ["Library", "Logs"], ["/", "var", "log"], ["/", "Library", "Logs"]]
  }

  function BrewPaths(home: Path): seq<Path> {
    [home + ["Library", "Caches", "Homebrew"], ["/", "Library", "Caches", "Homebrew"], ["/", "opt", "homebrew", "var", "homebrew"]]
  }

  function BrowserPaths(home: Path): seq<Path> {
    var caches := home + ["Library", "Caches"];
    [caches + ["com.apple.Safari"], caches + ["Google", "Chrome"], caches + ["Firefox"],
     caches + ["Mozilla"], caches + ["BraveSoftware"], caches + ["Microsoft Edge"]]
  }

  function ProjectRoots(home: Path): seq<Path> {
    [home + ["Projects"], home + ["Documents"], home + ["workspace"], home + ["Work"]]
  }

  const NodeModulesDepth: nat := 5

  function CachesDir(home: Path): Path {
    home + ["Library", "Caches"]
  }

  function DevPaths(home: Path): seq<Path> {
    var xcode := home + ["Library", "Developer", "Xcode"];
    [xcode + ["DerivedData"], xcode + ["Archives"], xcode + ["iOS DeviceSupport"],
     home + ["Library", "Caches", "CocoaPods"], home + [".npm"], home + [".cache", "yarn"],
     home + [".cache", "pip"], home + [".pnpm-store"]]
  }

  /** `Path("[Docker]")`, the item that stands for the engine's data. */
  const DockerSentinel: Path := ["[Docker]"]

  /** The single Docker item: the reclaimable bytes when the engine runs, 0
      otherwise, and never any file. */
  function DockerItem(env: Docker.DockerEnv): PathItem {
    PathItem(DockerSentinel, if Docker.IsRunning(env) then Docker.Reclaimable(env) else 0, 0)
  }

  /** The first four categories, measured from fixed lists of paths. */
  function PlannedFixed(fs: Node, home: Path): seq<CategoryValue> {
    [CategoryValue(TempName, TempDescription, AddedItems(fs, TempPaths)),
     CategoryValue(LogsName, LogsDescription, AddedItems(fs, LogPaths(home))),
     CategoryValue(BrewName, BrewDescription, AddedItems(fs, BrewPaths(home))),
     CategoryValue(BrowserName, BrowserDescription, AddedItems(fs, BrowserPaths(home)))]
  }

  /** The last four categories: the discovered `node_modules`, the user
      caches, the development caches and the engine's data. */
  function PlannedFound(fs: Node, home: Path, env: Docker.DockerEnv): seq<CategoryValue> {
    [CategoryValue(NodeName, NodeDescription,
       AddedItems(fs, Discovery.FoundAll(fs, ProjectRoots(home), NodeModulesDepth))),
     CategoryValue(UserCacheName, UserCacheDescription, UserCacheItems(fs, CachesDir(home))),
     CategoryValue(DevName, DevDescription, AddedItems(fs, DevPaths(home))),
     CategoryValue(DockerName, DockerDescription, [DockerItem(env)])]
  }

  /** The eight categories in the order the scan builds them, before empty
      ones are dropped. */
  function Planned(fs: Node, home: Path, env: Docker.DockerEnv): (cs: seq<CategoryValue>)
    ensures |cs| == PlannedTotal
  {
    PlannedFixed(fs, home) + PlannedFound(fs, home, env)
  }

  /** `[c for c in categories if c.items]`. */
  function NonEmpty(cs: seq<CategoryValue>): seq<CategoryValue> {
    if cs == [] then []
    else
      var c := cs[|cs| - 1];
      NonEmpty(cs[..|cs| - 1]) + (if c.items != [] then [c] else [])
  }

  /** The filter keeps a category exactly when it has items. */
  lemma {:induction false} NonEmptyMembers(cs: seq<CategoryValue>)
    ensures forall c :: c in NonEmpty(cs) <==> c in cs && c.items != []
  {
    if cs != [] {
      var init, c := cs[..|cs| - 1], cs[|cs| - 1];
      NonEmptyMembers(init);
      assert cs == init + [c];
    }
  }

  /** The filter keeps the order: filtering a concatenation filters each
      part. */
  lemma {:induction false} NonEmptyAppend(a: seq<CategoryValue>, b: seq<CategoryValue>)
    ensures NonEmpty(a + b) == NonEmpty(a) + NonEmpty(b)
    decreases |b|
  {
    if b == [] {
      assert a + b == a;
    } else {
      assert (a + b)[..|a + b| - 1] == a + b[..|b| - 1];
      NonEmptyAppend(a, b[..|b| - 1]);
    }
  }

  /** What `discover_categories` returns. */
  function Discovered(fs: Node, home: Path, env: Docker.DockerEnv): seq<CategoryValue> {
    NonEmpty(Planned(fs, home, env))
  }

  /** The Docker category is always the last one returned, even when there
      is nothing to reclaim, and holds exactly the sentinel item with no
      files. */
  lemma DockerAlwaysLast(fs: Node, home: Path, env: Docker.DockerEnv)
    ensures |Discovered(fs, home, env)| > 0
    ensures Discovered(fs, home, env)[|Discovered(fs, home, env)| - 1]
         == CategoryValue(DockerName, DockerDescription, [DockerItem(env)])
    ensures DockerItem(env).fileCount == 0
    ensures DockerItem(env).sizeBytes == (if Docker.IsRunning(env) then Docker.Reclaimable(env) else 0)
  {
    var cs := Planned(fs, home, env);
    assert cs == cs[..7] + [cs[7]];
    NonEmptyAppend(cs[..7], [cs[7]]);
    assert NonEmpty([cs[7]]) == [cs[7]] by {
      assert [cs[7]][..0] == [];
    }
  }

  /** Every category returned has at least one item, and a category with
      items is never dropped. */
  lemma DiscoveredNonEmpty(fs: Node, home: Path, env: Docker.DockerEnv)
    ensures forall c :: c in Discovered(fs, home, env) <==> c in Planned(fs, home, env) && c.items != []
  {
    NonEmptyMembers(Planned(fs, home, env));
  }

  lemma SnapshotAppend(cs: seq<Category>, c: Category)
    ensures Snapshot(cs + [c]) == Snapshot(cs) + [c.Value()]
  {
    assert (cs + [c])[..|cs|] == cs;
  }

  /** A new category filled by `add_if_exists`. */
  method Filled(name: string, description: string, fs: Node, paths: seq<Path>) returns (c: Category)
    ensures fresh(c)
    ensures c.Value() == CategoryValue(name, description, AddedItems(fs, paths))
  {
    c := new Category(name, description);
    AddIfExists(c, fs, paths);
  }

  /** `discover_categories(progress_cb)`: the categories in their original
      order with the empty ones dropped, and the progress steps reported. */
  method DiscoverCategories(fs: Node, home: Path, env: Docker.DockerEnv)
      returns (categories: seq<Category>, progress: seq<(nat, nat)>)
    ensures Snapshot(categories) == Discovered(fs, home, env)
    ensures |progress| == PlannedTotal
    ensures forall k :: 0 <= k < |progress| ==> progress[k] == (k + 1, PlannedTotal)
  {
    var fixed, early := FixedCategories(fs, home);
    ghost var fixedValues := Snapshot(fixed);
    var found;
    found, progress := FoundCategories(fs, home, env, early);
    assert Snapshot(fixed) == fixedValues;
    SnapshotConcat(fixed, found);
    assert Snapshot(fixed + found) == Planned(fs, home, env);
    forall k | 0 <= k < 4
      ensures progress[k] == (k + 1, PlannedTotal)
    {
      assert progress[k] == progress[..4][k] == early[k];
    }
    categories := KeepNonEmpty(fixed + found);
  }

  /** Steps 1 to 4: categories over fixed lists of paths. */
  method FixedCategories(fs: Node, home: Path) returns (all: seq<Category>, progress: seq<(nat, nat)>)
    ensures Snapshot(all) == PlannedFixed(fs, home)
    ensures |progress| == 4
    ensures forall k :: 0 <= k < |progress| ==> progress[k] == (k + 1, PlannedTotal)
  {
    var step := 0;
    progress := [];

    step := step + 1;
    progress := progress + [(step, PlannedTotal)];
    var temp := Filled(TempName, TempDescription, fs, TempPaths);

    step := step + 1;
    progress := progress + [(step, PlannedTotal)];
    var logs := Filled(LogsName, LogsDescription, fs, LogPaths(home));

    step := step + 1;
    progress := progress + [(step, PlannedTotal)];
    var brew := Filled(BrewName, BrewDescription, fs, BrewPaths(home));

    step := step + 1;
    progress := progress + [(step, PlannedTotal)];
    assert forall k :: 0 <= k < step ==> progress[k] == (k + 1, PlannedTotal);
    var browser := Filled(BrowserName, BrowserDescription, fs, BrowserPaths(home));

    all := [temp, logs, brew, browser];
    SnapshotOfFour(temp, logs, brew, browser);
  }

  /** Steps 5 to 8, continuing the progress reports of steps 1 to 4. */
  method FoundCategories(fs: Node, home: Path, env: Docker.DockerEnv, before: seq<(nat, nat)>)
      returns (all: seq<Category>, progress: seq<(nat, nat)>)
    requires |before| == 4
    ensures Snapshot(all) == PlannedFound(fs, home, env)
    ensures |progress| == PlannedTotal
    ensures progress[..4] == before
    ensures forall k :: 4 <= k < |progress| ==> progress[k] == (k + 1, PlannedTotal)
  {
    var step := |before|;
    progress := before;

    step := step + 1;
    progress := progress + [(step, PlannedTotal)];
    var dirs := Discovery.FindNodeModulesRoots(fs, ProjectRoots(home), NodeModulesDepth);
    var node := Filled(NodeName, NodeDescription, fs, dirs);

    step := step + 1;
    progress := progress + [(step, PlannedTotal)];
    var userCache := UserCacheCategory(fs, CachesDir(home));

    step := step + 1;
    progress := progress + [(step, PlannedTotal)];
    var dev := Filled(DevName, DevDescription, fs, DevPaths(home));

    step := step + 1;
    progress := progress + [(step, PlannedTotal)];
    assert forall k :: 4 <= k < step ==> progress[k] == (k + 1, PlannedTotal);
    var docker := DockerCategory(env);

    all := [node, userCache, dev, docker];
    SnapshotOfFour(node, userCache, dev, docker);
  }

  /** The user cache category, filled by the user cache loop. */
  method UserCacheCategory(fs: Node, caches: Path) returns (c: Category)
    ensures fresh(c)
    ensures c.Value() == CategoryValue(UserCacheName, UserCacheDescription, UserCacheItems(fs, caches))
  {
    c := new Category(UserCacheName, UserCacheDescription);
    UserCacheScan(c, fs, caches);
  }

  /** The Docker category with its one sentinel item. */
  method DockerCategory(env: Docker.DockerEnv) returns (c: Category)
    ensures fresh(c)
    ensures c.Value() == CategoryValue(DockerName, DockerDescription, [DockerItem(env)])
  {
    c := new Category(DockerName, DockerDescription);
    var reclaimable := 0;
    if Docker.IsRunning(env) {
      reclaimable := Docker.GetDockerReclaimableBytes(env);
    }
    c.items := c.items + [PathItem(DockerSentinel, reclaimable, 0)];
  }

  /** `[c for c in categories if c.items]` over the category objects. */
  method KeepNonEmpty(all: seq<Category>) returns (kept: seq<Category>)
    ensures Snapshot(kept) == NonEmpty(Snapshot(all))
    ensures forall c :: c in kept ==> c in all
  {
    kept := [];
    for i := 0 to |all|
      invariant Snapshot(kept) == NonEmpty(Snapshot(all[..i]))
      invariant forall c :: c in kept ==> c in all
    {
      SnapshotPrefix(all, i);
      NonEmptySnoc(Snapshot(all[..i]), all[i].Value());
      if all[i].items != [] {
        SnapshotAppend(kept, all[i]);
        kept := kept + [all[i]];
      }
    }
    assert all[..|all|] == all;
  }

  lemma SnapshotPrefix(all: seq<Category>, i: nat)
    requires i < |all|
    ensures Snapshot(all[..i + 1]) == Snapshot(all[..i]) + [all[i].Value()]
  {
    assert all[..i + 1] == all[..i] + [all[i]];
    SnapshotAppend(all[..i], all[i]);
  }

  lemma NonEmptySnoc(cs: seq<CategoryValue>, c: CategoryValue)
    ensures NonEmpty(cs + [c]) == NonEmpty(cs) + (if c.items != [] then [c] else [])
  {
    assert (cs + [c])[..|cs|] == cs;
  }

  lemma SnapshotOfFour(c0: Category, c1: Category, c2: Category, c3: Category)
    ensures Snapshot([c0, c1, c2, c3]) == [c0.Value(), c1.Value(), c2.Value(), c3.Value()]
  {
    assert [c0] == [] + [c0];
    SnapshotAppend([], c0);
    assert [c0, c1] == [c0] + [c1];
    SnapshotAppend([c0], c1);
    assert [c0, c1, c2] == [c0, c1] + [c2];
    SnapshotAppend([c0, c1], c2);
    assert [c0, c1, c2, c3] == [c0, c1, c2] + [c3];
    SnapshotAppend([c0, c1, c2], c3);
  }

  lemma {:induction false} SnapshotConcat(a: seq<Category>, b: seq<Category>)
    ensures Snapshot(a + b) == Snapshot(a) + Snapshot(b)
    decreases |b|
  {
    if b == [] {
      assert a + b == a;
    } else {
      var init := b[..|b| - 1];
      assert a + b == (a + init) + [b[|b| - 1]];
      SnapshotConcat(a, init);
      SnapshotAppend(a + init, b[|b| - 1]);
      SnapshotAppend(init, b[|b| - 1]);
      assert b == init + [b[|b| - 1]];
    }
  }
}
