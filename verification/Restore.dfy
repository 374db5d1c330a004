/** The restorer: blob fetch, the tree cache, the walk that installs files, and the planning walks. */
module Restore {
  import opened Wrappers
  import opened Bytes
  import opened TreeFormat
  import TreeReader
  import opened PathFilter
  import opened Snapshot
  import opened BlobStore

  const PLANNING_TICK_FILES: nat := 200

  function FetcherOf(c: Crypto, store: Store): Fetcher {
    (loc: BlobLoc) => Fetch(c, store, loc)
  }

  /** A tree loc describes a directory's snapshot. */
  ghost predicate LocDescribes(f: Fetcher, byId: bytes -> Result<bytes>, loc: BlobLoc, s: Snap) {
    match s
    case SDir(cs) => DescribesTree(f, byId, loc, cs)
    case SLostDir => SameById(f, byId, loc) && f(loc).Err?
    case _ => false
  }

  ghost predicate NothingUnder<T>(files: map<Path, T>, path: Path) {
    forall p :: p in files ==> !(path <= p)
  }

  /** Installing below a path adds no file anywhere else. */
  lemma {:induction false} InstallStaysUnder(s: Snap, path: Path, rel: bytes, flt: Filter, d: Dest)
    ensures forall p :: p in Install(s, path, rel, flt, d).files ==> p in d.files || path <= p
    decreases s
  {
    if s.SDir? && flt.Descend(rel) {
      InstallAllStaysUnder(s.children, path, rel, flt, Enter(path, d));
    }
  }

  lemma {:induction false} InstallAllStaysUnder(cs: seq<SnapChild>, path: Path, rel: bytes, flt: Filter, d: Dest)
    ensures forall p :: p in InstallAll(cs, path, rel, flt, d).files
              ==> p in d.files || exists i :: 0 <= i < |cs| && path + [cs[i].name] <= p
    decreases cs
  {
    if cs != [] {
      var init, c := cs[..|cs| - 1], cs[|cs| - 1];
      InstallAllStaysUnder(init, path, rel, flt, d);
      InstallStaysUnder(c.snap, path + [c.name], ChildRel(rel, c.name), flt, InstallAll(init, path, rel, flt, d));
      forall p | p in InstallAll(cs, path, rel, flt, d).files && p !in d.files
        ensures exists i :: 0 <= i < |cs| && path + [cs[i].name] <= p
      {
        if path + [c.name] <= p {
          assert path + [cs[|cs| - 1].name] <= p;
        } else {
          var i :| 0 <= i < |init| && path + [init[i].name] <= p;
          assert cs[i] == init[i];
        }
      }
    }
  }

  /** The next child's place is free when the directory's was and the names are distinct. */
  lemma NextPlaceFree(cs: seq<SnapChild>, i: nat, path: Path, rel: bytes, flt: Filter, d: Dest)
    requires i < |cs| && WellNamedAll(cs) && NothingUnder(d.files, path)
    ensures NothingUnder(InstallAll(cs[..i], path, rel, flt, d).files, path + [cs[i].name])
  {
    hide InstallAll;
    var place := path + [cs[i].name];
    InstallAllStaysUnder(cs[..i], path, rel, flt, d);
    forall p | p in InstallAll(cs[..i], path, rel, flt, d).files ensures !(place <= p) {
      if p in d.files {
        PlaceInside(path, cs[i].name, p);
      } else {
        var j :| 0 <= j < i && path + [cs[..i][j].name] <= p;
        SiblingPlaces(path, cs[i].name, cs[j].name, p);
      }
    }
  }

  lemma PlaceInside(path: Path, name: bytes, p: Path)
    ensures path + [name] <= p ==> path <= p
  {
    if path + [name] <= p {
      assert p[..|path|] == (path + [name])[..|path|] == path;
    }
  }

  lemma SiblingPlaces(path: Path, a: bytes, b: bytes, p: Path)
    ensures path + [a] <= p && path + [b] <= p ==> a == b
  {
    if path + [a] <= p && path + [b] <= p {
      assert p[|path|] == (path + [a])[|path|] == (path + [b])[|path|];
    }
  }

  lemma InstallAllNext(cs: seq<SnapChild>, i: nat, path: Path, rel: bytes, flt: Filter, d: Dest)
    requires i < |cs|
    ensures InstallAll(cs[..i + 1], path, rel, flt, d)
         == Install(cs[i].snap, path + [cs[i].name], ChildRel(rel, cs[i].name), flt,
             InstallAll(cs[..i], path, rel, flt, d))
  {
    assert cs[..i + 1][..i] == cs[..i];
  }

  lemma CountAllNext(cs: seq<SnapChild>, i: nat, rel: bytes, flt: Filter)
    requires i < |cs|
    ensures var (a, b) := (CountAll(cs[..i], rel, flt), Count(cs[i].snap, ChildRel(rel, cs[i].name), flt));
            CountAll(cs[..i + 1], rel, flt) == Totals(a.files + b.files, a.bytes + b.bytes)
  {
    assert cs[..i + 1][..i] == cs[..i];
  }

  lemma NoChildren(path: Path, rel: bytes, flt: Filter, d: Dest, cs: seq<SnapChild>)
    ensures InstallAll(cs[..0], path, rel, flt, d) == d && CountAll(cs[..0], rel, flt) == Totals(0, 0)
  {}

  /** What a described child's node is, case by case. */
  lemma ChildCases(f: Fetcher, byId: bytes -> Result<bytes>, n: Node, s: Snap)
    requires Describes(f, byId, n, s)
    ensures n.TreeNode? <==> !IsFile(s)
    ensures n.TreeNode? ==> LocDescribes(f, byId, n.treeBlobLoc, s)
    ensures n.FileNode? ==> (s.size, s.ino, s.nlink) == (n.meta.itemSize, n.meta.mac.ino, n.meta.mac.nlink)
    ensures n.FileNode? ==> FetchJoined(f, n.dataBlobLocs) == if s.SFile? then Ok(s.content) else Err
  {}

  /** The totals the planning walk shares through its recursion. */
  class Progress {
    var files: nat
    var bytes: int
    var ticks: nat

    constructor ()
      ensures files == 0 && bytes == 0 && ticks == 0
    {
      files, bytes, ticks := 0, 0, 0;
    }
  }

  /** What a dry run lists; directories are counted even where the filter then skips them. */
  class DryRun {
    var filesListed: nat
    var bytesWouldRestore: int
    var dirsListed: nat

    constructor ()
      ensures filesListed == 0 && bytesWouldRestore == 0 && dirsListed == 0
    {
      filesListed, bytesWouldRestore, dirsListed := 0, 0, 0;
    }
  }

  class Restore {
    const crypto: Crypto
    const store: Store

    var treeCache: map<bytes, bytes>
    var dirs: set<Path>
    var files: map<Path, Obj>
    var links: map<int, Path>
    var nextId: nat
    var dirsRestored: nat
    var filesRestored: nat
    var bytesRestored: nat
    var failures: seq<Path>

    function State(): Dest
      reads `dirs, `files, `links, `nextId, `dirsRestored, `filesRestored, `bytesRestored, `failures
    {
      Dest(dirs, files, links, nextId, dirsRestored, filesRestored, bytesRestored, failures)
    }

    /** Every cached plaintext is what its identifier stands for. */
    ghost predicate CacheHolds(byId: bytes -> Result<bytes>)
      reads `treeCache
    {
      forall id :: id in treeCache ==> byId(id) == Ok(treeCache[id])
    }

    /** A fresh restorer over an empty destination. */
    constructor (crypto: Crypto, store: Store)
      ensures this.crypto == crypto && this.store == store && State() == EMPTY && treeCache == map[]
    {
      this.crypto, this.store := crypto, store;
      treeCache, dirs, files, links, nextId := map[], {}, map[], map[], 0;
      dirsRestored, filesRestored, bytesRestored, failures := 0, 0, 0, [];
    }

    /** _fetch_tree_blob_cached */
    method FetchTree(loc: BlobLoc, ghost byId: bytes -> Result<bytes>) returns (r: Result<bytes>)
      requires CacheHolds(byId) && SameById(FetcherOf(crypto, store), byId, loc)
      modifies `treeCache
      ensures CacheHolds(byId) && r == FetcherOf(crypto, store)(loc)
    {
      var id := loc.blobIdentifier;
      if id != [] && id in treeCache {
        return Ok(treeCache[id]);
      }
      var plain :- Fetch(crypto, store, loc);
      if id != [] {
        treeCache := treeCache[id := plain];
      }
      return Ok(plain);
    }

    method FetchData(locs: seq<BlobLoc>) returns (r: Result<bytes>)
      ensures r == FetchJoined(FetcherOf(crypto, store), locs)
    {
      hide Fetch;
      ghost var f := FetcherOf(crypto, store);
      var body: bytes := [];
      var i := 0;
      while i < |locs|
        invariant 0 <= i <= |locs| && FetchJoined(f, locs[..i]) == Ok(body)
      {
        assert locs[..i + 1][..i] == locs[..i];
        var chunk := Fetch(crypto, store, locs[i]);
        if chunk.Err? {
          LostChunk(f, locs, i + 1);
          return Err;
        }
        body := body + chunk.value;
        i := i + 1;
      }
      assert locs[..|locs|] == locs;
      return Ok(body);
    }

    /** _restore_file_node into a place nothing occupies. */
    method RestoreFile(node: Node, path: Path, ghost s: Snap)
      requires node.FileNode? && IsFile(s) && path !in files
      requires (s.size, s.ino, s.nlink) == (node.meta.itemSize, node.meta.mac.ino, node.meta.mac.nlink)
      requires FetchJoined(FetcherOf(crypto, store), node.dataBlobLocs) == if s.SFile? then Ok(s.content) else Err
      modifies `files, `links, `nextId, `filesRestored, `bytesRestored, `failures
      ensures State() == InstallFile(s, path, old(State()))
    {
      var ino := node.meta.mac.ino;
      var linked := Linked(node.meta.mac.nlink, ino);
      if linked && ino in links && links[ino] in files {
        files := files[path := files[links[ino]]];
        filesRestored := filesRestored + 1;
        return;
      }
      var body := FetchData(node.dataBlobLocs);
      if body.Err? {
        failures := failures + [path];
        return;
      }
      files := files[path := Obj(nextId, body.value)];
      nextId := nextId + 1;
      bytesRestored := bytesRestored + |body.value|;
      filesRestored := filesRestored + 1;
      if linked {
        links := links[ino := path];
      }
    }

    /** _restore_dir_node: the walk installs exactly what the snapshot says, whatever is cached. */
    method RestoreDir(loc: BlobLoc, path: Path, rel: bytes, flt: Filter, ghost byId: bytes -> Result<bytes>,
        ghost s: Snap)
      requires CacheHolds(byId) && LocDescribes(FetcherOf(crypto, store), byId, loc, s)
      requires WellNamed(s) && NothingUnder(files, path)
      modifies this
      ensures CacheHolds(byId) && State() == Install(s, path, rel, flt, old(State()))
      decreases s
    {
      hide Fetch, ParseTree, InstallAll, InstallFile, DescribesAll, WellNamedAll, NothingUnder, ChildRel;
      ghost var f := FetcherOf(crypto, store);
      if !flt.Descend(rel) {
        return;
      }
      dirs := dirs + {path};
      dirsRestored := dirsRestored + 1;
      var fetched := FetchTree(loc, byId);
      if fetched.Err? {
        failures := failures + [path];
        return;
      }
      var parsed := TreeReader.ParseTreeBytes(fetched.value);
      var children := parsed.value.children;
      ghost var cs, start := s.children, State();
      RestoreChildren(children, path, rel, flt, byId, cs);
    }

    method RestoreChildren(
      children: seq<TreeChild>, path: Path, rel: bytes, flt: Filter,
      ghost byId: bytes -> Result<bytes>, ghost cs: seq<SnapChild>)
      requires CacheHolds(byId) && DescribesAll(FetcherOf(crypto, store), byId, children, cs)
      requires WellNamedAll(cs) && NothingUnder(files, path)
      modifies this
      ensures CacheHolds(byId) && State() == InstallAll(cs, path, rel, flt, old(State()))
      decreases cs
    {
      hide Fetch, InstallAll, InstallFile, WellNamed, NothingUnder, ChildRel, ValidName, LocDescribes;
      ghost var f := FetcherOf(crypto, store);
      ghost var start := State();
      NoChildren(path, rel, flt, start, cs);
      var i := 0;
      while i < |children|
        invariant 0 <= i <= |children|
        invariant CacheHolds(byId) && State() == InstallAll(cs[..i], path, rel, flt, start)
      {
        var child := children[i];
        ghost var s := cs[i].snap;
        ChildCases(f, byId, child.node, s);
        NextPlaceFree(cs, i, path, rel, flt, start);
        InstallAllNext(cs, i, path, rel, flt, start);
        var childRel := ChildRel(rel, child.name);
        if child.node.TreeNode? {
          RestoreDir(child.node.treeBlobLoc, path + [child.name], childRel, flt, byId, s);
        } else if flt.Matches(childRel) {
          PlaceFree(files, path + [child.name]);
          RestoreFile(child.node, path + [child.name], s);
        }
        i := i + 1;
      }
      assert cs[..|cs|] == cs;
    }

    /** _count_tree: the planned totals, with a planning event each time 200 more files are counted. */
    method CountTree(
      loc: BlobLoc, rel: bytes, flt: Filter, progress: Progress, callback: bool,
      ghost byId: bytes -> Result<bytes>, ghost s: Snap)
      returns (t: Totals)
      requires CacheHolds(byId) && LocDescribes(FetcherOf(crypto, store), byId, loc, s)
      requires callback ==> progress.ticks == progress.files / PLANNING_TICK_FILES
      modifies `treeCache, progress
      ensures CacheHolds(byId) && t == Count(s, rel, flt)
      ensures progress.files == old(progress.files) + t.files && progress.bytes == old(progress.bytes) + t.bytes
      ensures callback ==> progress.ticks == progress.files / PLANNING_TICK_FILES
      decreases s
    {
      hide Fetch, ParseTree, CountAll, DescribesAll, ChildRel;
      t := Totals(0, 0);
      if !flt.Descend(rel) {
        return;
      }
      var fetched := FetchTree(loc, byId);
      if fetched.Err? {
        return;
      }
      var parsed := TreeReader.ParseTreeBytes(fetched.value);
      t := CountChildren(parsed.value.children, rel, flt, progress, callback, byId, s.children);
    }

    method CountChildren(
      children: seq<TreeChild>, rel: bytes, flt: Filter, progress: Progress, callback: bool,
      ghost byId: bytes -> Result<bytes>, ghost cs: seq<SnapChild>)
      returns (t: Totals)
      requires CacheHolds(byId) && DescribesAll(FetcherOf(crypto, store), byId, children, cs)
      requires callback ==> progress.ticks == progress.files / PLANNING_TICK_FILES
      modifies `treeCache, progress
      ensures CacheHolds(byId) && t == CountAll(cs, rel, flt)
      ensures progress.files == old(progress.files) + t.files && progress.bytes == old(progress.bytes) + t.bytes
      ensures callback ==> progress.ticks == progress.files / PLANNING_TICK_FILES
      decreases cs
    {
      hide Fetch, CountAll, ChildRel, LocDescribes;
      t := Totals(0, 0);
      NoChildren([], rel, flt, EMPTY, cs);
      var i := 0;
      while i < |children|
        invariant 0 <= i <= |children|
        invariant CacheHolds(byId) && t == CountAll(cs[..i], rel, flt)
        invariant progress.files == old(progress.files) + t.files && progress.bytes == old(progress.bytes) + t.bytes
        invariant callback ==> progress.ticks == progress.files / PLANNING_TICK_FILES
      {
        var child := children[i];
        ghost var s := cs[i].snap;
        ChildCases(FetcherOf(crypto, store), byId, child.node, s);
        CountAllNext(cs, i, rel, flt);
        var childRel := ChildRel(rel, child.name);
        if child.node.TreeNode? {
          var sub := CountTree(child.node.treeBlobLoc, childRel, flt, progress, callback, byId, s);
          t := Totals(t.files + sub.files, t.bytes + sub.bytes);
        } else if flt.Matches(childRel) {
          var size := child.node.meta.itemSize;
          t := Totals(t.files + 1, t.bytes + size);
          progress.files := progress.files + 1;
          progress.bytes := progress.bytes + size;
          if callback && progress.files - progress.ticks * PLANNING_TICK_FILES >= PLANNING_TICK_FILES {
            progress.ticks := progress.ticks + 1;
          }
        }
        i := i + 1;
      }
      assert cs[..|cs|] == cs;
    }

    /** _dry_run_walk_tree: it lists the files and bytes the planning walk counts. */
    method DryRunTree(loc: BlobLoc, rel: bytes, flt: Filter, listing: DryRun, ghost byId: bytes -> Result<bytes>,
        ghost s: Snap)
      requires CacheHolds(byId) && LocDescribes(FetcherOf(crypto, store), byId, loc, s)
      modifies `treeCache, listing
      ensures CacheHolds(byId)
      ensures listing.filesListed == old(listing.filesListed) + Count(s, rel, flt).files
      ensures listing.bytesWouldRestore == old(listing.bytesWouldRestore) + Count(s, rel, flt).bytes
      decreases s
    {
      hide Fetch, ParseTree, CountAll, DescribesAll, ChildRel;
      if !flt.Descend(rel) {
        return;
      }
      var fetched := FetchTree(loc, byId);
      if fetched.Err? {
        return;
      }
      var parsed := TreeReader.ParseTreeBytes(fetched.value);
      DryRunChildren(parsed.value.children, rel, flt, listing, byId, s.children);
    }

    method DryRunChildren(
      children: seq<TreeChild>, rel: bytes, flt: Filter, listing: DryRun,
      ghost byId: bytes -> Result<bytes>, ghost cs: seq<SnapChild>)
      requires CacheHolds(byId) && DescribesAll(FetcherOf(crypto, store), byId, children, cs)
      modifies `treeCache, listing
      ensures CacheHolds(byId)
      ensures listing.filesListed == old(listing.filesListed) + CountAll(cs, rel, flt).files
      ensures listing.bytesWouldRestore == old(listing.bytesWouldRestore) + CountAll(cs, rel, flt).bytes
      decreases cs
    {
      hide Fetch, CountAll, ChildRel, LocDescribes;
      NoChildren([], rel, flt, EMPTY, cs);
      var i := 0;
      while i < |children|
        invariant 0 <= i <= |children| && CacheHolds(byId)
        invariant listing.filesListed == old(listing.filesListed) + CountAll(cs[..i], rel, flt).files
        invariant listing.bytesWouldRestore == old(listing.bytesWouldRestore) + CountAll(cs[..i], rel, flt).bytes
      {
        var child := children[i];
        ghost var s := cs[i].snap;
        ChildCases(FetcherOf(crypto, store), byId, child.node, s);
        CountAllNext(cs, i, rel, flt);
        var childRel := ChildRel(rel, child.name);
        if child.node.TreeNode? {
          listing.dirsListed := listing.dirsListed + 1;
          DryRunTree(child.node.treeBlobLoc, childRel, flt, listing, byId, s);
        } else if flt.Matches(childRel) {
          listing.filesListed := listing.filesListed + 1;
          listing.bytesWouldRestore := listing.bytesWouldRestore + child.node.meta.itemSize;
        }
        i := i + 1;
      }
      assert cs[..|cs|] == cs;
    }
  }

  lemma PlaceFree(files: map<Path, Obj>, path: Path)
    requires NothingUnder(files, path)
    ensures path !in files
  {}

  lemma {:induction false} LostChunk(f: Fetcher, locs: seq<BlobLoc>, i: nat)
    requires i <= |locs| && FetchJoined(f, locs[..i]).Err?
    ensures FetchJoined(f, locs).Err?
    decreases |locs|
  {
    if i == |locs| {
      assert locs[..i] == locs;
    } else {
      assert locs[..|locs| - 1][..i] == locs[..i];
      LostChunk(f, locs[..|locs| - 1], i);
    }
  }
}
