/**
 What a backup means. A source tree is recorded as a snapshot, a snapshot is what a node of
 the blob store describes, and restoring it installs files at a destination.
*/
module Snapshot {
  import opened Wrappers
  import opened Bytes
  import opened TreeFormat
  import opened PathFilter

  /* ---- The source ---- */

  /** What stat() reports of a file; metadata that is only copied through is in `owner` and `times`. */
  datatype Stat = Stat(
    dev: int, ino: uint64, nlink: uint32, mode: uint32, uid: uint32, gid: uint32,
    times: Times, username: Option<bytes>, groupName: Option<bytes>)

  /**
   A source entry. Skipped stands for whatever makes the walk return None: an exclusion, a size
   limit, a special file, a failed read. A directory's entries are in name order.
  */
  datatype Entry =
    | File(stat: Stat, content: bytes)
    | Dir(stat: Stat, entries: seq<Named>)
    | Skipped

  datatype Named = Named(name: bytes, entry: Entry)

  predicate Linked(nlink: int, ino: int) { nlink > 1 && ino != 0 }

  ghost predicate ValidEntries(es: seq<Named>)
    decreases es
  {
    && |es| < TWO_TO_64
    && (forall i, j :: 0 <= i < j < |es| ==> es[i].name != es[j].name)
    && (forall i :: 0 <= i < |es| ==> ValidName(es[i].name) && |es[i].name| < TWO_TO_64)
    && (forall i :: 0 <= i < |es| ==> ValidEntry(es[i].entry))
  }

  ghost predicate ValidStat(s: Stat) {
    (s.username.Some? ==> |s.username.value| < TWO_TO_64) && (s.groupName.Some? ==> |s.groupName.value| < TWO_TO_64)
  }

  /** Names are proper and distinct, and no length reaches 2^64. */
  ghost predicate ValidEntry(e: Entry)
    decreases e
  {
    match e
    case File(st, content) => ValidStat(st) && |content| < TWO_TO_63
    case Dir(st, es) => ValidStat(st) && ValidEntries(es)
    case Skipped => true
  }

  /* ---- The snapshot, as read from a store ---- */

  /** SLostFile and SLostDir are nodes whose blobs cannot be fetched. */
  datatype Snap =
    | SFile(content: bytes, size: int, ino: int, nlink: int)
    | SLostFile(size: int, ino: int, nlink: int)
    | SDir(children: seq<SnapChild>)
    | SLostDir

  datatype SnapChild = SnapChild(name: bytes, snap: Snap)

  predicate IsFile(s: Snap) { s.SFile? || s.SLostFile? }

  type Fetcher = BlobLoc -> Result<bytes>

  /** The blobs of a file node, fetched in order and joined. */
  function FetchJoined(f: Fetcher, locs: seq<BlobLoc>): Result<bytes> {
    if locs == [] then Ok([])
    else
      var init :- FetchJoined(f, locs[..|locs| - 1]);
      var last :- f(locs[|locs| - 1]);
      Ok(init + last)
  }

  /** A tree blob is fetched, by location or by identifier, to the same plaintext. */
  predicate SameById(f: Fetcher, byId: bytes -> Result<bytes>, loc: BlobLoc) {
    loc.blobIdentifier != [] ==> f(loc) == byId(loc.blobIdentifier)
  }

  ghost predicate Describes(f: Fetcher, byId: bytes -> Result<bytes>, n: Node, s: Snap)
    decreases s
  {
    match s
    case SFile(content, size, ino, nlink) =>
      n.FileNode? && FetchJoined(f, n.dataBlobLocs) == Ok(content)
      && (size, ino, nlink) == (n.meta.itemSize, n.meta.mac.ino, n.meta.mac.nlink)
    case SLostFile(size, ino, nlink) =>
      n.FileNode? && FetchJoined(f, n.dataBlobLocs).Err?
      && (size, ino, nlink) == (n.meta.itemSize, n.meta.mac.ino, n.meta.mac.nlink)
    case SDir(cs) => n.TreeNode? && DescribesTree(f, byId, n.treeBlobLoc, cs)
    case SLostDir => n.TreeNode? && SameById(f, byId, n.treeBlobLoc) && f(n.treeBlobLoc).Err?
  }

  ghost predicate DescribesTree(f: Fetcher, byId: bytes -> Result<bytes>, loc: BlobLoc, cs: seq<SnapChild>)
    decreases cs
  {
    && SameById(f, byId, loc) && f(loc).Ok? && ParseTree(f(loc).value).Ok?
    && DescribesAll(f, byId, ParseTree(f(loc).value).value.children, cs)
  }

  ghost predicate DescribesAll(f: Fetcher, byId: bytes -> Result<bytes>, ts: seq<TreeChild>, cs: seq<SnapChild>)
    decreases cs, 0
  {
    && |ts| == |cs|
    && forall i :: 0 <= i < |cs| ==> ts[i].name == cs[i].name && Describes(f, byId, ts[i].node, cs[i].snap)
  }

  ghost predicate Intact(s: Snap)
    decreases s
  {
    match s
    case SFile(_, _, _, _) => true
    case SDir(cs) => forall i :: 0 <= i < |cs| ==> Intact(cs[i].snap)
    case _ => false
  }

  /** Entries of every directory have proper, distinct names. */
  ghost predicate WellNamed(s: Snap)
    decreases s
  {
    s.SDir? ==> WellNamedAll(s.children)
  }

  ghost predicate WellNamedAll(cs: seq<SnapChild>)
    decreases cs
  {
    && (forall i, j :: 0 <= i < j < |cs| ==> cs[i].name != cs[j].name)
    && forall i :: 0 <= i < |cs| ==> ValidName(cs[i].name) && WellNamed(cs[i].snap)
  }

  /* ---- What the writer records ---- */

  type Links = map<(int, int), Snap>

  /** The snapshot of an entry, given the links already walked; None when it is skipped. */
  function Record(e: Entry, links: Links): (Option<Snap>, Links)
    decreases e
  {
    match e
    case Skipped => (None, links)
    case File(st, content) =>
      var key := (st.dev, st.ino);
      if Linked(st.nlink, st.ino) && key in links then (Some(links[key]), links)
      else
        var s := SFile(content, |content|, st.ino, st.nlink);
        (Some(s), if st.nlink > 1 then links[key := s] else links)
    case Dir(_, es) =>
      var (cs, links') := RecordAll(es, links);
      (Some(SDir(cs)), links')
  }

  function RecordAll(es: seq<Named>, links: Links): (seq<SnapChild>, Links)
    decreases es
  {
    if es == [] then ([], links)
    else
      var (cs, links1) := RecordAll(es[..|es| - 1], links);
      var last := es[|es| - 1];
      var (s, links2) := Record(last.entry, links1);
      (if s.Some? then cs + [SnapChild(last.name, s.value)] else cs, links2)
  }

  /* ---- What restoring installs ---- */

  /** A destination file: two paths with the same id are hard links to one body. */
  datatype Obj = Obj(id: nat, body: bytes)

  datatype Dest = Dest(
    dirs: set<Path>, files: map<Path, Obj>, links: map<int, Path>, nextId: nat,
    dirsRestored: nat, filesRestored: nat, bytesRestored: nat, failures: seq<Path>)

  const EMPTY: Dest := Dest({}, map[], map[], 0, 0, 0, 0, [])

  function InstallFile(s: Snap, path: Path, d: Dest): Dest
    requires IsFile(s)
  {
    if Linked(s.nlink, s.ino) && s.ino in d.links && d.links[s.ino] in d.files then
      d.(files := d.files[path := d.files[d.links[s.ino]]], filesRestored := d.filesRestored + 1)
    else if s.SLostFile? then d.(failures := d.failures + [path])
    else
      d.(files := d.files[path := Obj(d.nextId, s.content)], nextId := d.nextId + 1,
         filesRestored := d.filesRestored + 1, bytesRestored := d.bytesRestored + |s.content|,
         links := if Linked(s.nlink, s.ino) then d.links[s.ino := path] else d.links)
  }

  function Install(s: Snap, path: Path, rel: bytes, flt: Filter, d: Dest): Dest
    decreases s
  {
    match s
    case SDir(cs) =>
      if flt.Descend(rel) then InstallAll(cs, path, rel, flt, Enter(path, d)) else d
    case SLostDir =>
      if flt.Descend(rel) then Enter(path, d).(failures := d.failures + [path]) else d
    case _ => if flt.Matches(rel) then InstallFile(s, path, d) else d
  }

  function Enter(path: Path, d: Dest): Dest {
    d.(dirs := d.dirs + {path}, dirsRestored := d.dirsRestored + 1)
  }

  function InstallAll(cs: seq<SnapChild>, path: Path, rel: bytes, flt: Filter, d: Dest): Dest
    decreases cs
  {
    if cs == [] then d
    else
      var c := cs[|cs| - 1];
      Install(c.snap, path + [c.name], ChildRel(rel, c.name), flt,
              InstallAll(cs[..|cs| - 1], path, rel, flt, d))
  }

  /* ---- Planned totals ---- */

  datatype Totals = Totals(files: nat, bytes: int)

  function Count(s: Snap, rel: bytes, flt: Filter): Totals
    decreases s
  {
    match s
    case SDir(cs) => if flt.Descend(rel) then CountAll(cs, rel, flt) else Totals(0, 0)
    case SLostDir => Totals(0, 0)
    case _ => if flt.Matches(rel) then Totals(1, s.size) else Totals(0, 0)
  }

  function CountAll(cs: seq<SnapChild>, rel: bytes, flt: Filter): Totals
    decreases cs
  {
    if cs == [] then Totals(0, 0)
    else
      var c := cs[|cs| - 1];
      var (a, b) := (CountAll(cs[..|cs| - 1], rel, flt), Count(c.snap, ChildRel(rel, c.name), flt));
      Totals(a.files + b.files, a.bytes + b.bytes)
  }
}
