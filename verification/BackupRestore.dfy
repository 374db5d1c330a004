/** Backup followed by restore: what ends up at the destination, and exactly when it is the source. */
module BackupRestore {
  import opened Wrappers
  import opened Bytes
  import opened TreeFormat
  import opened PathFilter
  import opened Snapshot
  import opened BlobStore
  import opened Recording
  import B = Backup
  import R = Restore

  /* ---- Files by path ---- */

  /** The source's files that are not skipped; every value is a File. */
  function SourceFiles(e: Entry, path: Path): map<Path, Entry>
    decreases e
  {
    match e
    case File(_, _) => map[path := e]
    case Dir(_, es) => SourceFilesAll(es, path)
    case Skipped => map[]
  }

  function SourceFilesAll(es: seq<Named>, path: Path): map<Path, Entry>
    decreases es
  {
    if es == [] then map[]
    else
      var last := es[|es| - 1];
      SourceFilesAll(es[..|es| - 1], path) + SourceFiles(last.entry, path + [last.name])
  }

  /** A snapshot's file nodes; every value is an SFile or SLostFile. */
  function SnapFiles(s: Snap, path: Path): map<Path, Snap>
    decreases s
  {
    match s
    case SDir(cs) => SnapFilesAll(cs, path)
    case SLostDir => map[]
    case _ => map[path := s]
  }

  function SnapFilesAll(cs: seq<SnapChild>, path: Path): map<Path, Snap>
    decreases cs
  {
    if cs == [] then map[]
    else
      var last := cs[|cs| - 1];
      SnapFilesAll(cs[..|cs| - 1], path) + SnapFiles(last.snap, path + [last.name])
  }

  function SnapDirs(s: Snap, path: Path): set<Path>
    decreases s
  {
    match s
    case SDir(cs) => {path} + SnapDirsAll(cs, path)
    case SLostDir => {path}
    case _ => {}
  }

  function SnapDirsAll(cs: seq<SnapChild>, path: Path): set<Path>
    decreases cs
  {
    if cs == [] then {}
    else SnapDirsAll(cs[..|cs| - 1], path) + SnapDirs(cs[|cs| - 1].snap, path + [cs[|cs| - 1].name])
  }

  /** The source's directories, the root included. */
  function SourceDirs(e: Entry, path: Path): set<Path>
    decreases e
  {
    match e
    case Dir(_, es) => {path} + SourceDirsAll(es, path)
    case _ => {}
  }

  function SourceDirsAll(es: seq<Named>, path: Path): set<Path>
    decreases es
  {
    if es == [] then {}
    else SourceDirsAll(es[..|es| - 1], path) + SourceDirs(es[|es| - 1].entry, path + [es[|es| - 1].name])
  }

  lemma {:induction false} SnapFilesUnder(s: Snap, path: Path)
    ensures forall p :: p in SnapFiles(s, path) ==> path <= p && IsFile(SnapFiles(s, path)[p])
    decreases s
  {
    if s.SDir? {
      SnapFilesAllUnder(s.children, path);
      forall p | p in SnapFilesAll(s.children, path) ensures path <= p {
        var i :| 0 <= i < |s.children| && path + [s.children[i].name] <= p;
        R.PlaceInside(path, s.children[i].name, p);
      }
    }
  }

  lemma {:induction false} SnapFilesAllUnder(cs: seq<SnapChild>, path: Path)
    ensures forall p :: p in SnapFilesAll(cs, path) ==> IsFile(SnapFilesAll(cs, path)[p])
    ensures forall p :: p in SnapFilesAll(cs, path) ==> exists i :: 0 <= i < |cs| && path + [cs[i].name] <= p
    decreases cs
  {
    if cs != [] {
      var init, c := cs[..|cs| - 1], cs[|cs| - 1];
      SnapFilesAllUnder(init, path);
      SnapFilesUnder(c.snap, path + [c.name]);
      forall p | p in SnapFilesAll(cs, path) ensures exists i :: 0 <= i < |cs| && path + [cs[i].name] <= p {
        if p in SnapFiles(c.snap, path + [c.name]) {
          assert path + [cs[|cs| - 1].name] <= p;
        } else {
          assert p in SnapFilesAll(init, path);
          var i :| 0 <= i < |init| && path + [init[i].name] <= p;
          assert cs[i] == init[i];
        }
      }
    }
  }

  /** No file of the earlier children lies below the last one's place. */
  lemma LastChildApart(cs: seq<SnapChild>, path: Path)
    requires WellNamedAll(cs) && cs != []
    ensures R.NothingUnder(SnapFilesAll(cs[..|cs| - 1], path), path + [cs[|cs| - 1].name])
  {
    hide SnapFilesAll;
    var init, c := cs[..|cs| - 1], cs[|cs| - 1];
    SnapFilesAllUnder(init, path);
    forall p | p in SnapFilesAll(init, path) ensures !(path + [c.name] <= p) {
      var i :| 0 <= i < |init| && path + [init[i].name] <= p;
      R.SiblingPlaces(path, c.name, init[i].name, p);
    }
  }

  /* ---- What installing a snapshot leaves at the destination ---- */

  predicate IsLink(s: Snap) { IsFile(s) && Linked(s.nlink, s.ino) }

  /** Two files are restored as links to one body: same path, or linked with the same inode. */
  predicate SameBody(done: map<Path, Snap>, p: Path, q: Path)
    requires p in done && q in done
  {
    p == q || (IsLink(done[p]) && IsLink(done[q]) && done[p].ino == done[q].ino)
  }

  /** The restored file at p, given the snapshot files walked so far. */
  ghost predicate Placed(d: Dest, done: map<Path, Snap>, p: Path) {
    && p in d.files && p in done && d.files[p].id < d.nextId
    && (!IsLink(done[p]) ==> done[p].SFile? && d.files[p].body == done[p].content)
    && (IsLink(done[p]) ==> done[p].ino in d.links && d.links[done[p].ino] in d.files
                            && d.files[p] == d.files[d.links[done[p].ino]])
  }

  /** The first restored path of an inode holds that path's own content. */
  ghost predicate Leads(d: Dest, done: map<Path, Snap>, ino: int) {
    && ino in d.links && d.links[ino] in d.files && d.links[ino] in done
    && done[d.links[ino]].SFile? && IsLink(done[d.links[ino]]) && done[d.links[ino]].ino == ino
    && d.files[d.links[ino]].body == done[d.links[ino]].content
  }

  ghost predicate Installed(d: Dest, done: map<Path, Snap>) {
    && (forall p :: p in done ==> IsFile(done[p]))
    && (forall p :: p in done && done[p].SFile? ==> p in d.files)
    && (forall p :: p in d.files ==> Placed(d, done, p))
    && (forall ino :: ino in d.links ==> Leads(d, done, ino))
    && (forall p, q :: p in d.files && q in d.files && p in done && q in done
          ==> (d.files[p].id == d.files[q].id <==> SameBody(done, p, q)))
  }

  lemma InstallFileInstalled(s: Snap, path: Path, d: Dest, done: map<Path, Snap>)
    requires IsFile(s) && Installed(d, done) && path !in done
    ensures Installed(InstallFile(s, path, d), done[path := s])
  {
    var d', done' := InstallFile(s, path, d), done[path := s];
    assert path !in d.files;
    forall ino | ino in d.links ensures d.links[ino] != path && Leads(d, done, ino) {}
    forall ino | ino in d'.links ensures Leads(d', done', ino) {
      if ino in d.links && d'.links[ino] == d.links[ino] {
        assert Leads(d, done, ino);
      }
    }
    forall p | p in d'.files ensures Placed(d', done', p) {
      if p != path {
        assert Placed(d, done, p);
        if IsLink(done[p]) {
          assert Leads(d, done, done[p].ino);
        }
      } else if IsLink(s) && s.ino in d.links {
        assert Leads(d, done, s.ino);
        assert Placed(d, done, d.links[s.ino]);
      }
    }
    InstallFileIds(s, path, d, done);
  }

  lemma InstallFileIds(s: Snap, path: Path, d: Dest, done: map<Path, Snap>)
    requires IsFile(s) && Installed(d, done) && path !in done
    ensures var d', done' := InstallFile(s, path, d), done[path := s];
            forall p, q :: p in d'.files && q in d'.files && p in done' && q in done'
              ==> (d'.files[p].id == d'.files[q].id <==> SameBody(done', p, q))
  {
    var d', done' := InstallFile(s, path, d), done[path := s];
    forall q | q in d'.files && q in done' && path in d'.files
      ensures d'.files[path].id == d'.files[q].id <==> SameBody(done', path, q)
    {
      if q != path {
        assert Placed(d, done, q);
        if IsLink(s) && s.ino in d.links {
          var lead := d.links[s.ino];
          assert Leads(d, done, s.ino);
          assert d.files[lead].id == d.files[q].id <==> SameBody(done, lead, q);
        }
      }
    }
  }

  /** The files of a snapshot the filter keeps. */
  function Kept(files: map<Path, Snap>, flt: Filter): map<Path, Snap> {
    map p | p in files && flt.Matches(Rel(p)) :: files[p]
  }

  lemma {:induction false} SnapFilesValid(s: Snap, path: Path)
    requires WellNamed(s) && ValidPath(path)
    ensures forall p :: p in SnapFiles(s, path) ==> ValidPath(p)
    decreases s
  {
    if s.SDir? {
      SnapFilesAllValid(s.children, path);
    }
  }

  lemma {:induction false} SnapFilesAllValid(cs: seq<SnapChild>, path: Path)
    requires WellNamedAll(cs) && ValidPath(path)
    ensures forall p :: p in SnapFilesAll(cs, path) ==> ValidPath(p)
    decreases cs
  {
    if cs != [] {
      SnapFilesAllValid(cs[..|cs| - 1], path);
      SnapFilesValid(cs[|cs| - 1].snap, path + [cs[|cs| - 1].name]);
    }
  }

  /** Skipping a directory the filter does not descend into loses no kept file. */
  lemma PrunedKeepsNothing(cs: seq<SnapChild>, path: Path, flt: Filter)
    requires WellNamedAll(cs) && ValidPath(path) && !flt.Descend(Rel(path))
    ensures Kept(SnapFilesAll(cs, path), flt) == map[]
  {
    hide flt.Matches, flt.Descend, Rel;
    SnapFilesAllUnder(cs, path);
    SnapFilesAllValid(cs, path);
    forall p | p in SnapFilesAll(cs, path) ensures !flt.Matches(Rel(p)) {
      var i :| 0 <= i < |cs| && path + [cs[i].name] <= p;
      R.PlaceInside(path, cs[i].name, p);
      var more := p[|path|..];
      assert p == path + more && ValidPath(more);
      if flt.Matches(Rel(p)) {
        MatchNeedsAncestors(flt, path, more);
      }
    }
  }

  lemma ChildRelIsRel(path: Path, name: bytes)
    ensures ChildRel(Rel(path), name) == Rel(path + [name])
  {
    assert (path + [name])[..|path|] == path;
  }

  /** The pruning walk installs exactly the kept files, each with its recorded content or its link. */
  lemma {:induction false} InstallInstalled(s: Snap, path: Path, flt: Filter, d: Dest, done: map<Path, Snap>)
    requires WellNamed(s) && ValidPath(path) && Installed(d, done) && R.NothingUnder(done, path)
    ensures Installed(Install(s, path, Rel(path), flt, d), done + Kept(SnapFiles(s, path), flt))
    decreases s
  {
    hide flt.Matches, flt.Descend, Rel, InstallFile, Placed, Leads, SameBody;
    match s
    case SDir(cs) =>
      if flt.Descend(Rel(path)) {
        EnterInstalled(path, d, done);
        InstallAllInstalled(cs, path, flt, Enter(path, d), done);
      } else {
        PrunedKeepsNothing(cs, path, flt);
        assert done + map[] == done;
      }
    case SLostDir =>
      EnterInstalled(path, d, done);
      assert done + map[] == done;
    case _ =>
      if flt.Matches(Rel(path)) {
        assert done + Kept(map[path := s], flt) == done[path := s];
        InstallFileInstalled(s, path, d, done);
      } else {
        assert done + Kept(map[path := s], flt) == done;
      }
  }

  lemma EnterInstalled(path: Path, d: Dest, done: map<Path, Snap>)
    requires Installed(d, done)
    ensures Installed(Enter(path, d), done)
    ensures Installed(Enter(path, d).(failures := d.failures + [path]), done)
  {
    hide SameBody, IsLink;
    var a, b := Enter(path, d), Enter(path, d).(failures := d.failures + [path]);
    assert forall p :: Placed(d, done, p) ==> Placed(a, done, p) && Placed(b, done, p);
    assert forall ino :: Leads(d, done, ino) ==> Leads(a, done, ino) && Leads(b, done, ino);
  }

  lemma KeptUnion(done: map<Path, Snap>, a: map<Path, Snap>, b: map<Path, Snap>, flt: Filter)
    ensures done + Kept(a + b, flt) == (done + Kept(a, flt)) + Kept(b, flt)
  {
    hide flt.Matches, Rel;
  }

  lemma {:induction false} InstallAllInstalled(
    cs: seq<SnapChild>, path: Path, flt: Filter, d: Dest, done: map<Path, Snap>)
    requires WellNamedAll(cs) && ValidPath(path) && Installed(d, done) && R.NothingUnder(done, path)
    ensures Installed(InstallAll(cs, path, Rel(path), flt, d), done + Kept(SnapFilesAll(cs, path), flt))
    decreases cs
  {
    hide flt.Matches, Rel, Install, Installed, ChildRel, SnapFiles, WellNamed, ValidName;
    if cs == [] {
      assert done + Kept(map[], flt) == done;
    } else {
      var init, c := cs[..|cs| - 1], cs[|cs| - 1];
      var place := path + [c.name];
      var done1 := done + Kept(SnapFilesAll(init, path), flt);
      InstallAllInstalled(init, path, flt, d, done);
      LastChildApart(cs, path);
      forall p | p in done ensures !(place <= p) {
        R.PlaceInside(path, c.name, p);
      }
      ChildRelIsRel(path, c.name);
      InstallInstalled(c.snap, place, flt, InstallAll(init, path, Rel(path), flt, d), done1);
      KeptUnion(done, SnapFilesAll(init, path), SnapFiles(c.snap, place), flt);
    }
  }

  /* ---- Totals, failures and directories of an intact snapshot ---- */

  /** Every recorded size is its content's length, as the writer records it. */
  ghost predicate SizesExact(s: Snap)
    decreases s
  {
    match s
    case SFile(content, size, _, _) => size == |content|
    case SDir(cs) => forall i :: 0 <= i < |cs| ==> SizesExact(cs[i].snap)
    case _ => true
  }

  /** Nothing fails, the planned file count is met, and links make the bytes written at most the plan's. */
  lemma {:induction false} InstallTotals(s: Snap, path: Path, rel: bytes, flt: Filter, d: Dest)
    requires Intact(s) && SizesExact(s)
    ensures var (d', t) := (Install(s, path, rel, flt, d), Count(s, rel, flt));
            && d'.failures == d.failures && d'.filesRestored == d.filesRestored + t.files
            && d.bytesRestored <= d'.bytesRestored <= d.bytesRestored + t.bytes
    decreases s
  {
    hide flt.Matches, flt.Descend, ChildRel;
    if s.SDir? && flt.Descend(rel) {
      InstallAllTotals(s.children, path, rel, flt, Enter(path, d));
    }
  }

  lemma KeepAllKeeps(rel: bytes)
    ensures KeepAll.Matches(rel) && KeepAll.Descend(rel)
  {}

  lemma {:induction false} InstallAllTotals(cs: seq<SnapChild>, path: Path, rel: bytes, flt: Filter, d: Dest)
    requires AllIntact(cs) && forall i :: 0 <= i < |cs| ==> SizesExact(cs[i].snap)
    ensures var (d', t) := (InstallAll(cs, path, rel, flt, d), CountAll(cs, rel, flt));
            && d'.failures == d.failures && d'.filesRestored == d.filesRestored + t.files
            && d.bytesRestored <= d'.bytesRestored <= d.bytesRestored + t.bytes
    decreases cs
  {
    hide ChildRel, Install, Count;
    if cs != [] {
      var init, c := cs[..|cs| - 1], cs[|cs| - 1];
      InstallAllTotals(init, path, rel, flt, d);
      InstallTotals(c.snap, path + [c.name], ChildRel(rel, c.name), flt, InstallAll(init, path, rel, flt, d));
    }
  }

  /* ---- Directories ---- */

  /** The directories the filter descends into. */
  function Entered(dirs: set<Path>, flt: Filter): set<Path> {
    set p | p in dirs && flt.Descend(Rel(p))
  }

  lemma {:induction false} SnapDirsUnder(s: Snap, path: Path)
    requires WellNamed(s) && ValidPath(path)
    ensures forall p :: p in SnapDirs(s, path) ==> path <= p && ValidPath(p)
    decreases s
  {
    if s.SDir? {
      SnapDirsAllUnder(s.children, path);
    }
  }

  lemma {:induction false} SnapDirsAllUnder(cs: seq<SnapChild>, path: Path)
    requires WellNamedAll(cs) && ValidPath(path)
    ensures forall p :: p in SnapDirsAll(cs, path) ==> path <= p && ValidPath(p)
    decreases cs
  {
    if cs != [] {
      var (init, c) := (cs[..|cs| - 1], cs[|cs| - 1]);
      SnapDirsAllUnder(init, path);
      SnapDirsUnder(c.snap, path + [c.name]);
      forall p | p in SnapDirs(c.snap, path + [c.name]) ensures path <= p {
        R.PlaceInside(path, c.name, p);
      }
    }
  }

  /** The pruning walk creates exactly the directories the filter descends into, however deep. */
  lemma {:induction false} InstallDirs(s: Snap, path: Path, flt: Filter, d: Dest)
    requires WellNamed(s) && ValidPath(path)
    ensures Install(s, path, Rel(path), flt, d).dirs == d.dirs + Entered(SnapDirs(s, path), flt)
    decreases s
  {
    hide flt.Matches, flt.Descend, Rel;
    if s.SDir? {
      if flt.Descend(Rel(path)) {
        InstallAllDirs(s.children, path, flt, Enter(path, d));
      } else {
        SnapDirsUnder(s, path);
        forall p | p in SnapDirs(s, path) ensures !flt.Descend(Rel(p)) {
          if flt.Descend(Rel(p)) {
            DescendNeedsAncestors(flt, path, p);
          }
        }
      }
    }
  }

  lemma {:induction false} InstallAllDirs(cs: seq<SnapChild>, path: Path, flt: Filter, d: Dest)
    requires WellNamedAll(cs) && ValidPath(path)
    ensures InstallAll(cs, path, Rel(path), flt, d).dirs == d.dirs + Entered(SnapDirsAll(cs, path), flt)
    decreases cs
  {
    hide flt.Matches, flt.Descend, Rel, Install, ChildRel, SnapDirs, WellNamed, ValidName;
    if cs != [] {
      var (init, c) := (cs[..|cs| - 1], cs[|cs| - 1]);
      InstallAllDirs(init, path, flt, d);
      ChildRelIsRel(path, c.name);
      InstallDirs(c.snap, path + [c.name], flt, InstallAll(init, path, Rel(path), flt, d));
    }
  }

  /** The writer records every directory of the source, empty ones included, and no other. */
  lemma {:induction false} RecordDirs(e: Entry, links: Links, path: Path)
    requires FileLinks(links)
    ensures var s := Record(e, links).0;
            (if s.Some? then SnapDirs(s.value, path) else {}) == SourceDirs(e, path)
    decreases e
  {
    if e.Dir? {
      RecordAllDirs(e.entries, links, path);
    }
  }

  lemma {:induction false} RecordAllDirs(es: seq<Named>, links: Links, path: Path)
    requires FileLinks(links)
    ensures SnapDirsAll(RecordAll(es, links).0, path) == SourceDirsAll(es, path)
    decreases es
  {
    hide Record, SnapDirs, SourceDirs;
    if es != [] {
      var (init, last) := (es[..|es| - 1], es[|es| - 1]);
      var (cs, links1) := RecordAll(init, links);
      RecordAllIntact(init, links);
      RecordAllDirs(init, links, path);
      RecordDirs(last.entry, links1, path + [last.name]);
      var (r, cs') := (Record(last.entry, links1).0, RecordAll(es, links).0);
      assert r.Some? ==> cs'[..|cs'| - 1] == cs;
    }
  }

  /* ---- What is counted ---- */

  /** Every body is written once: bodies by id, each in use, and the bytes are theirs. */
  ghost predicate WrittenOnce(d: Dest, bodies: seq<bytes>) {
    && |bodies| == d.nextId && d.bytesRestored == |Join(bodies)|
    && (forall p :: p in d.files ==> d.files[p].id < d.nextId && d.files[p].body == bodies[d.files[p].id])
    && forall i: nat :: i < d.nextId ==> InUse(d, i)
  }

  ghost predicate InUse(d: Dest, i: nat) {
    exists p :: p in d.files && d.files[p].id == i
  }

  /** The counters are the numbers of files and directories, and the bytes of the bodies written. */
  ghost predicate Counted(d: Dest) {
    && d.filesRestored == |d.files| && d.dirsRestored == |d.dirs| && exists bodies :: WrittenOnce(d, bodies)
  }

  lemma FileCounted(s: Snap, path: Path, d: Dest)
    requires IsFile(s) && path !in d.files && Counted(d)
    ensures Counted(InstallFile(s, path, d))
  {
    var d' := InstallFile(s, path, d);
    var bodies :| WrittenOnce(d, bodies);
    if d'.files != d.files {
      OneMoreKey(d.files, path, d'.files[path]);
      var bodies' := if d'.nextId == d.nextId then bodies else bodies + [s.content];
      JoinAppend(bodies, if s.SFile? then s.content else []);
      forall i: nat | i < d'.nextId ensures InUse(d', i) {
        if i < d.nextId {
          assert InUse(d, i);
          var p :| p in d.files && d.files[p].id == i;
          assert p in d'.files && d'.files[p].id == i;
        } else {
          assert d'.files[path].id == i;
        }
      }
      assert WrittenOnce(d', bodies');
    } else {
      SameWritten(d, d', bodies);
    }
  }

  lemma OneMoreKey<T>(m: map<Path, T>, path: Path, x: T)
    requires path !in m
    ensures |m[path := x]| == |m| + 1
  {}

  lemma SameWritten(d: Dest, d': Dest, bodies: seq<bytes>)
    requires WrittenOnce(d, bodies) && d'.files == d.files && d'.nextId == d.nextId
        && d'.bytesRestored == d.bytesRestored
    ensures WrittenOnce(d', bodies)
  {
    forall i: nat | InUse(d, i) ensures InUse(d', i) {
      var p :| p in d.files && d.files[p].id == i;
      assert p in d'.files && d'.files[p].id == i;
    }
    hide InUse;
  }

  lemma EnterCounted(path: Path, d: Dest)
    requires Counted(d) && path !in d.dirs
    ensures Counted(Enter(path, d)) && Counted(Enter(path, d).(failures := d.failures + [path]))
  {
    hide WrittenOnce;
    var bodies :| WrittenOnce(d, bodies);
    SameWritten(d, Enter(path, d), bodies);
    SameWritten(d, Enter(path, d).(failures := d.failures + [path]), bodies);
  }

  /** Nothing stands at the path or below. */
  ghost predicate Clear(d: Dest, path: Path) {
    R.NothingUnder(d.files, path) && forall p :: p in d.dirs ==> !(path <= p)
  }

  /** Nothing stands below the directory. */
  ghost predicate ClearBelow(d: Dest, path: Path) {
    R.NothingUnder(d.files, path) && forall p :: p in d.dirs && path <= p ==> p == path
  }

  lemma {:induction false} SnapDirsBelow(cs: seq<SnapChild>, path: Path, p: Path)
    requires WellNamedAll(cs) && ValidPath(path) && p in SnapDirsAll(cs, path)
    ensures exists i :: 0 <= i < |cs| && path + [cs[i].name] <= p
    decreases |cs|
  {
    hide WellNamed, ValidName, SnapDirs;
    var (init, c) := (cs[..|cs| - 1], cs[|cs| - 1]);
    if p in SnapDirs(c.snap, path + [c.name]) {
      ChildDirs(c, path);
      assert path + [cs[|cs| - 1].name] <= p;
    } else {
      SnapDirsBelow(init, path, p);
      var i :| 0 <= i < |init| && path + [init[i].name] <= p;
      assert cs[i] == init[i];
    }
  }

  lemma ChildDirs(c: SnapChild, path: Path)
    requires ValidName(c.name) && WellNamed(c.snap) && ValidPath(path)
    ensures forall p :: p in SnapDirs(c.snap, path + [c.name]) ==> path + [c.name] <= p
  {
    hide WellNamed, ValidName;
    SnapDirsUnder(c.snap, path + [c.name]);
  }

  /** The next child's place is clear when the directory was and the names are distinct. */
  lemma NextPlaceClear(cs: seq<SnapChild>, path: Path, flt: Filter, d: Dest)
    requires cs != [] && WellNamedAll(cs) && ValidPath(path) && ClearBelow(d, path)
    ensures var k := |cs| - 1; Clear(InstallAll(cs[..k], path, Rel(path), flt, d), path + [cs[k].name])
  {
    hide InstallAll, WellNamed, ValidName, SnapDirsAll, flt.Descend, Rel;
    var k := |cs| - 1;
    var place := path + [cs[k].name];
    var d' := InstallAll(cs[..k], path, Rel(path), flt, d);
    R.NextPlaceFree(cs, k, path, Rel(path), flt, d);
    InstallAllDirs(cs[..k], path, flt, d);
    forall p | p in d'.dirs ensures !(place <= p) {
      if p in d.dirs {
        R.PlaceInside(path, cs[k].name, p);
      } else {
        SnapDirsBelow(cs[..k], path, p);
        var i :| 0 <= i < k && path + [cs[..k][i].name] <= p;
        R.SiblingPlaces(path, cs[k].name, cs[i].name, p);
      }
    }
  }

  lemma {:induction false} InstallCounted(s: Snap, path: Path, flt: Filter, d: Dest)
    requires WellNamed(s) && ValidPath(path) && Counted(d) && Clear(d, path)
    ensures Counted(Install(s, path, Rel(path), flt, d))
    decreases s
  {
    hide flt.Matches, flt.Descend, Rel, InstallFile, Counted;
    assert path <= path;
    match s
    case SDir(cs) =>
      if flt.Descend(Rel(path)) {
        EnterCounted(path, d);
        InstallAllCounted(cs, path, flt, Enter(path, d));
      }
    case SLostDir => EnterCounted(path, d);
    case _ => FileCounted(s, path, d);
  }

  lemma {:induction false} InstallAllCounted(cs: seq<SnapChild>, path: Path, flt: Filter, d: Dest)
    requires WellNamedAll(cs) && ValidPath(path) && Counted(d) && ClearBelow(d, path)
    ensures Counted(InstallAll(cs, path, Rel(path), flt, d))
    decreases cs
  {
    hide Rel, Install, ChildRel, WellNamed, ValidName, Counted, Clear, ClearBelow;
    if cs != [] {
      var (init, c) := (cs[..|cs| - 1], cs[|cs| - 1]);
      InstallAllCounted(init, path, flt, d);
      NextPlaceClear(cs, path, flt, d);
      ChildRelIsRel(path, c.name);
      InstallCounted(c.snap, path + [c.name], flt, InstallAll(init, path, Rel(path), flt, d));
    }
  }

  lemma EmptyCounted()
    ensures Counted(EMPTY) && Clear(EMPTY, [])
  {
    assert WrittenOnce(EMPTY, []);
  }

  /* ---- What is planned ---- */

  /** The sum of these sizes at these paths. */
  ghost function Sum(sizes: map<Path, int>, ps: set<Path>): int
    requires ps <= sizes.Keys
    decreases |ps|
  {
    if ps == {} then 0
    else
      var p :| p in ps;
      sizes[p] + Sum(sizes, ps - {p})
  }

  lemma {:induction false} SumTakes(sizes: map<Path, int>, ps: set<Path>, p: Path)
    requires ps <= sizes.Keys && p in ps
    ensures Sum(sizes, ps) == sizes[p] + Sum(sizes, ps - {p})
    decreases |ps|
  {
    var q :| q in ps && Sum(sizes, ps) == sizes[q] + Sum(sizes, ps - {q});
    if q != p {
      SumTakes(sizes, ps - {q}, p);
      SumTakes(sizes, ps - {p}, q);
      assert ps - {q} - {p} == ps - {p} - {q};
    }
  }

  lemma {:induction false} SumSplits(sizes: map<Path, int>, a: set<Path>, b: set<Path>)
    requires a + b <= sizes.Keys && a !! b
    ensures Sum(sizes, a + b) == Sum(sizes, a) + Sum(sizes, b)
    decreases |a|
  {
    if a == {} {
      assert a + b == b;
    } else {
      var p :| p in a;
      SumTakes(sizes, a, p);
      SumTakes(sizes, a + b, p);
      assert a + b - {p} == (a - {p}) + b;
      SumSplits(sizes, a - {p}, b);
    }
  }

  lemma {:induction false} SumSame(a: map<Path, int>, b: map<Path, int>, ps: set<Path>)
    requires ps <= a.Keys && ps <= b.Keys && forall p :: p in ps ==> b[p] == a[p]
    ensures Sum(a, ps) == Sum(b, ps)
    decreases |ps|
  {
    if ps != {} {
      var p :| p in ps;
      SumTakes(a, ps, p);
      SumTakes(b, ps, p);
      SumSame(a, b, ps - {p});
    }
  }

  /** The recorded sizes by path. */
  function Sizes(files: map<Path, Snap>): map<Path, int> {
    map p | p in files :: if IsFile(files[p]) then files[p].size else 0
  }

  /** The lengths of the files restored. */
  function Lengths(d: Dest): map<Path, int> { map p | p in d.files :: |d.files[p].body| }

  function KeptPaths(files: map<Path, Snap>, flt: Filter): set<Path> { set p | p in files && flt.Matches(Rel(p)) }

  /** The plan is the number of the kept files, and the sum of their recorded sizes. */
  ghost predicate Plans(t: Totals, files: map<Path, Snap>, flt: Filter) {
    t.files == |KeptPaths(files, flt)| && t.bytes == Sum(Sizes(files), KeptPaths(files, flt))
  }

  lemma PlansJoin(a: Totals, b: Totals, fa: map<Path, Snap>, fb: map<Path, Snap>, flt: Filter)
    requires Plans(a, fa, flt) && Plans(b, fb, flt) && fa.Keys !! fb.Keys
    ensures Plans(Totals(a.files + b.files, a.bytes + b.bytes), fa + fb, flt)
  {
    hide flt.Matches, Rel, Sum;
    var (pa, pb) := (KeptPaths(fa, flt), KeptPaths(fb, flt));
    assert KeptPaths(fa + fb, flt) == pa + pb && pa !! pb;
    SumSplits(Sizes(fa + fb), pa, pb);
    SumSame(Sizes(fa), Sizes(fa + fb), pa);
    SumSame(Sizes(fb), Sizes(fa + fb), pb);
  }

  lemma NoPlan(files: map<Path, Snap>, flt: Filter)
    requires forall p :: p in files ==> !flt.Matches(Rel(p))
    ensures Plans(Totals(0, 0), files, flt)
  {
    hide flt.Matches, Rel;
    assert KeptPaths(files, flt) == {};
  }

  lemma OnePlan(s: Snap, path: Path, flt: Filter)
    requires IsFile(s) && flt.Matches(Rel(path))
    ensures Plans(Totals(1, s.size), map[path := s], flt)
  {
    hide flt.Matches, Rel;
    assert KeptPaths(map[path := s], flt) == {path};
    SumTakes(Sizes(map[path := s]), {path}, path);
    assert {path} - {path} == {};
  }

  lemma PrunedPlan(cs: seq<SnapChild>, path: Path, flt: Filter)
    requires WellNamedAll(cs) && ValidPath(path) && !flt.Descend(Rel(path))
    ensures Plans(Totals(0, 0), SnapFilesAll(cs, path), flt)
  {
    hide flt.Matches, flt.Descend, Rel, SnapFilesAll, WellNamedAll;
    PrunedKeepsNothing(cs, path, flt);
    forall p | p in SnapFilesAll(cs, path) ensures !flt.Matches(Rel(p)) {
      assert p !in Kept(SnapFilesAll(cs, path), flt);
    }
    NoPlan(SnapFilesAll(cs, path), flt);
  }

  lemma {:induction false} CountPlans(s: Snap, path: Path, flt: Filter)
    requires WellNamed(s) && ValidPath(path)
    ensures Plans(Count(s, Rel(path), flt), SnapFiles(s, path), flt)
    decreases s
  {
    hide flt.Matches, flt.Descend, Rel, Plans;
    match s
    case SDir(cs) =>
      if flt.Descend(Rel(path)) {
        CountAllPlans(cs, path, flt);
      } else {
        PrunedPlan(cs, path, flt);
      }
    case SLostDir => NoPlan(map[], flt);
    case _ =>
      if flt.Matches(Rel(path)) {
        OnePlan(s, path, flt);
      } else {
        NoPlan(map[path := s], flt);
      }
  }

  lemma {:induction false} CountAllPlans(cs: seq<SnapChild>, path: Path, flt: Filter)
    requires WellNamedAll(cs) && ValidPath(path)
    ensures Plans(CountAll(cs, Rel(path), flt), SnapFilesAll(cs, path), flt)
    decreases cs
  {
    hide flt.Matches, Rel, Count, ChildRel, WellNamed, ValidName, Plans, SnapFiles;
    if cs == [] {
      NoPlan(map[], flt);
    } else {
      var (init, c) := (cs[..|cs| - 1], cs[|cs| - 1]);
      var place := path + [c.name];
      CountAllPlans(init, path, flt);
      ChildRelIsRel(path, c.name);
      CountPlans(c.snap, place, flt);
      LastChildApart(cs, path);
      SnapFilesUnder(c.snap, place);
      Disjoint(SnapFilesAll(init, path), SnapFiles(c.snap, place), place);
      PlansJoin(CountAll(init, Rel(path), flt), Count(c.snap, Rel(place), flt), SnapFilesAll(init, path),
                SnapFiles(c.snap, place), flt);
    }
  }

  lemma Disjoint(a: map<Path, Snap>, b: map<Path, Snap>, place: Path)
    requires R.NothingUnder(a, place) && forall p :: p in b ==> place <= p
    ensures a.Keys !! b.Keys
  {}

  /* ---- What the writer records of the source ---- */

  predicate IsLinkedFile(e: Entry) { e.File? && Linked(e.stat.nlink, e.stat.ino) }

  /** The snapshot file carries the source file's content, or that of another link to its inode. */
  ghost predicate Carries(s: Snap, f: Entry, done: map<Path, Entry>) {
    && s.SFile? && f.File? && IsLink(s) == IsLinkedFile(f) && s.ino == f.stat.ino
    && (s.content == f.content
        || (IsLinkedFile(f) && exists q :: q in done && CarriesLink(s, done[q], (f.stat.dev, f.stat.ino))))
  }

  /** s was recorded from the linked file g, cached under the key (device, inode). */
  predicate CarriesLink(s: Snap, g: Entry, key: (int, int)) {
    g.File? && s.SFile? && (g.stat.dev, g.stat.ino) == key && g.stat.nlink > 1 && s.content == g.content
    && s.nlink > 1 && s.ino == key.1
  }

  ghost predicate LinksCarry(links: Links, done: map<Path, Entry>) {
    forall k :: k in links ==> exists q :: q in done && CarriesLink(links[k], done[q], k)
  }

  /** Every recorded file is one of the source's, under the same path, and carries it. */
  ghost predicate FilesCarry(snaps: map<Path, Snap>, sources: map<Path, Entry>, done: map<Path, Entry>) {
    snaps.Keys == sources.Keys && forall p :: p in snaps ==> Carries(snaps[p], sources[p], done)
  }

  ghost predicate Within(a: map<Path, Entry>, b: map<Path, Entry>) {
    forall p :: p in a ==> p in b && a[p] == b[p]
  }

  lemma {:induction false} SourceFilesUnder(e: Entry, path: Path)
    ensures forall p :: p in SourceFiles(e, path) ==> path <= p && SourceFiles(e, path)[p].File?
    decreases e
  {
    if e.Dir? {
      SourceFilesAllUnder(e.entries, path);
      forall p | p in SourceFilesAll(e.entries, path) ensures path <= p {
        var i :| 0 <= i < |e.entries| && path + [e.entries[i].name] <= p;
        R.PlaceInside(path, e.entries[i].name, p);
      }
    }
  }

  lemma {:induction false} SourceFilesAllUnder(es: seq<Named>, path: Path)
    ensures forall p :: p in SourceFilesAll(es, path) ==> SourceFilesAll(es, path)[p].File?
    ensures forall p :: p in SourceFilesAll(es, path) ==> exists i :: 0 <= i < |es| && path + [es[i].name] <= p
    decreases es
  {
    if es != [] {
      var init, c := es[..|es| - 1], es[|es| - 1];
      SourceFilesAllUnder(init, path);
      SourceFilesUnder(c.entry, path + [c.name]);
      forall p | p in SourceFilesAll(es, path) ensures exists i :: 0 <= i < |es| && path + [es[i].name] <= p {
        if p in SourceFiles(c.entry, path + [c.name]) {
          assert path + [es[|es| - 1].name] <= p;
        } else {
          assert p in SourceFilesAll(init, path);
          var i :| 0 <= i < |init| && path + [init[i].name] <= p;
          assert es[i] == init[i];
        }
      }
    }
  }

  /** A directory's earlier entries and its last one have no file path in common. */
  lemma LastEntryApart(es: seq<Named>, path: Path)
    requires ValidEntries(es) && es != []
    ensures var last := es[|es| - 1];
            SourceFilesAll(es[..|es| - 1], path).Keys !! SourceFiles(last.entry, path + [last.name]).Keys
  {
    hide SourceFilesAll, SourceFiles;
    var init, c := es[..|es| - 1], es[|es| - 1];
    SourceFilesAllUnder(init, path);
    SourceFilesUnder(c.entry, path + [c.name]);
    forall p | p in SourceFilesAll(init, path) ensures p !in SourceFiles(c.entry, path + [c.name]) {
      var i :| 0 <= i < |init| && path + [init[i].name] <= p;
      R.SiblingPlaces(path, c.name, init[i].name, p);
    }
  }

  /** `all` is the whole source; the walk stands anywhere in it. */
  lemma {:induction false} RecordCarries(e: Entry, path: Path, links: Links, all: map<Path, Entry>)
    requires LinksCarry(links, all) && Within(SourceFiles(e, path), all) && ValidEntry(e)
    ensures LinksCarry(Record(e, links).1, all)
    ensures var s := Record(e, links).0;
            FilesCarry(if s.Some? then SnapFiles(s.value, path) else map[], SourceFiles(e, path), all)
    decreases e
  {
    match e
    case Skipped =>
    case File(st, content) =>
      var key := (st.dev, st.ino);
      if Linked(st.nlink, st.ino) && key in links {
        assert exists q :: q in all && CarriesLink(links[key], all[q], key);
      } else {
        assert path in all && all[path] == e;
        assert CarriesLink(SFile(content, |content|, st.ino, st.nlink), all[path], key) || st.nlink <= 1;
      }
    case Dir(_, es) => RecordAllCarries(es, path, links, all);
  }

  lemma {:induction false} RecordAllCarries(es: seq<Named>, path: Path, links: Links, all: map<Path, Entry>)
    requires LinksCarry(links, all) && Within(SourceFilesAll(es, path), all) && ValidEntries(es)
    ensures LinksCarry(RecordAll(es, links).1, all)
    ensures FilesCarry(SnapFilesAll(RecordAll(es, links).0, path), SourceFilesAll(es, path), all)
    decreases es
  {
    hide LinksCarry, Carries, SourceFiles, SnapFiles, Record;
    if es != [] {
      var init, last := es[..|es| - 1], es[|es| - 1];
      var place := path + [last.name];
      var (cs, links1) := RecordAll(init, links);
      LastEntryApart(es, path);
      RecordAllCarries(init, path, links, all);
      RecordCarries(last.entry, place, links1, all);
      var (r, cs') := (Record(last.entry, links1).0, RecordAll(es, links).0);
      if r.Some? {
        assert cs'[..|cs'| - 1] == cs;
        assert SnapFilesAll(cs', path) == SnapFilesAll(cs, path) + SnapFiles(r.value, place);
      } else {
        assert SourceFiles(last.entry, place) == map[];
      }
    }
  }

  /* ---- Shape of what the writer records ---- */

  ghost predicate ExactLinks(links: Links) {
    forall k :: k in links ==> links[k].SFile? && links[k].size == |links[k].content|
  }

  lemma {:induction false} RecordShape(e: Entry, links: Links)
    requires ValidEntry(e) && ExactLinks(links)
    ensures ExactLinks(Record(e, links).1)
    ensures Record(e, links).0.Some?
        ==> WellNamed(Record(e, links).0.value) && SizesExact(Record(e, links).0.value)
            && Intact(Record(e, links).0.value)
    decreases e
  {
    if e.Dir? {
      RecordAllShape(e.entries, links);
    }
  }

  lemma {:induction false} RecordAllShape(es: seq<Named>, links: Links)
    requires ValidEntries(es) && ExactLinks(links)
    ensures var (cs, links') := RecordAll(es, links);
            && ExactLinks(links') && WellNamedAll(cs) && AllIntact(cs)
            && (forall i :: 0 <= i < |cs| ==> SizesExact(cs[i].snap))
            && (forall i :: 0 <= i < |cs| ==> exists j :: 0 <= j < |es| && es[j].name == cs[i].name)
    decreases es
  {
    hide Record, ValidName, ValidEntry, WellNamed, Intact, SizesExact;
    if es != [] {
      var init, last := es[..|es| - 1], es[|es| - 1];
      RecordAllShape(init, links);
      RecordShape(last.entry, RecordAll(init, links).1);
      var cs := RecordAll(es, links).0;
      forall i | 0 <= i < |cs| ensures exists j :: 0 <= j < |es| && es[j].name == cs[i].name {
        if i < |RecordAll(init, links).0| {
          var j :| 0 <= j < |init| && init[j].name == RecordAll(init, links).0[i].name;
          assert es[j].name == cs[i].name;
        } else {
          assert es[|es| - 1].name == cs[i].name;
        }
      }
    }
  }

  /* ---- The whole way ---- */

  predicate SameInode(a: Entry, b: Entry) {
    IsLinkedFile(a) && IsLinkedFile(b) && a.stat.ino == b.stat.ino
  }

  /** Linked source files with the same inode number have the same content. */
  predicate LinksAgree(files: map<Path, Entry>) {
    forall p, q :: p in files && q in files && SameInode(files[p], files[q]) ==> files[p].content == files[q].content
  }

  predicate FilesAreFiles(files: map<Path, Entry>) { forall p :: p in files ==> files[p].File? }

  /** Every file is restored under its path with its own bytes. */
  ghost predicate SameFiles(d: Dest, files: map<Path, Entry>)
    requires FilesAreFiles(files)
  {
    d.files.Keys == files.Keys && forall p :: p in files ==> d.files[p].body == files[p].content
  }

  ghost predicate SameLinks(d: Dest, files: map<Path, Entry>)
    requires FilesAreFiles(files)
  {
    forall p, q :: p in files && q in files && p in d.files && q in d.files && p != q
      ==> (d.files[p].id == d.files[q].id <==> SameInode(files[p], files[q]))
  }

  lemma EmptyInstalled()
    ensures Installed(EMPTY, map[]) && R.NothingUnder<Snap>(map[], [])
  {}

  /**
   Main result on values. Restoring what was recorded of a source tree gives back every kept
   path and the link structure by inode number; without a filter it gives back every file's own
   bytes exactly when links to one inode number agree (the reader looks at the number alone, the
   writer at device and number).
  */
  lemma RestoredEqualsSource(e: Entry, flt: Filter)
    requires ValidEntry(e) && e.Dir?
    ensures var s := Record(e, map[]).0.value;
            var d := Install(s, [], [], flt, EMPTY);
            var files := SourceFiles(e, []);
            && FilesAreFiles(files) && SameLinks(d, files)
            && (forall p :: p in d.files <==> p in files && flt.Matches(Rel(p)))
            && (LinksAgree(files) ==> forall p :: p in d.files ==> d.files[p].body == files[p].content)
            && (flt.KeepAll? ==> (SameFiles(d, files) <==> LinksAgree(files)))
  {
    var s := Record(e, map[]).0.value;
    var files := SourceFiles(e, []);
    RecordOfDir(e);
    hide Record, SourceFiles, SnapFiles, Install, Installed, Count, flt.Matches, Rel, Carries, ValidEntry, SizesExact,
         Intact, WellNamed, SnapDirs, SameLinks, SameFiles, LinksAgree, LinksCarry, ExactLinks, FilesCarry, Kept,
         FilesAreFiles, Within, R.NothingUnder;
    RecordShape(e, map[]);
    RecordCarries(e, [], map[], files);
    EmptyInstalled();
    RelOfRoot();
    InstallInstalled(s, [], flt, EMPTY, map[]);
    var snaps := SnapFiles(s, []);
    NoneDone(Kept(snaps, flt));
    Concluded(Install(s, [], [], flt, EMPTY), snaps, files, flt);
  }

  /**
   The plan is met: restoring what was recorded fails nowhere, creates every directory of the source that
   the filter descends into and no other, restores the planned number of files, and writes at most the
   planned bytes (links write none).
  */
  lemma RestoredMeetsPlan(e: Entry, flt: Filter)
    requires ValidEntry(e) && e.Dir?
    ensures var s := Record(e, map[]).0.value;
            var (d, t) := (Install(s, [], [], flt, EMPTY), Count(s, [], flt));
            && d.failures == [] && d.filesRestored == t.files && d.bytesRestored <= t.bytes
            && d.dirs == Entered(SourceDirs(e, []), flt)
            && (flt.KeepAll? ==> d.dirs == SourceDirs(e, []))
  {
    RecordOfDir(e);
    hide Record, Install, Count, ValidEntry, SizesExact, Intact, WellNamed, SnapDirs, SourceDirs, ExactLinks,
         Entered;
    var s := Record(e, map[]).0.value;
    RecordShape(e, map[]);
    InstallTotals(s, [], [], flt, EMPTY);
    RelOfRoot();
    InstallDirs(s, [], flt, EMPTY);
    RecordDirs(e, map[], []);
    AllEntered(SourceDirs(e, []), flt);
  }

  ghost predicate SizesHold(files: map<Path, Snap>) {
    forall p :: p in files && files[p].SFile? ==> files[p].size == |files[p].content|
  }

  lemma {:induction false} SnapSizes(s: Snap, path: Path)
    requires SizesExact(s)
    ensures SizesHold(SnapFiles(s, path))
    decreases s
  {
    if s.SDir? {
      SnapAllSizes(s.children, path);
    }
  }

  lemma {:induction false} SnapAllSizes(cs: seq<SnapChild>, path: Path)
    requires forall i :: 0 <= i < |cs| ==> SizesExact(cs[i].snap)
    ensures SizesHold(SnapFilesAll(cs, path))
    decreases cs
  {
    if cs != [] {
      SnapAllSizes(cs[..|cs| - 1], path);
      SnapSizes(cs[|cs| - 1].snap, path + [cs[|cs| - 1].name]);
    }
  }

  /**
   The counters and the plan say what is there: so many files, so many directories, each body written once; and the
   plan is the number of files, and where links agree the sum of their lengths.
  */
  lemma RestoredIsCounted(e: Entry, flt: Filter)
    requires ValidEntry(e) && e.Dir?
    ensures var s := Record(e, map[]).0.value;
            var (d, t) := (Install(s, [], [], flt, EMPTY), Count(s, [], flt));
            && Counted(d) && t.files == |d.files|
            && (LinksAgree(SourceFiles(e, [])) ==> t.bytes == Sum(Lengths(d), d.files.Keys))
  {
    var s := Record(e, map[]).0.value;
    var (d, t) := (Install(s, [], [], flt, EMPTY), Count(s, [], flt));
    var (snaps, files) := (SnapFiles(s, []), SourceFiles(e, []));
    RecordOfDir(e);
    hide Record, SourceFiles, SnapFiles, Install, Count, flt.Matches, Rel, Carries, ValidEntry, SizesExact, Intact,
         WellNamed, SameFiles, LinksAgree, LinksCarry, ExactLinks, FilesCarry, Kept, FilesAreFiles, Within, Counted,
         Plans, Clear;
    RecordShape(e, map[]);
    RecordCarries(e, [], map[], files);
    EmptyCounted();
    RelOfRoot();
    InstallCounted(s, [], flt, EMPTY);
    CountPlans(s, [], flt);
    RestoredEqualsSource(e, flt);
    SnapSizes(s, []);
    PlanIsRestored(d, t, snaps, files, flt);
  }

  lemma PlanIsRestored(d: Dest, t: Totals, snaps: map<Path, Snap>, files: map<Path, Entry>, flt: Filter)
    requires FilesAreFiles(files) && FilesCarry(snaps, files, files) && Plans(t, snaps, flt)
    requires SizesHold(snaps)
    requires forall p :: p in d.files <==> p in files && flt.Matches(Rel(p))
    requires LinksAgree(files) ==> forall p :: p in d.files ==> d.files[p].body == files[p].content
    ensures t.files == |d.files| && (LinksAgree(files) ==> t.bytes == Sum(Lengths(d), d.files.Keys))
  {
    hide flt.Matches, Rel, LinksAgree, Carries;
    assert KeptPaths(snaps, flt) == d.files.Keys;
    if LinksAgree(files) {
      forall p | p in d.files ensures Lengths(d)[p] == Sizes(snaps)[p] {
        CarriedContent(snaps, files, p);
      }
      SumSame(Sizes(snaps), Lengths(d), d.files.Keys);
    }
  }

  /* ---- What the writer counts ---- */

  lemma {:induction false} EveryDirCounts(s: Snap, path: Path, rel: bytes, d: Dest)
    requires Intact(s)
    ensures Install(s, path, rel, KeepAll, d).dirsRestored == d.dirsRestored + B.DirCount(s)
    decreases s
  {
    if s.SDir? {
      EveryChildDirCounts(s.children, path, rel, Enter(path, d));
    }
  }

  lemma {:induction false} EveryChildDirCounts(cs: seq<SnapChild>, path: Path, rel: bytes, d: Dest)
    requires AllIntact(cs)
    ensures InstallAll(cs, path, rel, KeepAll, d).dirsRestored == d.dirsRestored + B.DirCountAll(cs)
    decreases cs
  {
    hide ChildRel;
    if cs != [] {
      var (init, c) := (cs[..|cs| - 1], cs[|cs| - 1]);
      EveryChildDirCounts(init, path, rel, d);
      EveryDirCounts(c.snap, path + [c.name], ChildRel(rel, c.name), InstallAll(init, path, rel, KeepAll, d));
    }
  }

  /** The lengths of the source's files. */
  function Contents(files: map<Path, Entry>): map<Path, int> {
    map p | p in files :: if files[p].File? then |files[p].content| else 0
  }

  /** The files and directories of the source are so many, and where links agree its bytes, too. */
  ghost predicate TotalsOf(e: Entry, t: Totals, dirs: nat) {
    var files := SourceFiles(e, []);
    && t.files == |files| && dirs == |SourceDirs(e, [])|
    && (LinksAgree(files) ==> t.bytes == Sum(Contents(files), files.Keys))
  }

  /** The totals the writer keeps are the source's. */
  lemma SourceCounted(e: Entry)
    requires ValidEntry(e) && e.Dir?
    ensures var s := Record(e, map[]).0.value; TotalsOf(e, Count(s, [], KeepAll), B.DirCount(s))
  {
    var (s, files) := (Record(e, map[]).0.value, SourceFiles(e, []));
    var d := Install(s, [], [], KeepAll, EMPTY);
    RecordOfDir(e);
    RecordIntact(e, map[]);
    hide Record, SourceFiles, SourceDirs, Install, Count, ValidEntry, Intact, LinksAgree, Entered, B.DirCount, Counted,
         SameLinks, SameFiles, Sum, Lengths, Contents, FilesAreFiles, Rel;
    RestoredIsCounted(e, KeepAll);
    RestoredEqualsSource(e, KeepAll);
    RestoredMeetsPlan(e, KeepAll);
    assert forall p :: KeepAll.Matches(Rel(p));
    EveryDirCounts(s, [], [], EMPTY);
    RestoredTotals(d, files, SourceDirs(e, []));
  }

  lemma RestoredTotals(d: Dest, files: map<Path, Entry>, dirs: set<Path>)
    requires Counted(d) && FilesAreFiles(files) && d.dirs == dirs && forall p :: p in d.files <==> p in files
    ensures |files| == |d.files| && d.dirsRestored == |dirs|
    ensures (forall p :: p in d.files ==> d.files[p].body == files[p].content)
        ==> Sum(Lengths(d), d.files.Keys) == Sum(Contents(files), files.Keys)
  {
    assert files.Keys == d.files.Keys;
    assert |files| == |files.Keys| == |d.files.Keys| == |d.files|;
    if forall p :: p in d.files ==> d.files[p].body == files[p].content {
      SumSame(Lengths(d), Contents(files), files.Keys);
    }
  }

  /* ---- What was asked for ---- */

  /**
   Of a restore limited to given paths: a file is there exactly if a given path is its own or above it, and a directory
   exactly if it is the root or a given path is its own, above it or below it.
  */
  ghost predicate AsAsked(d: Dest, files: map<Path, Entry>, dirs: set<Path>, flt: Filter) {
    forall texts, paths :: MadeFrom(flt, texts, paths) ==>
      && (forall p :: p in d.files <==> p in files && AtOrBelow(paths, p))
      && forall p :: p in d.dirs <==> p in dirs && OnTheWay(paths, p)
  }

  lemma {:induction false} SourcePathsValid(e: Entry, path: Path)
    requires ValidEntry(e) && ValidPath(path)
    ensures forall p :: p in SourceFiles(e, path) || p in SourceDirs(e, path) ==> ValidPath(p)
    decreases e
  {
    if e.Dir? {
      SourceAllPathsValid(e.entries, path);
    }
  }

  lemma {:induction false} SourceAllPathsValid(es: seq<Named>, path: Path)
    requires ValidEntries(es) && ValidPath(path)
    ensures forall p :: p in SourceFilesAll(es, path) || p in SourceDirsAll(es, path) ==> ValidPath(p)
    decreases es
  {
    if es != [] {
      SourceAllPathsValid(es[..|es| - 1], path);
      SourcePathsValid(es[|es| - 1].entry, path + [es[|es| - 1].name]);
    }
  }

  lemma RestoredAsAsked(e: Entry, flt: Filter, d: Dest)
    requires ValidEntry(e) && d.dirs == Entered(SourceDirs(e, []), flt)
    requires forall p :: p in d.files <==> p in SourceFiles(e, []) && flt.Matches(Rel(p))
    ensures AsAsked(d, SourceFiles(e, []), SourceDirs(e, []), flt)
  {
    hide SourceFiles, SourceDirs, ValidEntry, flt.Matches, flt.Descend, Rel, MadeFrom, ValidPath, AtOrBelow, OnTheWay;
    assert ValidPath([]) by {
      RootValid();
    }
    SourcePathsValid(e, []);
    forall texts, paths, p | MadeFrom(flt, texts, paths) && ValidPath(p)
      ensures (flt.Matches(Rel(p)) <==> AtOrBelow(paths, p)) && (flt.Descend(Rel(p)) <==> OnTheWay(paths, p))
    {
      KeepsAtOrBelow(flt, texts, paths, p);
      DescendsOnTheWay(flt, texts, paths, p);
    }
  }

  lemma RootValid()
    ensures ValidPath([])
  {}

  lemma AllEntered(dirs: set<Path>, flt: Filter)
    ensures EMPTY.dirs + Entered(dirs, flt) == Entered(dirs, flt)
    ensures flt.KeepAll? ==> Entered(dirs, flt) == dirs
  {}

  lemma RecordOfDir(e: Entry)
    requires e.Dir?
    ensures Record(e, map[]).0.Some? && Record(e, map[]).0.value.SDir?
    ensures LinksCarry(map[], SourceFiles(e, [])) && ExactLinks(map[])
    ensures FilesAreFiles(SourceFiles(e, [])) && Within(SourceFiles(e, []), SourceFiles(e, []))
  {
    hide SourceFiles;
    SourceFilesUnder(e, []);
  }

  lemma NoneDone(kept: map<Path, Snap>)
    ensures map[] + kept == kept
  {}

  lemma RelOfRoot()
    ensures Rel([]) == []
  {}

  lemma Concluded(d: Dest, snaps: map<Path, Snap>, files: map<Path, Entry>, flt: Filter)
    requires FilesAreFiles(files) && FilesCarry(snaps, files, files) && Installed(d, Kept(snaps, flt))
    ensures forall p :: p in d.files <==> p in files && flt.Matches(Rel(p))
    ensures SameLinks(d, files)
    ensures LinksAgree(files) ==> forall p :: p in d.files ==> d.files[p].body == files[p].content
    ensures flt.KeepAll? ==> (SameFiles(d, files) <==> LinksAgree(files))
  {
    hide flt.Matches, Rel, LinksAgree;
    ConcludedPaths(d, snaps, files, flt);
    if LinksAgree(files) {
      ConcludedBodies(d, snaps, files, flt);
    }
    if flt.KeepAll? {
      forall p ensures flt.Matches(Rel(p)) {
        KeepAllKeeps(Rel(p));
      }
      if SameFiles(d, files) {
        ConcludedAgree(d, snaps, files, flt);
      }
    }
  }

  lemma ConcludedPaths(d: Dest, snaps: map<Path, Snap>, files: map<Path, Entry>, flt: Filter)
    requires FilesAreFiles(files) && FilesCarry(snaps, files, files) && Installed(d, Kept(snaps, flt))
    ensures forall p :: p in d.files <==> p in files && flt.Matches(Rel(p))
    ensures SameLinks(d, files)
  {
    hide flt.Matches, Rel;
    var done := Kept(snaps, flt);
    forall p | p in files && p in done ensures p in d.files && Placed(d, done, p)
        && Carries(snaps[p], files[p], files) {}
    forall p | p in d.files ensures p in files && flt.Matches(Rel(p)) {
      assert Placed(d, done, p);
    }
  }

  lemma ConcludedBodies(d: Dest, snaps: map<Path, Snap>, files: map<Path, Entry>, flt: Filter)
    requires FilesAreFiles(files) && FilesCarry(snaps, files, files) && Installed(d, Kept(snaps, flt))
        && LinksAgree(files)
    ensures forall p :: p in d.files ==> p in files && d.files[p].body == files[p].content
  {
    hide flt.Matches, Rel, LinksAgree, SameBody, Carries;
    var done := Kept(snaps, flt);
    forall p | p in d.files ensures p in files && d.files[p].body == files[p].content {
      assert Placed(d, done, p);
      CarriedContent(snaps, files, p);
      if IsLink(snaps[p]) {
        var lead := d.links[snaps[p].ino];
        assert Leads(d, done, snaps[p].ino) && Placed(d, done, lead);
        CarriedContent(snaps, files, lead);
        SameInodeContent(snaps, files, p, lead);
      }
    }
  }

  lemma SameInodeContent(snaps: map<Path, Snap>, files: map<Path, Entry>, p: Path, q: Path)
    requires FilesAreFiles(files) && FilesCarry(snaps, files, files) && LinksAgree(files)
    requires p in files && q in files && IsLink(snaps[p]) && IsLink(snaps[q]) && snaps[p].ino == snaps[q].ino
    ensures files[p].content == files[q].content
  {
    assert Carries(snaps[p], files[p], files) && Carries(snaps[q], files[q], files);
    assert SameInode(files[p], files[q]);
  }

  lemma ConcludedAgree(d: Dest, snaps: map<Path, Snap>, files: map<Path, Entry>, flt: Filter)
    requires FilesAreFiles(files) && FilesCarry(snaps, files, files) && Installed(d, Kept(snaps, flt))
    requires SameFiles(d, files)
    ensures LinksAgree(files)
  {
    hide flt.Matches, Rel;
    var done := Kept(snaps, flt);
    forall p, q | p in files && q in files && SameInode(files[p], files[q])
      ensures files[p].content == files[q].content
    {
      assert Placed(d, done, p) && Placed(d, done, q);
      assert Carries(snaps[p], files[p], files) && Carries(snaps[q], files[q], files);
    }
  }

  /** Where links agree, a recorded file carries its own source's content. */
  lemma CarriedContent(snaps: map<Path, Snap>, files: map<Path, Entry>, p: Path)
    requires FilesAreFiles(files) && FilesCarry(snaps, files, files) && LinksAgree(files) && p in files
    ensures snaps[p].SFile? && snaps[p].content == files[p].content
  {
    assert Carries(snaps[p], files[p], files);
  }

  /* ---- A damaged store ---- */

  /** g has lost blobs f knows, but never answers with other bytes. */
  ghost predicate OnlyLoses(f: Fetcher, g: Fetcher) {
    forall loc :: f(loc).Ok? && g(loc).Ok? ==> g(loc) == f(loc)
  }

  /** What remains of the snapshot a node described, read through a fetcher that has lost blobs. */
  function Remains(g: Fetcher, n: Node, s: Snap): Snap
    decreases s
  {
    match s
    case SFile(_, size, ino, nlink) =>
      if n.FileNode? && FetchJoined(g, n.dataBlobLocs).Err? then SLostFile(size, ino, nlink) else s
    case SDir(cs) =>
      if n.TreeNode? && g(n.treeBlobLoc).Ok? && HasChildren(g(n.treeBlobLoc).value, |cs|)
      then SDir(RemainsAll(g, ParseTree(g(n.treeBlobLoc).value).value.children, cs))
      else SLostDir
    case _ => s
  }

  predicate HasChildren(plain: bytes, count: nat) {
    ParseTree(plain).Ok? && |ParseTree(plain).value.children| == count
  }

  function RemainsAll(g: Fetcher, ts: seq<TreeChild>, cs: seq<SnapChild>): (r: seq<SnapChild>)
    requires |ts| == |cs|
    ensures |r| == |cs|
    ensures forall i :: 0 <= i < |cs| ==> r[i] == SnapChild(cs[i].name, Remains(g, ts[i].node, cs[i].snap))
    decreases cs
  {
    if cs == [] then []
    else
      var k := |cs| - 1;
      RemainsAll(g, ts[..k], cs[..k]) + [SnapChild(cs[k].name, Remains(g, ts[k].node, cs[k].snap))]
  }

  lemma {:induction false} JoinedOnlyLoses(f: Fetcher, g: Fetcher, locs: seq<BlobLoc>)
    requires OnlyLoses(f, g) && FetchJoined(f, locs).Ok? && FetchJoined(g, locs).Ok?
    ensures FetchJoined(g, locs) == FetchJoined(f, locs)
  {
    if locs != [] {
      JoinedOnlyLoses(f, g, locs[..|locs| - 1]);
    }
  }

  lemma {:induction false} RemainsDescribed(
    f: Fetcher, g: Fetcher, byId: bytes -> Result<bytes>, byId': bytes -> Result<bytes>, n: Node, s: Snap)
    requires OnlyLoses(f, g) && Describes(f, byId, n, s) && Intact(s)
    requires forall loc :: f(loc).Ok? ==> SameById(g, byId', loc)
    ensures Describes(g, byId', n, Remains(g, n, s))
    decreases s
  {
    hide ParseTree;
    match s
    case SFile(_, _, _, _) =>
      if FetchJoined(g, n.dataBlobLocs).Ok? {
        JoinedOnlyLoses(f, g, n.dataBlobLocs);
      }
    case SDir(cs) =>
      assert DescribesTree(f, byId, n.treeBlobLoc, cs);
      if g(n.treeBlobLoc).Ok? {
        var ts := ParseTree(f(n.treeBlobLoc).value).value.children;
        assert g(n.treeBlobLoc) == f(n.treeBlobLoc) && DescribesAll(f, byId, ts, cs);
        var rs := RemainsAll(g, ts, cs);
        forall i | 0 <= i < |cs| ensures ts[i].name == rs[i].name && Describes(g, byId', ts[i].node, rs[i].snap) {
          RemainsDescribed(f, g, byId, byId', ts[i].node, cs[i].snap);
        }
        assert DescribesAll(g, byId', ts, rs);
        assert DescribesTree(g, byId', n.treeBlobLoc, rs);
      }
  }

  /** The remaining files are the recorded ones, unchanged or marked lost. */
  ghost predicate FilesRemain(left: map<Path, Snap>, snaps: map<Path, Snap>) {
    forall p :: p in left ==>
      && p in snaps && IsFile(left[p]) && IsFile(snaps[p])
      && (left[p].SFile? ==> left[p] == snaps[p])
      && IsLink(left[p]) == IsLink(snaps[p]) && left[p].ino == snaps[p].ino
  }

  lemma {:induction false} RemainsFiles(g: Fetcher, n: Node, s: Snap, path: Path)
    requires WellNamed(s) && Intact(s)
    ensures WellNamed(Remains(g, n, s)) && FilesRemain(SnapFiles(Remains(g, n, s), path), SnapFiles(s, path))
    decreases s
  {
    hide ParseTree;
    match s
    case SFile(_, _, _, _) =>
    case SDir(cs) =>
      if n.TreeNode? && g(n.treeBlobLoc).Ok? && HasChildren(g(n.treeBlobLoc).value, |cs|) {
        RemainsAllFiles(g, ParseTree(g(n.treeBlobLoc).value).value.children, cs, path);
      }
  }

  lemma {:induction false} RemainsAllFiles(g: Fetcher, ts: seq<TreeChild>, cs: seq<SnapChild>, path: Path)
    requires |ts| == |cs| && WellNamedAll(cs) && AllIntact(cs)
    ensures WellNamedAll(RemainsAll(g, ts, cs))
    ensures FilesRemain(SnapFilesAll(RemainsAll(g, ts, cs), path), SnapFilesAll(cs, path))
    decreases cs
  {
    hide Remains, SnapFiles, ValidName, WellNamed, Intact, FilesRemain;
    if cs == [] {
      NothingRemains();
    } else {
      var k := |cs| - 1;
      var place := path + [cs[k].name];
      RemainsAllFiles(g, ts[..k], cs[..k], path);
      RemainsFiles(g, ts[k].node, cs[k].snap, place);
      LastChildApart(cs, path);
      SnapFilesUnder(cs[k].snap, place);
      var rs := RemainsAll(g, ts, cs);
      assert rs[..k] == RemainsAll(g, ts[..k], cs[..k]);
      UnionRemains(SnapFilesAll(rs[..k], path), SnapFilesAll(cs[..k], path),
                   SnapFiles(rs[k].snap, place), SnapFiles(cs[k].snap, place));
    }
  }

  lemma NothingRemains()
    ensures FilesRemain(map[], map[])
  {}

  lemma UnionRemains(a: map<Path, Snap>, a0: map<Path, Snap>, b: map<Path, Snap>, b0: map<Path, Snap>)
    requires FilesRemain(a, a0) && FilesRemain(b, b0) && a0.Keys !! b0.Keys
    ensures FilesRemain(a + b, a0 + b0)
  {}

  /** The path, or that of a directory above it, is among the failures. */
  ghost predicate FailedAbove(failures: seq<Path>, p: Path) {
    exists q :: q in failures && q <= p
  }

  /** Every kept file is restored, or reported through its own path or a directory above it. */
  ghost predicate Reported(d: Dest, kept: set<Path>, flt: Filter) {
    forall p :: p in kept && flt.Matches(Rel(p)) ==> p in d.files || FailedAbove(d.failures, p)
  }

  ghost predicate GoesOn(d: Dest, d': Dest) {
    d.failures <= d'.failures && d.files.Keys <= d'.files.Keys
  }

  lemma StillReported(d: Dest, d': Dest, kept: set<Path>, flt: Filter)
    requires Reported(d, kept, flt) && GoesOn(d, d')
    ensures Reported(d', kept, flt)
  {
    hide flt.Matches, Rel;
    forall p | FailedAbove(d.failures, p) ensures FailedAbove(d'.failures, p) {
      var q :| q in d.failures && q <= p;
      assert q in d'.failures;
    }
  }

  lemma FileReported(s: Snap, left: Snap, path: Path, flt: Filter, d: Dest)
    requires s.SFile? && (left == s || left.SLostFile?)
    ensures var d' := Install(left, path, Rel(path), flt, d); GoesOn(d, d') && Reported(d', {path}, flt)
  {
    hide flt.Matches, Rel;
    var d' := Install(left, path, Rel(path), flt, d);
    assert path in d.failures + [path] && path <= path;
  }

  lemma DirFailureReports(path: Path, below: set<Path>, flt: Filter, d: Dest)
    requires forall p :: p in below ==> path <= p
    ensures var d' := Enter(path, d).(failures := d.failures + [path]); GoesOn(d, d') && Reported(d', below, flt)
  {
    hide flt.Matches, Rel;
    assert path in d.failures + [path];
  }

  lemma PrunedReports(cs: seq<SnapChild>, path: Path, flt: Filter, d: Dest)
    requires WellNamedAll(cs) && ValidPath(path) && !flt.Descend(Rel(path))
    ensures Reported(d, SnapFilesAll(cs, path).Keys, flt)
  {
    hide SnapFilesAll, flt.Matches, flt.Descend, Rel, WellNamedAll;
    PrunedKeepsNothing(cs, path, flt);
    forall p | p in SnapFilesAll(cs, path) ensures !flt.Matches(Rel(p)) {
      assert p !in Kept(SnapFilesAll(cs, path), flt);
    }
  }

  /** A restore of what remains reports whatever it leaves out. */
  lemma {:induction false} RemainsReported(g: Fetcher, n: Node, s: Snap, path: Path, flt: Filter, d: Dest)
    requires WellNamed(s) && Intact(s) && ValidPath(path)
    ensures var d' := Install(Remains(g, n, s), path, Rel(path), flt, d);
            GoesOn(d, d') && Reported(d', SnapFiles(s, path).Keys, flt)
    decreases s
  {
    if s.SFile? {
      assert SnapFiles(s, path).Keys == {path};
      FileRemains(g, n, s);
      FileReported(s, Remains(g, n, s), path, flt, d);
    } else {
      var ts := DirRemains(g, n, s.children);
      InstallsDir(Remains(g, n, s), path, flt, d);
      hide Remains, Install, flt.Matches, flt.Descend, Rel, Reported, GoesOn;
      if !flt.Descend(Rel(path)) {
        PrunedReports(s.children, path, flt, d);
        NothingHappens(d);
      } else if Remains(g, n, s).SLostDir? {
        SnapFilesUnder(s, path);
        DirFailureReports(path, SnapFiles(s, path).Keys, flt, d);
      } else {
        RemainsAllReported(g, ts, s.children, path, flt, Enter(path, d));
        EnterGoesOn(path, d, Install(Remains(g, n, s), path, Rel(path), flt, d));
      }
    }
  }

  lemma FileRemains(g: Fetcher, n: Node, s: Snap)
    requires s.SFile?
    ensures Remains(g, n, s) == s || Remains(g, n, s).SLostFile?
  {}

  lemma DirRemains(g: Fetcher, n: Node, cs: seq<SnapChild>) returns (ts: seq<TreeChild>)
    ensures var r := Remains(g, n, SDir(cs)); r.SLostDir? || (|ts| == |cs| && r == SDir(RemainsAll(g, ts, cs)))
  {
    ts := if n.TreeNode? && g(n.treeBlobLoc).Ok? && ParseTree(g(n.treeBlobLoc).value).Ok?
          then ParseTree(g(n.treeBlobLoc).value).value.children else [];
  }

  lemma InstallsDir(s: Snap, path: Path, flt: Filter, d: Dest)
    requires s.SDir? || s.SLostDir?
    ensures Install(s, path, Rel(path), flt, d)
         == if !flt.Descend(Rel(path)) then d
            else if s.SDir? then InstallAll(s.children, path, Rel(path), flt, Enter(path, d))
            else Enter(path, d).(failures := d.failures + [path])
  {
    hide flt.Descend, Rel;
  }

  lemma NothingHappens(d: Dest)
    ensures GoesOn(d, d)
  {}

  lemma EnterGoesOn(path: Path, d: Dest, d': Dest)
    requires GoesOn(Enter(path, d), d')
    ensures GoesOn(d, d')
  {}

  lemma {:induction false} RemainsAllReported(
    g: Fetcher, ts: seq<TreeChild>, cs: seq<SnapChild>, path: Path, flt: Filter, d: Dest)
    requires |ts| == |cs| && WellNamedAll(cs) && AllIntact(cs) && ValidPath(path)
    ensures var d' := InstallAll(RemainsAll(g, ts, cs), path, Rel(path), flt, d);
            GoesOn(d, d') && Reported(d', SnapFilesAll(cs, path).Keys, flt)
    decreases cs
  {
    hide Remains, SnapFiles, ValidName, WellNamed, Intact, Install, Rel, ChildRel, Reported, GoesOn;
    if cs == [] {
      NothingHappens(d);
      NothingToReport(d, flt);
      assert SnapFilesAll(cs, path).Keys == {};
    } else {
      var k := |cs| - 1;
      var place := path + [cs[k].name];
      var rs := RemainsAll(g, ts, cs);
      assert rs[..k] == RemainsAll(g, ts[..k], cs[..k]);
      RemainsAllReported(g, ts[..k], cs[..k], path, flt, d);
      ChildRelIsRel(path, cs[k].name);
      var before := InstallAll(rs[..k], path, Rel(path), flt, d);
      RemainsReported(g, ts[k].node, cs[k].snap, place, flt, before);
      BothReported(d, before, InstallAll(rs, path, Rel(path), flt, d), SnapFilesAll(cs[..k], path).Keys,
                   SnapFiles(cs[k].snap, place).Keys, flt);
      assert SnapFilesAll(cs, path).Keys == SnapFilesAll(cs[..k], path).Keys + SnapFiles(cs[k].snap, place).Keys;
    }
  }

  lemma NothingToReport(d: Dest, flt: Filter)
    ensures Reported(d, {}, flt)
  {}

  lemma BothReported(d: Dest, d1: Dest, d2: Dest, a: set<Path>, b: set<Path>, flt: Filter)
    requires GoesOn(d, d1) && GoesOn(d1, d2) && Reported(d1, a, flt) && Reported(d2, b, flt)
    ensures GoesOn(d, d2) && Reported(d2, a + b, flt)
  {
    StillReported(d1, d2, a, flt);
    hide flt.Matches, Rel, FailedAbove;
  }

  /**
   What a restore of the remaining snapshot leaves: source files only, with their own bytes where links agree, and a
   report for every kept file it leaves out.
  */
  ghost predicate HonestlyRestored(d: Dest, files: map<Path, Entry>, flt: Filter)
    requires FilesAreFiles(files)
  {
    && (forall p :: p in d.files ==> p in files && flt.Matches(Rel(p)))
    && (LinksAgree(files) ==> forall p :: p in d.files && p in files ==> d.files[p].body == files[p].content)
    && Reported(d, files.Keys, flt)
  }

  lemma RemainsHonest(e: Entry, flt: Filter, g: Fetcher, root: Node)
    requires ValidEntry(e) && e.Dir?
    ensures FilesAreFiles(SourceFiles(e, []))
    ensures var left := Remains(g, root, Record(e, map[]).0.value);
            WellNamed(left) && HonestlyRestored(Install(left, [], [], flt, EMPTY), SourceFiles(e, []), flt)
  {
    RecordOfDir(e);
    var s := Record(e, map[]).0.value;
    var left := Remains(g, root, s);
    hide Record, SourceFiles, SnapFiles, Install, Installed, flt.Matches, Rel, Carries, ValidEntry, Remains,
         Intact, WellNamed, LinksAgree, LinksCarry, ExactLinks, FilesCarry, Kept, FilesAreFiles, Within,
         R.NothingUnder, FilesRemain, SizesExact, Reported, HonestlyRestored;
    RecordShape(e, map[]);
    RecordCarries(e, [], map[], SourceFiles(e, []));
    RemainsFiles(g, root, s, []);
    EmptyInstalled();
    RelOfRoot();
    InstallInstalled(left, [], flt, EMPTY, map[]);
    NoneDone(Kept(SnapFiles(left, []), flt));
    RemainsReported(g, root, s, [], flt, EMPTY);
    HonestBodies(Install(left, [], [], flt, EMPTY), SnapFiles(left, []), SnapFiles(s, []), SourceFiles(e, []), flt);
  }

  lemma HonestBodies(d: Dest, left: map<Path, Snap>, snaps: map<Path, Snap>, files: map<Path, Entry>, flt: Filter)
    requires FilesAreFiles(files) && FilesCarry(snaps, files, files)
    requires FilesRemain(left, snaps) && Installed(d, Kept(left, flt)) && Reported(d, snaps.Keys, flt)
    ensures HonestlyRestored(d, files, flt)
  {
    hide flt.Matches, Rel, LinksAgree, SameBody, Carries, Reported;
    var done := Kept(left, flt);
    forall p | p in d.files ensures p in files && flt.Matches(Rel(p)) {
      assert Placed(d, done, p);
    }
    if LinksAgree(files) {
      forall p | p in d.files ensures d.files[p].body == files[p].content {
        assert Placed(d, done, p);
        CarriedContent(snaps, files, p);
        if IsLink(left[p]) {
          var lead := d.links[left[p].ino];
          assert Leads(d, done, left[p].ino);
          CarriedContent(snaps, files, lead);
          SameInodeContent(snaps, files, p, lead);
        }
      }
    }
  }

  /* ---- The two programs, one after the other ---- */

  /** The store holds, behind a tree loc, what was recorded of a source tree. */
  ghost predicate Restorable(c: Crypto, store: Store, byId: bytes -> Result<bytes>, loc: BlobLoc, e: Entry) {
    e.Dir? && Record(e, map[]).0.Some? && R.LocDescribes(R.FetcherOf(c, store), byId, loc, Record(e, map[]).0.value)
  }

  /** Every blob remembered under a computer's standalone objects is fetched from the store as it was written. */
  ghost predicate Holds(c: Crypto, store: Store, cu: bytes, o: Origin) {
    Extends(Recall(cu, o), R.FetcherOf(c, store))
  }

  lemma StoreHolds(b: B.Backup)
    requires b.Valid() && b.Sound()
    ensures Holds(b.cfg.crypto, b.store, b.cfg.computer, b.origin)
  {
    hide B.Backup.Valid, B.Backup.Sound, Fetch, WellAddressed;
    var (cu, c) := (b.cfg.computer, b.cfg.crypto);
    forall loc | Recall(cu, b.origin)(loc).Ok?
      ensures R.FetcherOf(c, b.store)(loc) == Recall(cu, b.origin)(loc)
    {
      BlobFetched(b, loc);
    }
  }

  lemma SameAddress(c: Crypto, store: Store, a: BlobLoc, b: BlobLoc)
    requires !a.isPacked && !b.isPacked && a.relativePath == b.relativePath && a.compressionType == b.compressionType
    ensures Fetch(c, store, a) == Fetch(c, store, b)
  {}

  lemma WriterRestorable(b: B.Backup, root: Node, e: Entry)
    requires b.Valid() && b.Sound() && e.Dir? && root.TreeNode? && Record(e, map[]).0.Some?
    requires Records(b.cfg.computer, b.origin, root, Record(e, map[]).0.value)
    ensures Restorable(b.cfg.crypto, b.store, RecallId(b.origin), root.treeBlobLoc, e)
  {
    RecordOfDir(e);
    RecordIntact(e, map[]);
    hide B.BlobsResolve, B.LinksDescribe, B.Accounted, Record;
    StoreHolds(b);
    var f, g, byId := Recall(b.cfg.computer, b.origin), R.FetcherOf(b.cfg.crypto, b.store), RecallId(b.origin);
    assert ExtendsId(byId, byId);
    DescribesExtends(f, g, byId, byId, root, Record(e, map[]).0.value);
  }

  lemma RecordDirAll(e: Entry)
    requires e.Dir?
    ensures var (cs, links) := RecordAll(e.entries, map[]);
            Record(e, map[]) == (Some(SDir(cs)), links)
    ensures Count(Record(e, map[]).0.value, [], KeepAll) == CountAll(RecordAll(e.entries, map[]).0, [], KeepAll)
  {}

  lemma WalkedTotals(e: Entry, t: Totals, dirs: nat)
    requires ValidEntry(e) && e.Dir?
    requires var cs := RecordAll(e.entries, map[]).0;
             t == CountAll(cs, [], KeepAll) && dirs == 1 + B.DirCountAll(cs)
    ensures TotalsOf(e, t, dirs)
  {
    hide ValidEntry, TotalsOf, CountAll, B.DirCountAll, RecordAll;
    SourceCounted(e);
  }

  /**
   Back up a source directory into a store, new or already in use. Unless a plaintext was too
   long to wrap, and as long as no two plaintexts collided and none was misread as sealed, the
   store can restore it; the node's totals are those of what was recorded.
  */
  method BackUp(cfg: B.Config, store: Store, e: Entry) returns (b: B.Backup, r: Result<B.Walked>)
    requires cfg.Valid() && ValidEntry(e) && e.Dir?
    ensures fresh(b) && b.Valid() && b.cfg == cfg && b.initial == store
    ensures r.Ok? ==> r.value.node.TreeNode? && Record(e, map[]).0.Some?
    ensures r.Ok? ==> Totals(r.value.files, r.value.itemSize) == Count(Record(e, map[]).0.value, [], KeepAll)
    ensures r.Ok? ==> r.value.node.meta == B.DirMeta(e.stat, r.value.itemSize, r.value.files)
    ensures r.Ok? ==>
        (r.value.node.meta.containedFilesCount, r.value.node.meta.itemSize) == (r.value.files, r.value.itemSize)
    ensures r.Ok? ==>
        TotalsOf(e, Totals(r.value.files, r.value.itemSize), b.treesWritten) && b.filesWritten == r.value.files
    ensures r.Ok? ==> B.KeepsStat(r.value.node.meta, e.stat)
    ensures r.Ok? && b.Sound() ==> Records(cfg.computer, b.origin, r.value.node, Record(e, map[]).0.value)
    ensures r.Ok? && b.Sound() ==> Holds(cfg.crypto, b.store, cfg.computer, b.origin)
    ensures r.Ok? && b.Sound() ==> Restorable(cfg.crypto, b.store, RecallId(b.origin), r.value.node.treeBlobLoc, e)
  {
    RecordDirAll(e);
    hide B.Backup.Valid, B.Backup.Sound, B.Growth, Records, Record, RecordAll, Restorable, Count, CountAll,
         Storable, ValidEntry, cfg.Valid, RecallId, Extends, B.DirMeta, B.ListsChildren, B.DirCount, B.DirCountAll,
         B.KeepsStat, TotalsOf, Holds, WriteTree;
    b := new B.Backup(cfg, store);
    r := b.WalkRoot(e.stat, e.entries);
    if r.Ok? {
      WalkedTotals(e, Totals(r.value.files, r.value.itemSize), b.treesWritten);
    }
    if r.Ok? && b.Sound() {
      WriterRestorable(b, r.value.node, e);
      StoreHolds(b);
    }
  }

  /** Restore it into an empty destination, planning first, so that the tree cache is warm. */
  method RestoreAll(c: Crypto, store: Store, loc: BlobLoc, flt: Filter, ghost byId: bytes -> Result<bytes>,
      ghost e: Entry)
    returns (r: R.Restore, plan: Totals, progress: R.Progress)
    requires ValidEntry(e) && e.Dir? && Restorable(c, store, byId, loc, e)
    ensures var (d, files) := (r.State(), SourceFiles(e, []));
            && FilesAreFiles(files) && SameLinks(d, files)
            && (forall p :: p in d.files <==> p in files && flt.Matches(Rel(p)))
            && (LinksAgree(files) ==> forall p :: p in d.files ==> d.files[p].body == files[p].content)
            && (flt.KeepAll? ==> (SameFiles(d, files) <==> LinksAgree(files)))
            && d.dirs == Entered(SourceDirs(e, []), flt) && (flt.KeepAll? ==> d.dirs == SourceDirs(e, []))
            && d.failures == [] && d.filesRestored == plan.files && d.bytesRestored <= plan.bytes
            && plan == Count(Record(e, map[]).0.value, [], flt)
    ensures var (d, files) := (r.State(), SourceFiles(e, []));
            && AsAsked(d, files, SourceDirs(e, []), flt) && Counted(d) && plan.files == |d.files|
            && (LinksAgree(files) ==> plan.bytes == Sum(Lengths(d), d.files.Keys))
    ensures progress.files == plan.files && progress.ticks == plan.files / R.PLANNING_TICK_FILES
  {
    hide Record, SourceFiles, SourceDirs, Entered, Install, Count, flt.Matches, Rel, SameLinks, SameFiles,
         LinksAgree, FilesAreFiles, R.LocDescribes, ValidEntry, Counted, AsAsked, Lengths;
    ghost var s := Record(e, map[]).0.value;
    r := new R.Restore(c, store);
    progress := new R.Progress();
    plan := r.CountTree(loc, [], flt, progress, true, byId, s);
    ShapeAtRoot(e);
    r.RestoreDir(loc, [], [], flt, byId, s);
    RestoredEqualsSource(e, flt);
    RestoredMeetsPlan(e, flt);
    RestoredIsCounted(e, flt);
    RestoredAsAsked(e, flt, r.State());
  }

  /** What f answers from its own knowledge, g answers the same or not at all; and g's answer goes by identifier. */
  lemma DamagedFetcher(c: Crypto, store: Store, damaged: Store, cu: bytes, o: Origin)
    requires Holds(c, store, cu, o) && OnlyLoses(R.FetcherOf(c, store), R.FetcherOf(c, damaged))
    ensures var (f, g) := (Recall(cu, o), R.FetcherOf(c, damaged));
            OnlyLoses(f, g) && forall loc :: f(loc).Ok? ==> SameById(g, ById(c, damaged, cu), loc)
  {
    hide Fetch;
    forall loc | Recall(cu, o)(loc).Ok? ensures SameById(R.FetcherOf(c, damaged), ById(c, damaged, cu), loc) {
      SameAddress(c, damaged, loc, FileBlobLoc(cu, loc.blobIdentifier, 0));
    }
  }

  /** The answer a store gives for an identifier: that for the standalone object under it. */
  function ById(c: Crypto, store: Store, cu: bytes): bytes -> Result<bytes> {
    id => if |id| == BLOB_ID_LENGTH then Fetch(c, store, FileBlobLoc(cu, id, 0)) else Err
  }

  /** Objects that went missing are damage of this kind, whatever else is kept. */
  lemma MissingObjectsOnlyLose(c: Crypto, store: Store, damaged: Store)
    requires forall p :: p in damaged ==> p in store && damaged[p] == store[p]
    ensures OnlyLoses(R.FetcherOf(c, store), R.FetcherOf(c, damaged))
  {}

  /**
   Restore from a store that has been damaged since: objects are missing, or no longer open. Whatever is restored is a
   source file with its own bytes, and every kept file left out is reported, itself or through a directory above it.
  */
  method RestoreDamaged(
    c: Crypto, damaged: Store, root: Node, flt: Filter, ghost store: Store, ghost cu: bytes, ghost o: Origin,
    ghost e: Entry)
    returns (r: R.Restore)
    requires ValidEntry(e) && e.Dir? && root.TreeNode? && Record(e, map[]).0.Some?
    requires Holds(c, store, cu, o) && Records(cu, o, root, Record(e, map[]).0.value)
    requires OnlyLoses(R.FetcherOf(c, store), R.FetcherOf(c, damaged))
    ensures FilesAreFiles(SourceFiles(e, [])) && HonestlyRestored(r.State(), SourceFiles(e, []), flt)
  {
    ghost var (f, g, s) := (Recall(cu, o), R.FetcherOf(c, damaged), Record(e, map[]).0.value);
    ghost var (byId, left) := (ById(c, damaged, cu), Remains(g, root, s));
    RemainsLoc(g, root, s, byId);
    hide Record, SourceFiles, Install, Remains, Describes, R.LocDescribes, ValidEntry, HonestlyRestored, OnlyLoses,
         Holds, FilesAreFiles, Recall, R.FetcherOf, ById, flt.Matches, Rel, WellNamed;
    DamagedFetcher(c, store, damaged, cu, o);
    ShapeAtRoot(e);
    RecordOfDir(e);
    RecordIntact(e, map[]);
    RemainsDescribed(f, g, RecallId(o), byId, root, s);
    RemainsHonest(e, flt, g, root);
    r := new R.Restore(c, damaged);
    r.RestoreDir(root.treeBlobLoc, [], [], flt, byId, left);
  }

  lemma RemainsLoc(g: Fetcher, root: Node, s: Snap, byId: bytes -> Result<bytes>)
    ensures root.TreeNode? && s.SDir? && Describes(g, byId, root, Remains(g, root, s))
        ==> R.LocDescribes(g, byId, root.treeBlobLoc, Remains(g, root, s))
  {
    hide ParseTree, RemainsAll;
  }

  lemma ShapeAtRoot(e: Entry)
    requires ValidEntry(e) && e.Dir? && Record(e, map[]).0.Some?
    ensures WellNamed(Record(e, map[]).0.value) && R.NothingUnder<Obj>(map[], [])
  {
    RecordShape(e, map[]);
  }

  /* ---- A later run into the same destination ---- */

  /** Over both runs no two plaintexts share an identifier. */
  ghost predicate NoClash(c: Crypto, a: set<bytes>, b: set<bytes>) {
    forall p, q :: p in a && q in b && c.blobId(p) == c.blobId(q) ==> p == q
  }

  /** What an earlier run recorded is still described by the store a later run leaves. */
  lemma LaterRunKeepsSnapshot(b1: B.Backup, b2: B.Backup, n: Node, s: Snap)
    requires b1.Valid() && b1.Sound() && b2.Valid() && b2.Sound()
    requires b2.initial == b1.store && b2.cfg.crypto == b1.cfg.crypto && b2.cfg.computer == b1.cfg.computer
    requires NoClash(b1.cfg.crypto, b1.seen, b2.seen)
    requires Records(b1.cfg.computer, b1.origin, n, s) && Intact(s)
    ensures Describes(R.FetcherOf(b2.cfg.crypto, b2.store), RecallId(b1.origin), n, s)
  {
    hide Describes;
    var f, g := Recall(b1.cfg.computer, b1.origin), R.FetcherOf(b2.cfg.crypto, b2.store);
    forall loc | f(loc).Ok? ensures g(loc) == f(loc) {
      LaterRunKeepsBlob(b1, b2, loc);
    }
    assert ExtendsId(RecallId(b1.origin), RecallId(b1.origin));
    DescribesExtends(f, g, RecallId(b1.origin), RecallId(b1.origin), n, s);
  }

  lemma BlobFetched(b: B.Backup, loc: BlobLoc)
    requires b.Valid() && b.Sound()
    requires WellAddressed(b.cfg.computer, loc) && loc.blobIdentifier in b.origin
    ensures var (c, id) := (b.cfg.crypto, loc.blobIdentifier);
            && Fetch(c, b.store, loc) == Ok(b.origin[id]) && c.blobId(b.origin[id]) == id && b.origin[id] in b.seen
            && loc.relativePath in b.store
  {
    hide B.LinksDescribe, B.Accounted, B.KeepsObjects, PathForBlob, Lz4Unwrap;
    var id := loc.blobIdentifier;
    assert b.cfg.Resolves(b.store, b.written[id], id, b.origin[id]);
    SameAddress(b.cfg.crypto, b.store, loc, b.written[id]);
  }

  /** An object of the initial store under no written blob's path is still what it was. */
  lemma ObjectKept(b: B.Backup, id: bytes)
    requires b.Valid() && |id| == BLOB_ID_LENGTH && id !in b.origin
    ensures var path := PathForBlob(b.cfg.computer, id);
            path in b.initial ==> path in b.store && b.store[path] == b.initial[path]
  {
    hide B.LinksDescribe, B.Accounted, PathForBlob, Fetch;
    var path := PathForBlob(b.cfg.computer, id);
    if path in b.initial && B.IsBlobPath(b.written, path) {
      var k :| k in b.written && b.written[k].relativePath == path;
      assert b.cfg.Resolves(b.store, b.written[k], k, b.origin[k]);
      PathsDiffer(b.cfg.computer, id, k);
    }
  }

  lemma LaterRunKeepsBlob(b1: B.Backup, b2: B.Backup, loc: BlobLoc)
    requires b1.Valid() && b1.Sound() && b2.Valid() && b2.Sound()
    requires b2.initial == b1.store && b2.cfg.crypto == b1.cfg.crypto && b2.cfg.computer == b1.cfg.computer
    requires NoClash(b1.cfg.crypto, b1.seen, b2.seen)
    requires WellAddressed(b1.cfg.computer, loc) && loc.blobIdentifier in b1.origin
    ensures Fetch(b2.cfg.crypto, b2.store, loc) == Ok(b1.origin[loc.blobIdentifier])
  {
    hide B.Backup.Valid, B.Backup.Sound, NoClash, Fetch, PathForBlob;
    var id := loc.blobIdentifier;
    BlobFetched(b1, loc);
    if id in b2.origin {
      BlobFetched(b2, loc);
      Unclash(b1.cfg.crypto, b1.seen, b2.seen, b1.origin[id], b2.origin[id]);
    } else {
      ObjectKept(b2, id);
      SameObject(b1.cfg.crypto, b1.store, b2.store, loc);
    }
  }

  lemma Unclash(c: Crypto, a: set<bytes>, b: set<bytes>, p: bytes, q: bytes)
    requires NoClash(c, a, b) && p in a && q in b && c.blobId(p) == c.blobId(q)
    ensures p == q
  {}

  lemma SameObject(c: Crypto, store: Store, store': Store, loc: BlobLoc)
    requires loc.relativePath in store && loc.relativePath in store'
    requires store'[loc.relativePath] == store[loc.relativePath]
    ensures Fetch(c, store', loc) == Fetch(c, store, loc)
  {}

  /**
   Two backups, one after the other, into one destination: the store left at the end can restore both, as long as no
   two plaintexts of the two runs collided.
  */
  method BackUpTwice(cfg1: B.Config, cfg2: B.Config, store: Store, e1: Entry, e2: Entry)
    returns (b1: B.Backup, r1: Result<B.Walked>, b2: B.Backup, r2: Result<B.Walked>)
    requires cfg1.Valid() && cfg2.Valid() && cfg1.crypto == cfg2.crypto && cfg1.computer == cfg2.computer
    requires ValidEntry(e1) && e1.Dir? && ValidEntry(e2) && e2.Dir?
    ensures r1.Ok? ==> r1.value.node.TreeNode?
    ensures r2.Ok? ==> r2.value.node.TreeNode?
    ensures r1.Ok? && r2.Ok? && b1.Sound() && b2.Sound() && NoClash(cfg1.crypto, b1.seen, b2.seen)
        ==> && Restorable(cfg1.crypto, b2.store, RecallId(b1.origin), r1.value.node.treeBlobLoc, e1)
            && Restorable(cfg2.crypto, b2.store, RecallId(b2.origin), r2.value.node.treeBlobLoc, e2)
  {
    hide B.Backup.Valid, B.Backup.Sound, Records, Record, Restorable, Count, ValidEntry, cfg1.Valid, cfg2.Valid,
         RecallId, Holds, NoClash, B.DirMeta;
    b1, r1 := BackUp(cfg1, store, e1);
    b2, r2 := BackUp(cfg2, b1.store, e2);
    if r1.Ok? && r2.Ok? && b1.Sound() && b2.Sound() && NoClash(cfg1.crypto, b1.seen, b2.seen) {
      RecordIntactDir(e1);
      LaterRunKeepsSnapshot(b1, b2, r1.value.node, Record(e1, map[]).0.value);
      DescribedRestorable(cfg1.crypto, b2.store, RecallId(b1.origin), r1.value.node, e1);
    }
  }

  lemma RecordIntactDir(e: Entry)
    requires e.Dir?
    ensures Record(e, map[]).0.Some? && Intact(Record(e, map[]).0.value)
  {
    RecordIntact(e, map[]);
  }

  lemma DescribedRestorable(c: Crypto, store: Store, byId: bytes -> Result<bytes>, n: Node, e: Entry)
    requires e.Dir? && n.TreeNode? && Record(e, map[]).0.Some?
    requires Describes(R.FetcherOf(c, store), byId, n, Record(e, map[]).0.value)
    ensures Restorable(c, store, byId, n.treeBlobLoc, e)
  {
    RecordOfDir(e);
    hide Record;
  }
}
