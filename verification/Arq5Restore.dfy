/** Arq5Restore's object lookup: loose objects first, then a SHA-1 table filled from the pack indexes. */
module Arq5Restore {
  import opened Wrappers
  import opened Bytes
  import opened Ordering
  import opened Arq5Pack
  import opened Arq5PackFile

  /** An .index file of a packset: the .pack beside it, and its bytes unless reading raises. */
  datatype IndexFile = IndexFile(pack: string, body: Option<bytes>)

  datatype Location = Location(pack: string, offset: nat, length: nat)

  /** What the destination holds: loose objects, each computer's packsets, and the packs. */
  datatype World = World(loose: map<(string, bytes), bytes>, packsets: map<string, seq<seq<IndexFile>>>,
      packs: map<string, bytes>)

  type Table = map<bytes, Location>

  function AddEntries(t: Table, pack: string, es: seq<IndexEntry>): Table {
    if es == [] then t
    else
      var (rest, e) := (es[..|es| - 1], es[|es| - 1]);
      AddEntries(t, pack, rest)[e.sha := Location(pack, e.offset, e.length)]
  }

  /** The entries of an index file; none if it cannot be read or does not parse. */
  function EntriesOf(h: Hash, f: IndexFile): seq<IndexEntry> {
    if f.body.Some? && IndexOf(h, f.body.value).Ok? then IndexOf(h, f.body.value).value else []
  }

  function AddFiles(h: Hash, t: Table, fs: seq<IndexFile>): Table {
    if fs == [] then t else AddEntries(AddFiles(h, t, fs[..|fs| - 1]), fs[|fs| - 1].pack, EntriesOf(h, fs[|fs| - 1]))
  }

  function AddPacksets(h: Hash, t: Table, ps: seq<seq<IndexFile>>): Table {
    if ps == [] then t else AddFiles(h, AddPacksets(h, t, ps[..|ps| - 1]), ps[|ps| - 1])
  }

  function PacksetsOf(w: World, computer: string): seq<seq<IndexFile>> {
    if computer in w.packsets then w.packsets[computer] else []
  }

  /** The table a scan of one computer's packsets fills. */
  function TableFor(w: World, h: Hash, computer: string): Table {
    AddPacksets(h, map[], PacksetsOf(w, computer))
  }

  /** What fetching answers for an object of `computer` when the table was filled for `scanned`. */
  function Answer(w: World, h: Hash, scanned: string, computer: string, sha: bytes): Result<bytes> {
    if (computer, sha) in w.loose then Ok(w.loose[(computer, sha)])
    else
      var t := TableFor(w, h, scanned);
      if sha !in t || t[sha].pack !in w.packs then Err
      else Ok(SliceAt(w.packs[t[sha].pack], t[sha].offset, t[sha].length))
  }

  class Restore {
    const w: World
    const h: Hash
    var packed: Table
    var packsScanned: bool
    ghost var scannedFor: string

    /** Once scanned, the table is that of the computer it was scanned for. */
    ghost predicate Valid()
      reads this
    {
      packed == if packsScanned then TableFor(w, h, scannedFor) else map[]
    }

    constructor (w: World, h: Hash)
      ensures this.w == w && this.h == h && Valid() && !packsScanned
    {
      this.w, this.h, packed, packsScanned := w, h, map[], false;
    }

    /** _scan_packs */
    method ScanPacks(computer: string)
      requires Valid() && !packsScanned
      modifies this
      ensures Valid() && packsScanned && scannedFor == computer
    {
      hide IndexOf;
      packsScanned, scannedFor := true, computer;
      var packsets := PacksetsOf(w, computer);
      for i := 0 to |packsets|
        invariant packed == AddPacksets(h, map[], packsets[..i]) && packsScanned && scannedFor == computer
      {
        assert packsets[..i + 1][..i] == packsets[..i];
        ScanFiles(packsets[i]);
      }
      assert packsets[..|packsets|] == packsets;
    }

    method ScanFiles(files: seq<IndexFile>)
      modifies `packed
      ensures packed == AddFiles(h, old(packed), files)
    {
      hide IndexOf;
      for i := 0 to |files|
        invariant packed == AddFiles(h, old(packed), files[..i])
      {
        assert files[..i + 1][..i] == files[..i];
        if files[i].body.Some? {
          var parsed := ParsePackIndex(h, files[i].body.value);
          if parsed.Ok? {
            Fill(files[i].pack, parsed.value);
          }
        }
      }
      assert files[..|files|] == files;
    }

    method Fill(pack: string, es: seq<IndexEntry>)
      modifies `packed
      ensures packed == AddEntries(old(packed), pack, es)
    {
      for i := 0 to |es|
        invariant packed == AddEntries(old(packed), pack, es[..i])
      {
        assert es[..i + 1][..i] == es[..i];
        packed := packed[es[i].sha := Location(pack, es[i].offset, es[i].length)];
      }
      assert es[..|es|] == es;
    }

    /** _find_in_packsets */
    method FindInPacksets(computer: string, sha: bytes) returns (r: Option<Location>)
      requires Valid()
      modifies this
      ensures Valid() && packsScanned && scannedFor == if old(packsScanned) then old(scannedFor) else computer
      ensures r == if sha in packed then Some(packed[sha]) else None
    {
      if !packsScanned {
        ScanPacks(computer);
      }
      r := if sha in packed then Some(packed[sha]) else None;
    }

    /** fetch_object_bytes */
    method FetchObject(computer: string, sha: bytes) returns (r: Result<bytes>)
      requires Valid()
      modifies this
      ensures Valid() && r == Answer(w, h, if old(packsScanned) then old(scannedFor) else computer, computer, sha)
      ensures (computer, sha) in w.loose ==> r == Ok(w.loose[(computer, sha)]) && packsScanned == old(packsScanned)
    {
      hide TableFor, SliceAt;
      if (computer, sha) in w.loose {
        return Ok(w.loose[(computer, sha)]);
      }
      var located := FindInPacksets(computer, sha);
      if located.None? || located.value.pack !in w.packs {
        return Err;
      }
      return Ok(SliceAt(w.packs[located.value.pack], located.value.offset, located.value.length));
    }
  }

  /* ---- What the table holds ---- */

  ghost predicate ListedIn(h: Hash, ps: seq<seq<IndexFile>>, sha: bytes) {
    exists i, k, e :: 0 <= i < |ps| && 0 <= k < |ps[i]| && e in EntriesOf(h, ps[i][k]) && e.sha == sha
  }

  /** Every location in the table is that of a listed entry, and every listed entry's SHA-1 has one. */
  ghost predicate Comes(t: Table, pack: string, es: seq<IndexEntry>, sha: bytes)
    requires sha in t
  {
    exists e :: e in es && e.sha == sha && t[sha] == Location(pack, e.offset, e.length)
  }

  lemma {:induction false} EntriesAdded(t: Table, pack: string, es: seq<IndexEntry>, sha: bytes)
    ensures var u := AddEntries(t, pack, es);
            && (sha in u <==> sha in t || exists e :: e in es && e.sha == sha)
            && (sha in u ==> Comes(u, pack, es, sha) || (sha in t && u[sha] == t[sha]))
    decreases |es|
  {
    if es != [] {
      var (rest, e) := (es[..|es| - 1], es[|es| - 1]);
      assert es == rest + [e];
      EntriesAdded(t, pack, rest, sha);
    }
  }

  /** A table whose every location, followed, gives the content its SHA-1 names. */
  ghost predicate Faithful(w: World, t: Table, content: map<bytes, bytes>) {
    forall sha :: sha in t ==> LeadsTo(w, t[sha], content, sha)
  }

  ghost predicate LeadsTo(w: World, l: Location, content: map<bytes, bytes>, sha: bytes) {
    sha in content && l.pack in w.packs && SliceAt(w.packs[l.pack], l.offset, l.length) == content[sha]
  }

  /** The index entries of a pack of `ds` under the names `shas`. */
  function EntriesFor(shas: seq<bytes>, ds: seq<bytes>): (es: seq<IndexEntry>)
    requires |shas| == |ds|
    ensures |es| == |ds| && forall i :: 0 <= i < |ds| ==> es[i] == IndexEntry(shas[i], EntryStart(ds, i), |ds[i]|)
  {
    seq(|ds|, i requires 0 <= i < |ds| => IndexEntry(shas[i], EntryStart(ds, i), |ds[i]|))
  }

  /** The index file was built for the pack beside it, whose objects are what their names say. */
  ghost predicate BuiltOf(w: World, h: Hash, content: map<bytes, bytes>, f: IndexFile, shas: seq<bytes>, ds: seq<bytes>)
  {
    && |shas| == |ds| && (forall i ::
        0 <= i < |ds| ==> |shas[i]| == SHA1_BYTES && shas[i] in content && content[shas[i]] == ds[i])
    && Packable(EntriesFor(shas, ds))
    && f.pack in w.packs && w.packs[f.pack] == PackBody(ds) + h(PackBody(ds))
    && var body := IndexBody(Sort(BySha, EntriesFor(shas, ds)));
       f.body == Some(body + h(body))
  }

  ghost predicate Built(w: World, h: Hash, content: map<bytes, bytes>, f: IndexFile) {
    exists shas, ds :: BuiltOf(w, h, content, f, shas, ds)
  }

  /** Every entry of a built index leads to its object, and every object is listed. */
  lemma BuiltLeads(w: World, h: Hash, content: map<bytes, bytes>, f: IndexFile, shas: seq<bytes>, ds: seq<bytes>)
    requires Is20(h) && BuiltOf(w, h, content, f, shas, ds)
    ensures forall e :: e in EntriesOf(h, f) ==> LeadsTo(w, Location(f.pack, e.offset, e.length), content, e.sha)
    ensures forall i :: 0 <= i < |ds| ==> exists e :: e in EntriesOf(h, f) && e.sha == shas[i]
  {
    hide IndexOf, IndexBody, PackBody, Sort, SliceAt, EntryStart, BySha, Read, CountUpTo;
    var es := EntriesFor(shas, ds);
    var sorted := Sort(BySha, es);
    assert forall e :: e in es ==> |e.sha| == SHA1_BYTES;
    IndexRoundTrip(h, es);
    SameCounts(sorted, es);
    assert EntriesOf(h, f) == sorted;
    forall e | e in sorted ensures LeadsTo(w, Location(f.pack, e.offset, e.length), content, e.sha) {
      var i :| 0 <= i < |es| && es[i] == e;
      SliceReturnsData(h, ds, i);
    }
    forall i | 0 <= i < |ds| ensures exists e :: e in EntriesOf(h, f) && e.sha == shas[i] {
      assert es[i] in es;
    }
  }

  lemma {:induction false} FilesFaithful(w: World, h: Hash, content: map<bytes, bytes>, t: Table, fs: seq<IndexFile>)
    requires Is20(h) && Faithful(w, t, content) && forall f :: f in fs ==> Built(w, h, content, f)
    ensures Faithful(w, AddFiles(h, t, fs), content)
    decreases |fs|
  {
    hide EntriesOf, BuiltOf, LeadsTo;
    if fs != [] {
      var (rest, f) := (fs[..|fs| - 1], fs[|fs| - 1]);
      assert f in fs && forall g :: g in rest ==> g in fs;
      FilesFaithful(w, h, content, t, rest);
      var shas, ds :| BuiltOf(w, h, content, f, shas, ds);
      BuiltLeads(w, h, content, f, shas, ds);
      var u := AddFiles(h, t, rest);
      forall sha | sha in AddEntries(u, f.pack, EntriesOf(h, f))
        ensures LeadsTo(w, AddEntries(u, f.pack, EntriesOf(h, f))[sha], content, sha)
      {
        EntriesAdded(u, f.pack, EntriesOf(h, f), sha);
      }
    }
  }

  ghost predicate AllBuilt(w: World, h: Hash, content: map<bytes, bytes>, ps: seq<seq<IndexFile>>) {
    forall i, k :: 0 <= i < |ps| && 0 <= k < |ps[i]| ==> Built(w, h, content, ps[i][k])
  }

  lemma {:induction false} PacksetsFaithful(w: World, h: Hash, content: map<bytes, bytes>, ps: seq<seq<IndexFile>>)
    requires Is20(h) && AllBuilt(w, h, content, ps)
    ensures Faithful(w, AddPacksets(h, map[], ps), content)
    decreases |ps|
  {
    hide Built, LeadsTo, AddFiles;
    if ps != [] {
      var (rest, fs) := (ps[..|ps| - 1], ps[|ps| - 1]);
      PacksetsFaithful(w, h, content, rest);
      forall f | f in fs ensures Built(w, h, content, f) {
        var k :| 0 <= k < |fs| && fs[k] == f;
        assert ps[|ps| - 1][k] == f;
      }
      FilesFaithful(w, h, content, AddPacksets(h, map[], rest), fs);
    }
  }

  lemma {:induction false} FilesListed(h: Hash, t: Table, fs: seq<IndexFile>, sha: bytes)
    ensures sha in AddFiles(h, t, fs) <==>
        sha in t || exists k, e :: 0 <= k < |fs| && e in EntriesOf(h, fs[k]) && e.sha == sha
    decreases |fs|
  {
    hide EntriesOf, AddEntries;
    if fs != [] {
      var (rest, f) := (fs[..|fs| - 1], fs[|fs| - 1]);
      FilesListed(h, t, rest, sha);
      EntriesAdded(AddFiles(h, t, rest), f.pack, EntriesOf(h, f), sha);
    }
  }

  lemma {:induction false} TableLists(h: Hash, ps: seq<seq<IndexFile>>, sha: bytes)
    ensures sha in AddPacksets(h, map[], ps) <==> ListedIn(h, ps, sha)
    decreases |ps|
  {
    hide EntriesOf, AddFiles;
    if ps != [] {
      var (rest, fs) := (ps[..|ps| - 1], ps[|ps| - 1]);
      TableLists(h, rest, sha);
      FilesListed(h, AddPacksets(h, map[], rest), fs, sha);
    }
  }

  /**
   The answer for an object of a computer whose packs and indexes were built together: its content, whenever some
   index lists it, provided the table was filled for that computer.
  */
  lemma PackedObjectsAreFound(w: World, h: Hash, content: map<bytes, bytes>, computer: string, sha: bytes)
    requires Is20(h) && AllBuilt(w, h, content, PacksetsOf(w, computer)) && (computer, sha) !in w.loose
    ensures Answer(w, h, computer, computer, sha)
         == if ListedIn(h, PacksetsOf(w, computer), sha) && sha in content then Ok(content[sha]) else Err
  {
    hide AddPacksets, SliceAt, ListedIn, AllBuilt;
    PacksetsFaithful(w, h, content, PacksetsOf(w, computer));
    TableLists(h, PacksetsOf(w, computer), sha);
  }

  /**
   The table is filled once, for the first computer asked about, whose packs and indexes were built together. After that
   a packed object, of whatever computer, is found if and only if the first computer's indexes list it, and what is
   found is the object.
  */
  lemma OtherComputersAreMissed(w: World, h: Hash, content: map<bytes, bytes>, first: string, computer: string,
      sha: bytes)
    requires Is20(h) && AllBuilt(w, h, content, PacksetsOf(w, first)) && (computer, sha) !in w.loose
    ensures Answer(w, h, first, computer, sha).Ok? <==> ListedIn(h, PacksetsOf(w, first), sha)
    ensures Answer(w, h, first, computer, sha).Ok?
        ==> sha in content && Answer(w, h, first, computer, sha) == Ok(content[sha])
  {
    hide AddPacksets, SliceAt, ListedIn, AllBuilt;
    PacksetsFaithful(w, h, content, PacksetsOf(w, first));
    TableLists(h, PacksetsOf(w, first), sha);
  }

  /** Two computers, the second with one packed object: found when it is the first asked about, missed otherwise. */
  lemma SecondComputerIsMissed(h: Hash, sha: bytes) returns (w: World)
    requires Is20(h) && |sha| == SHA1_BYTES
    ensures "B" in w.packsets && AllBuilt(w, h, map[sha := [7]], PacksetsOf(w, "A"))
        && AllBuilt(w, h, map[sha := [7]], PacksetsOf(w, "B"))
    ensures Answer(w, h, "B", "B", sha) == Ok([7])
    ensures Answer(w, h, "A", "B", sha) == Err
  {
    hide IndexBody, PackBody, Sort, IndexOf, SliceAt;
    var ds: seq<bytes>, shas := [[7]], [sha];
    var body := IndexBody(Sort(BySha, EntriesFor(shas, ds)));
    var f := IndexFile("p", Some(body + h(body)));
    w := World(map[], map["B" := [[f]]], map["p" := PackBody(ds) + h(PackBody(ds))]);
    var content := map[sha := ds[0]];
    assert BuiltOf(w, h, content, f, shas, ds);
    assert Built(w, h, content, f);
    BuiltLeads(w, h, content, f, shas, ds);
    var ps := PacksetsOf(w, "B");
    assert ps[0][0] == f && ListedIn(h, ps, sha);
    PackedObjectsAreFound(w, h, content, "B", sha);
    OtherComputersAreMissed(w, h, content, "A", "B", sha);
  }
}
