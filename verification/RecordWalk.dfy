/** validate_record: an explicit-stack walk that checks every blob a backup record refers to. */
module RecordWalk {
  import opened Wrappers
  import opened Bytes
  import opened Arqo
  import opened TreeFormat
  import opened BlobGraph

  /** A failure's kind: "missing", "hmac" or "decode". */
  datatype Kind = Missing | Hmac | Decode
  datatype Failure = Failure(loc: BlobLoc, kind: Kind)

  datatype Store = Store(w: World, mac: Mac)

  /** The blob is there and authentic: what _verify_blob asks for. */
  predicate Good(s: Store, l: BlobLoc) {
    l in s.w.objects && VerifyObject(s.mac, s.w.objects[l])
  }

  function Fault(s: Store, l: BlobLoc): Kind {
    if l !in s.w.objects then Missing
    else if |s.w.objects[l]| < HEADER_BYTES || !(ARQO_MAGIC <= s.w.objects[l]) then Decode
    else Hmac
  }

  /** The failure names a real fault of its blob. */
  predicate Justified(s: Store, f: Failure) {
    if f.loc !in s.w.objects then f.kind == Missing
    else
      var raw := s.w.objects[f.loc];
      var headed := |raw| >= HEADER_BYTES && ARQO_MAGIC <= raw;
      match f.kind
      case Missing => false
      case Hmac => headed && raw[4..36] != s.mac(raw[36..])
      case Decode => !headed || s.w.decode(raw).None?
  }

  ghost predicate Failed(failures: seq<Failure>, l: BlobLoc) {
    exists f :: f in failures && f.loc == l
  }

  predicate InLedger(ledger: Option<set<bytes>>, i: bytes) {
    ledger.Some? && i != [] && i in ledger.value
  }

  /** Every blob checked is good, reported, or trusted to the ledger; every report is justified. */
  ghost predicate Honest(s: Store, checked: seq<BlobLoc>, failures: seq<Failure>, ledger: Option<set<bytes>>) {
    && (forall l :: l in checked ==> Good(s, l) || Failed(failures, l) || InLedger(ledger, l.blobIdentifier))
    && (forall f :: f in failures ==> f.loc in checked && Justified(s, f))
  }

  /** The ledger gains the ids of the good blobs that were checked, and nothing else. */
  ghost predicate LedgerEarned(s: Store, checked: seq<BlobLoc>, before: Option<set<bytes>>, after: Option<set<bytes>>) {
    && (before.Some? <==> after.Some?)
    && (before.Some? ==>
          && before.value <= after.value
          && (forall i :: i in after.value - before.value ==>
                exists l :: l in checked && Good(s, l) && l.blobIdentifier == i)
          && forall l :: l in checked && Good(s, l) && l.blobIdentifier != [] ==> l.blobIdentifier in after.value)
  }

  function LedgerAfter(s: Store, ledger: Option<set<bytes>>, l: BlobLoc): Option<set<bytes>> {
    if !InLedger(ledger, l.blobIdentifier) && ledger.Some? && l.blobIdentifier != [] && Good(s, l)
    then Some(ledger.value + {l.blobIdentifier}) else ledger
  }

  function FailuresAfter(s: Store, failures: seq<Failure>, ledger: Option<set<bytes>>, l: BlobLoc): seq<Failure> {
    if Good(s, l) || InLedger(ledger, l.blobIdentifier) then failures else failures + [Failure(l, Fault(s, l))]
  }

  lemma CheckKeepsHonest(s: Store, checked: seq<BlobLoc>, failures: seq<Failure>, ledger: Option<set<bytes>>,
      l: BlobLoc)
    requires Honest(s, checked, failures, ledger)
    ensures Honest(s, checked + [l], FailuresAfter(s, failures, ledger, l), LedgerAfter(s, ledger, l))
  {
    hide VerifyObject, Failed, Justified, Fault;
    FaultJustified(s, l);
    var failures' := FailuresAfter(s, failures, ledger, l);
    FailedKept(failures, failures');
    if !Good(s, l) && !InLedger(ledger, l.blobIdentifier) {
      NowFailed(failures, Failure(l, Fault(s, l)));
    }
  }

  lemma FaultJustified(s: Store, l: BlobLoc)
    ensures !Good(s, l) ==> Justified(s, Failure(l, Fault(s, l)))
  {}

  lemma NowFailed(failures: seq<Failure>, f: Failure)
    ensures Failed(failures + [f], f.loc)
  {
    assert f in failures + [f];
  }

  lemma CheckKeepsEarned(s: Store, checked: seq<BlobLoc>, before: Option<set<bytes>>, ledger: Option<set<bytes>>,
      l: BlobLoc)
    requires LedgerEarned(s, checked, before, ledger)
    ensures LedgerEarned(s, checked + [l], before, LedgerAfter(s, ledger, l))
  {
    hide Good;
    var after := LedgerAfter(s, ledger, l);
    if before.Some? {
      forall i | i in after.value - before.value
        ensures exists m :: m in checked + [l] && Good(s, m) && m.blobIdentifier == i
      {
        if i in ledger.value {
          assert i in ledger.value - before.value;
          var m :| m in checked && Good(s, m) && m.blobIdentifier == i;
          assert m in checked + [l];
        } else {
          assert l in checked + [l];
        }
      }
    }
  }

  lemma FailedKept(a: seq<Failure>, b: seq<Failure>)
    requires a <= b
    ensures forall l :: Failed(a, l) ==> Failed(b, l)
  {
    forall l | Failed(a, l) ensures Failed(b, l) {
      var f :| f in a && f.loc == l;
      assert f in b;
    }
  }

  /* ---- What checking a node does to the report ---- */

  function TreeId(n: WalkNode): bytes
    requires IsTree(n)
  {
    n.treeLoc.value.blobIdentifier
  }

  /** The locs checked for a node, in order: its tree or data, then its xattrs, then its ACL. */
  function BlobsOf(n: WalkNode): seq<BlobLoc> { ContentLocs(n) + (n.xattrLocs + AclLocs(n)) }

  function ContentLocs(n: WalkNode): seq<BlobLoc> {
    if IsTree(n) then [n.treeLoc.value] else if n.isTree then [] else n.dataLocs
  }

  datatype Verdict = Verdict(failures: seq<Failure>, ledger: Option<set<bytes>>)

  predicate Passes(s: Store, v: Verdict, l: BlobLoc) {
    Good(s, l) || InLedger(v.ledger, l.blobIdentifier)
  }

  function AfterLoc(s: Store, v: Verdict, l: BlobLoc): Verdict {
    Verdict(FailuresAfter(s, v.failures, v.ledger, l), LedgerAfter(s, v.ledger, l))
  }

  function AfterLocs(s: Store, v: Verdict, locs: seq<BlobLoc>): Verdict {
    if locs == [] then v else AfterLoc(s, AfterLocs(s, v, locs[..|locs| - 1]), locs[|locs| - 1])
  }

  /** A tree blob that passes, and is there, must also open. */
  function AfterTree(s: Store, v: Verdict, l: BlobLoc): Verdict {
    var u := AfterLoc(s, v, l);
    if Passes(s, v, l) && l in s.w.objects && !Opens(s.w, l) then u.(failures := u.failures + [Failure(l, Decode)])
        else u
  }

  function AfterContent(s: Store, v: Verdict, n: WalkNode): Verdict {
    if IsTree(n) then AfterTree(s, v, n.treeLoc.value) else AfterLocs(s, v, ContentLocs(n))
  }

  function AfterNode(s: Store, v: Verdict, n: WalkNode): Verdict {
    AfterLocs(s, AfterContent(s, v, n), n.xattrLocs + AclLocs(n))
  }

  function AfterNodes(s: Store, v: Verdict, visited: seq<WalkNode>): Verdict {
    if visited == [] then v else AfterNode(s, AfterNodes(s, v, visited[..|visited| - 1]), visited[|visited| - 1])
  }

  /** The locs checked for all of these nodes. */
  function Locs(visited: seq<WalkNode>): seq<BlobLoc> {
    if visited == [] then [] else Locs(visited[..|visited| - 1]) + BlobsOf(visited[|visited| - 1])
  }

  lemma {:induction false} InLocs(visited: seq<WalkNode>, l: BlobLoc)
    ensures l in Locs(visited) <==> exists n :: n in visited && l in BlobsOf(n)
    decreases |visited|
  {
    hide BlobsOf;
    if visited != [] {
      var (rest, last) := (visited[..|visited| - 1], visited[|visited| - 1]);
      assert visited == rest + [last];
      InLocs(rest, l);
    }
  }

  /** The node's tree blob passes and opens. */
  predicate Opened(s: Store, v: Verdict, n: WalkNode) {
    IsTree(n) && Passes(s, v, n.treeLoc.value) && Opens(s.w, n.treeLoc.value)
  }

  /** The children a node's visit puts on the stack. */
  function Pushed(s: Store, v: Verdict, n: WalkNode): seq<WalkNode> {
    if IsTree(n) && Passes(s, v, n.treeLoc.value) then Children(s.w, n.treeLoc.value) else []
  }

  predicate Repeated(n: WalkNode, seen: set<bytes>) { IsTree(n) && TreeId(n) in seen }

  function Seen(seen: set<bytes>, n: WalkNode): set<bytes> { if IsTree(n) then seen + {TreeId(n)} else seen }

  /**
   `visited` lists, in order, the nodes that a walk from this stack visits; a tree whose id was seen is passed over.
  */
  ghost predicate Runs(s: Store, stack: seq<WalkNode>, seen: set<bytes>, v: Verdict, visited: seq<WalkNode>)
    decreases |visited|, |stack|
  {
    if stack == [] then visited == []
    else
      var (n, rest) := (stack[|stack| - 1], stack[..|stack| - 1]);
      if Repeated(n, seen) then Runs(s, rest, seen, v, visited)
      else
        && visited != [] && visited[0] == n
        && Runs(s, rest + Pushed(s, v, n), Seen(seen, n), AfterNode(s, v, n), visited[1..])
  }

  /** A visit checks nothing but locs of this list. */
  ghost predicate OnlyOf(before: seq<BlobLoc>, after: seq<BlobLoc>, locs: seq<BlobLoc>) {
    before <= after && forall l :: l in after[|before|..] ==> l in locs
  }

  /** No tree id is visited twice. */
  ghost predicate Once(visited: seq<WalkNode>) {
    forall i, j :: 0 <= i < j < |visited| && IsTree(visited[i]) && IsTree(visited[j])
        ==> TreeId(visited[i]) != TreeId(visited[j])
  }

  /* ---- What the walk has covered ---- */

  /** The node each seen tree id was walked through. */
  type Expanded = map<bytes, WalkNode>

  ghost predicate AllIn(locs: seq<BlobLoc>, checked: seq<BlobLoc>) {
    forall l :: l in locs ==> l in checked
  }

  /** A tree's id has been walked; any other node's blobs have been checked. */
  ghost predicate Covered(expanded: Expanded, checked: seq<BlobLoc>, n: WalkNode) {
    if IsTree(n) then TreeId(n) in expanded else AllIn(LeafLocs(n), checked)
  }

  /** An expanded tree: its own blobs are checked, and its children covered or still to come; or it is reported. */
  ghost predicate Walked1(s: Store, stack: seq<WalkNode>, expanded: Expanded, checked: seq<BlobLoc>,
      failures: seq<Failure>, i: bytes)
    requires i in expanded
  {
    var n := expanded[i];
    && IsTree(n) && TreeId(n) == i && n.treeLoc.value in checked && AllIn(LeafLocs(n), checked)
    && (Good(s, n.treeLoc.value) ==>
          if Opens(s.w, n.treeLoc.value)
          then forall c :: c in Children(s.w, n.treeLoc.value) ==> Covered(expanded, checked, c) || c in stack
          else Failed(failures, n.treeLoc.value))
  }

  ghost predicate Closed(s: Store, root: WalkNode, stack: seq<WalkNode>, expanded: Expanded, checked: seq<BlobLoc>,
      failures: seq<Failure>)
  {
    && (Covered(expanded, checked, root) || root in stack)
    && forall i :: i in expanded ==> Walked1(s, stack, expanded, checked, failures, i)
  }

  /** The nodes on the stack and those walked are reachable. */
  ghost predicate OnlyReachable(s: Store, root: WalkNode, stack: seq<WalkNode>, expanded: Expanded) {
    && (forall n :: n in stack ==> Reachable(s.w, root, n))
    && forall i :: i in expanded ==> Reachable(s.w, root, expanded[i])
  }

  /** Tree ids are not empty: the walk remembers only non-empty ids, and need not end without this. */
  ghost predicate TreesNamed(w: World, root: WalkNode) {
    && (IsTree(root) ==> TreeId(root) != [])
    && forall l, n :: l in w.objects && n in Children(w, l) && IsTree(n) ==> TreeId(n) != []
  }

  /** RecordValidationReport, with what validate_record is given. */
  class Walker {
    const s: Store
    const maxBlobs: nat
    ghost const ledger0: Option<set<bytes>>
    var ok: bool
    var walked: nat
    var fetched: nat
    var trees: nat
    var files: nat
    var skipped: nat
    var truncatedAfter: nat
    var failures: seq<Failure>
    var ledger: Option<set<bytes>>
    ghost var checked: seq<BlobLoc>
    /** The nodes visited, tree ids seen before left out. */
    ghost var visited: seq<WalkNode>

    function Now(): Verdict
      reads `failures, `ledger
    {
      Verdict(failures, ledger)
    }

    ghost predicate Valid()
      reads `walked, `failures, `ledger, `checked
    {
      walked == |checked| && Honest(s, checked, failures, ledger) && LedgerEarned(s, checked, ledger0, ledger)
    }

    constructor (s: Store, maxBlobs: nat, ledger: Option<set<bytes>>)
      ensures this.s == s && this.maxBlobs == maxBlobs && ledger0 == ledger && this.ledger == ledger
      ensures Valid() && ok && checked == [] && visited == [] && failures == [] && truncatedAfter == 0
    {
      this.s, this.maxBlobs, this.ledger0, this.ledger := s, maxBlobs, ledger, ledger;
      ok, walked, fetched, trees, files, skipped, truncatedAfter := true, 0, 0, 0, 0, 0, 0;
      failures, checked, visited := [], [], [];
    }

    /** _check_one_loc */
    method CheckLoc(l: BlobLoc) returns (pass: bool)
      requires Valid()
      modifies `walked, `fetched, `skipped, `failures, `ledger, `checked
      ensures Valid() && checked == old(checked) + [l] && walked == old(walked) + 1
      ensures pass <==> Good(s, l) || InLedger(old(ledger), l.blobIdentifier)
      ensures failures == FailuresAfter(s, old(failures), old(ledger), l) && ledger == LedgerAfter(s, old(ledger), l)
      ensures var known := InLedger(old(ledger), l.blobIdentifier);
              && skipped == old(skipped) + (if known then 1 else 0)
              && fetched == old(fetched) + if !known && l in s.w.objects then |s.w.objects[l]| else 0
    {
      hide Honest, LedgerEarned, VerifyObject;
      CheckKeepsHonest(s, checked, failures, ledger, l);
      CheckKeepsEarned(s, checked, ledger0, ledger, l);
      checked := checked + [l];
      walked := walked + 1;
      if ledger.Some? && l.blobIdentifier != [] && l.blobIdentifier in ledger.value {
        skipped := skipped + 1;
        return true;
      }
      if l !in s.w.objects {
        failures := failures + [Failure(l, Missing)];
        return false;
      }
      var raw := s.w.objects[l];
      fetched := fetched + |raw|;
      if VerifyObject(s.mac, raw) {
        if ledger.Some? && l.blobIdentifier != [] {
          ledger := Some(ledger.value + {l.blobIdentifier});
        }
        return true;
      }
      failures := failures + [Failure(l, if |raw| < HEADER_BYTES || !(ARQO_MAGIC <= raw) then Decode else Hmac)];
      return false;
    }

    /** The data and xattr loops: every loc in turn, up to the cap; `done` of them are checked. */
    method CheckEach(locs: seq<BlobLoc>) returns (ghost done: nat)
      requires Valid()
      modifies `walked, `fetched, `skipped, `failures, `ledger, `checked
      ensures Valid() && done <= |locs| && checked == old(checked) + locs[..done] && old(failures) <= failures
      ensures Now() == AfterLocs(s, old(Now()), locs[..done])
      ensures done < |locs| ==> 0 < maxBlobs <= walked
      ensures maxBlobs > 0 && old(walked) <= maxBlobs ==> walked <= maxBlobs
    {
      hide Honest, LedgerEarned, Good, Fault;
      var k := 0;
      while k < |locs|
        invariant 0 <= k <= |locs| && Valid() && checked == old(checked) + locs[..k] && old(failures) <= failures
        invariant Now() == AfterLocs(s, old(Now()), locs[..k])
        invariant maxBlobs > 0 && old(walked) <= maxBlobs ==> walked <= maxBlobs
      {
        if maxBlobs > 0 && walked >= maxBlobs {
          return k;
        }
        assert locs[..k + 1][..k] == locs[..k];
        var _ := CheckLoc(locs[k]);
        k := k + 1;
      }
      return k;
    }

    /** A tree's children, when its blob passes and decodes; a blob that passes but does not decode is reported. */
    method OpenTree(l: BlobLoc) returns (children: seq<WalkNode>)
      requires Valid() && l in checked
      modifies `ok, `trees, `failures
      ensures Valid() && children == Children(s.w, l)
      ensures failures == old(failures) + if l in s.w.objects && !Opens(s.w, l) then [Failure(l, Decode)] else []
      ensures trees == old(trees) + if Opens(s.w, l) then 1 else 0
    {
      hide VerifyObject, LedgerEarned;
      children := [];
      if l in s.w.objects {
        var tree := s.w.decode(s.w.objects[l]);
        if tree.Some? {
          trees := trees + 1;
          children := Walked(tree.value.children);
        } else {
          FailedKept(failures, failures + [Failure(l, Decode)]);
          failures := failures + [Failure(l, Decode)];
          ok := false;
        }
      }
    }

    /** The xattr blobs, up to the cap, and the ACL blob, whatever the cap. */
    method CheckRest(n: WalkNode)
      requires Valid()
      modifies `walked, `fetched, `skipped, `failures, `ledger, `checked
      ensures Valid() && OnlyOf(old(checked), checked, n.xattrLocs + AclLocs(n)) && old(failures) <= failures
      ensures maxBlobs == 0 ==> checked == old(checked) + (n.xattrLocs + AclLocs(n))
      ensures maxBlobs == 0 ==> Now() == AfterLocs(s, old(Now()), n.xattrLocs + AclLocs(n))
      ensures maxBlobs > 0 && old(walked) <= maxBlobs ==> walked <= maxBlobs + 1
    {
      hide Honest, LedgerEarned, Good, Fault;
      ghost var done := CheckEach(n.xattrLocs);
      assert n.xattrLocs[..|n.xattrLocs|] == n.xattrLocs;
      if n.aclLoc.Some? {
        var _ := CheckLoc(n.aclLoc.value);
        assert (n.xattrLocs + [n.aclLoc.value])[..|n.xattrLocs|] == n.xattrLocs;
      } else {
        assert n.xattrLocs + [] == n.xattrLocs;
      }
    }

    /** The body of the walk's loop, for the node popped. */
    method Visit(n: WalkNode, seen: set<bytes>) returns (pushed: seq<WalkNode>, seen': set<bytes>)
      requires Valid() && (IsTree(n) ==> TreeId(n) != []) && (maxBlobs > 0 ==> walked < maxBlobs)
      modifies `ok, `walked, `fetched, `trees, `files, `skipped, `failures, `ledger, `checked, `visited
      ensures Valid() && seen' == Seen(seen, n)
      ensures maxBlobs > 0 ==> walked <= maxBlobs + 1
      ensures Repeated(n, seen) ==> unchanged(this) && pushed == []
      ensures !Repeated(n, seen) ==> visited == old(visited) + [n] && OnlyOf(old(checked), checked, BlobsOf(n))
      ensures !Repeated(n, seen) ==> old(failures) <= failures && pushed == Pushed(s, old(Now()), n)
      ensures !Repeated(n, seen) && maxBlobs == 0
          ==> checked == old(checked) + BlobsOf(n) && Now() == AfterNode(s, old(Now()), n)
      ensures !Repeated(n, seen) ==>
                && files == old(files) + (if n.isTree then 0 else 1)
                && trees == old(trees) + (if Opened(s, old(Now()), n) then 1 else 0)
    {
      hide Valid, ContentLocs, AclLocs, AfterLocs, AfterContent, Good, Children, Opens;
      pushed, seen' := [], seen;
      if IsTree(n) {
        if n.treeLoc.value.blobIdentifier in seen {
          return;
        }
        seen' := seen + {n.treeLoc.value.blobIdentifier};
      }
      visited := visited + [n];
      pushed := CheckContent(n);
      ghost var sofar := checked;
      CheckRest(n);
      OnlyOfBoth(old(checked), sofar, checked, ContentLocs(n), n.xattrLocs + AclLocs(n));
    }

    /** The tree blob of a directory, whose children are returned, or the data blobs of a file. */
    method CheckContent(n: WalkNode) returns (pushed: seq<WalkNode>)
      requires Valid() && (maxBlobs > 0 ==> walked < maxBlobs)
      modifies `ok, `walked, `fetched, `trees, `files, `skipped, `failures, `ledger, `checked
      ensures Valid() && OnlyOf(old(checked), checked, ContentLocs(n)) && (maxBlobs > 0 ==> walked <= maxBlobs)
      ensures old(failures) <= failures && pushed == Pushed(s, old(Now()), n)
      ensures maxBlobs == 0 ==> checked == old(checked) + ContentLocs(n) && Now() == AfterContent(s, old(Now()), n)
      ensures files == old(files) + (if n.isTree then 0 else 1)
      ensures trees == old(trees) + (if Opened(s, old(Now()), n) then 1 else 0)
    {
      hide Honest, LedgerEarned, Good, Fault, Children, Opens;
      pushed := [];
      if n.isTree {
        if n.treeLoc.Some? {
          var l := n.treeLoc.value;
          var pass := CheckLoc(l);
          if pass {
            assert checked[|checked| - 1] == l;
            pushed := OpenTree(l);
          }
        }
      } else {
        ghost var done := CheckEach(n.dataLocs);
        assert n.dataLocs[..|n.dataLocs|] == n.dataLocs;
        files := files + 1;
      }
    }
  }

  lemma OnlyOfBoth(a: seq<BlobLoc>, b: seq<BlobLoc>, c: seq<BlobLoc>, xs: seq<BlobLoc>, ys: seq<BlobLoc>)
    requires OnlyOf(a, b, xs) && OnlyOf(b, c, ys)
    ensures OnlyOf(a, c, xs + ys)
  {
    assert c == b + c[|b|..] && b == a + b[|a|..];
    assert c[|a|..] == b[|a|..] + c[|b|..];
  }

  /** What the visit of a node leaves behind, without a cap. */
  ghost predicate Visited(s: Store, n: WalkNode, seen: set<bytes>, pushed: seq<WalkNode>, checked: seq<BlobLoc>,
      failures: seq<Failure>)
  {
    (IsTree(n) && TreeId(n) in seen) ||
    (&& AllIn(LeafLocs(n), checked)
     && (IsTree(n) ==>
           && n.treeLoc.value in checked
           && (Good(s, n.treeLoc.value) ==>
                 pushed == Children(s.w, n.treeLoc.value)
                 && (Opens(s.w, n.treeLoc.value) || Failed(failures, n.treeLoc.value)))))
  }

  lemma {:induction false} AfterLocsGrow(s: Store, v: Verdict, locs: seq<BlobLoc>)
    ensures v.failures <= AfterLocs(s, v, locs).failures
    decreases |locs|
  {
    hide Good, Fault;
    if locs != [] {
      AfterLocsGrow(s, v, locs[..|locs| - 1]);
    }
  }

  lemma VisitCovers(s: Store, n: WalkNode, seen: set<bytes>, before: seq<BlobLoc>, v: Verdict)
    requires !Repeated(n, seen)
    ensures Visited(s, n, seen, Pushed(s, v, n), before + BlobsOf(n), AfterNode(s, v, n).failures)
    ensures v.failures <= AfterNode(s, v, n).failures
  {
    hide VerifyObject, Fault, Children, Failed;
    var (failures, checked) := (AfterNode(s, v, n).failures, before + BlobsOf(n));
    forall l | l in LeafLocs(n) ensures l in checked {
      assert l in BlobsOf(n);
    }
    if IsTree(n) {
      var l := n.treeLoc.value;
      var u := AfterTree(s, v, l);
      AfterLocsGrow(s, u, n.xattrLocs + AclLocs(n));
      assert l in BlobsOf(n);
      if Good(s, l) && !Opens(s.w, l) {
        assert u.failures == v.failures + [Failure(l, Decode)];
        NowFailed(v.failures, Failure(l, Decode));
        FailedKept(u.failures, failures);
      }
    } else {
      AfterLocsGrow(s, v, n.dataLocs);
      AfterLocsGrow(s, AfterLocs(s, v, n.dataLocs), n.xattrLocs + AclLocs(n));
      AfterLocsGrow(s, v, n.xattrLocs + AclLocs(n));
    }
  }

  /* ---- The walk ---- */

  /** The loop's invariant when there is no cap. */
  ghost predicate Complete(s: Store, root: WalkNode, stack: seq<WalkNode>, expanded: Expanded, checked: seq<BlobLoc>,
      failures: seq<Failure>)
  {
    Closed(s, root, stack, expanded, checked, failures) && OnlyReachable(s, root, stack, expanded)
  }

  function Grown(expanded: Expanded, n: WalkNode): Expanded {
    if IsTree(n) && TreeId(n) !in expanded then expanded[TreeId(n) := n] else expanded
  }

  lemma CoveredKept(expanded: Expanded, n: WalkNode, checked: seq<BlobLoc>, checked': seq<BlobLoc>, c: WalkNode)
    requires checked <= checked' && Covered(expanded, checked, c)
    ensures Covered(Grown(expanded, n), checked', c)
  {
    hide LeafLocs;
  }

  /** After its visit, the popped node is covered, and so is everything that was, or that waits on the stack. */
  lemma VisitKeepsClosed(s: Store, root: WalkNode, rest: seq<WalkNode>, n: WalkNode, pushed: seq<WalkNode>,
      expanded: Expanded, checked: seq<BlobLoc>, checked': seq<BlobLoc>, failures: seq<Failure>,
      failures': seq<Failure>)
    requires Closed(s, root, rest + [n], expanded, checked, failures) && checked <= checked' && failures <= failures'
    requires Visited(s, n, expanded.Keys, pushed, checked', failures')
    ensures Closed(s, root, rest + pushed, Grown(expanded, n), checked', failures')
  {
    hide LeafLocs, Children, Covered, Good, Opens, Failed;
    var expanded' := Grown(expanded, n);
    PoppedCovered(s, n, pushed, expanded, checked', failures');
    FailedKept(failures, failures');
    forall c | Covered(expanded, checked, c) || c in rest + [n]
      ensures Covered(expanded', checked', c) || c in rest + pushed
    {
      if Covered(expanded, checked, c) {
        CoveredKept(expanded, n, checked, checked', c);
      }
    }
    forall i | i in expanded' ensures Walked1(s, rest + pushed, expanded', checked', failures', i) {
      if i in expanded {
        assert Walked1(s, rest + [n], expanded, checked, failures, i);
      }
    }
  }

  lemma PoppedCovered(s: Store, n: WalkNode, pushed: seq<WalkNode>, expanded: Expanded, checked: seq<BlobLoc>,
      failures: seq<Failure>)
    requires Visited(s, n, expanded.Keys, pushed, checked, failures)
    ensures Covered(Grown(expanded, n), checked, n)
  {
    hide LeafLocs, Children, Good, Opens;
  }

  lemma PushedReachable(s: Store, root: WalkNode, rest: seq<WalkNode>, n: WalkNode, pushed: seq<WalkNode>,
      expanded: Expanded)
    requires OnlyReachable(s, root, rest + [n], expanded)
    requires pushed == [] || (IsTree(n) && pushed == Children(s.w, n.treeLoc.value))
    ensures OnlyReachable(s, root, rest + pushed, Grown(expanded, n))
  {
    hide Children, Reachable;
    assert n in rest + [n];
    assert forall m :: m in rest ==> m in rest + [n];
    if pushed != [] {
      forall c | c in pushed ensures Reachable(s.w, root, c) {
        ChildReachable(s.w, root, n, c);
      }
    }
  }

  lemma ReachableNamed(w: World, root: WalkNode, n: WalkNode)
    requires TreesNamed(w, root) && Reachable(w, root, n) && IsTree(n)
    ensures TreeId(n) != [] && TreeId(n) in Universe(w, root)
  {
    hide Children, Universe;
    ReachedKnown(w, root, n);
    var k: nat :| Reached(w, root, k, n);
    if k > 0 {
      var p: WalkNode :| Reached(w, root, k - 1, p) && p.isTree && p.treeLoc.Some? && n in Children(w, p.treeLoc.value);
      HasChildOpens(w, p.treeLoc.value, n);
    }
  }

  lemma HasChildOpens(w: World, l: BlobLoc, n: WalkNode)
    requires n in Children(w, l)
    ensures l in w.objects
  {}

  /** The visited nodes are reachable, and no tree id is visited twice; only their locs are checked. */
  ghost predicate Faithful(s: Store, root: WalkNode, expanded: Expanded, visited: seq<WalkNode>, checked: seq<BlobLoc>)
  {
    && Once(visited) && (forall n :: n in visited ==> Reachable(s.w, root, n))
    && (forall n :: n in visited && IsTree(n) ==> TreeId(n) in expanded)
    && (forall i :: i in expanded ==> expanded[i] in visited && IsTree(expanded[i]) && TreeId(expanded[i]) == i)
    && forall l :: l in checked ==> exists n :: n in visited && l in BlobsOf(n)
  }

  /** A walk that goes on from here as the rules say has gone by the rules from the start. */
  ghost predicate Tracks(s: Store, root: WalkNode, v0: Verdict, stack: seq<WalkNode>, seen: set<bytes>, v: Verdict,
      visited: seq<WalkNode>)
  {
    && v == AfterNodes(s, v0, visited)
    && forall w :: Runs(s, stack, seen, v, w) ==> Runs(s, [root], {}, v0, visited + w)
  }

  lemma TracksAtFirst(s: Store, root: WalkNode, v0: Verdict)
    ensures Tracks(s, root, v0, [root], {}, v0, [])
  {
    hide Runs;
    forall w: seq<WalkNode> ensures [] + w == w {}
  }

  lemma TracksOn(s: Store, root: WalkNode, v0: Verdict, rest: seq<WalkNode>, n: WalkNode, seen: set<bytes>, v: Verdict,
      visited: seq<WalkNode>)
    requires Tracks(s, root, v0, rest + [n], seen, v, visited)
    ensures if Repeated(n, seen) then Tracks(s, root, v0, rest, seen, v, visited)
            else Tracks(s, root, v0, rest + Pushed(s, v, n), Seen(seen, n), AfterNode(s, v, n), visited + [n])
  {
    hide AfterNode, Pushed, Seen, Runs;
    if Repeated(n, seen) {
      forall w | Runs(s, rest, seen, v, w) ensures Runs(s, [root], {}, v0, visited + w) {
        RunSkips(s, rest, n, seen, v, w);
      }
    } else {
      assert (visited + [n])[..|visited|] == visited;
      forall w | Runs(s, rest + Pushed(s, v, n), Seen(seen, n), AfterNode(s, v, n), w)
        ensures Runs(s, [root], {}, v0, (visited + [n]) + w)
      {
        RunVisits(s, rest, n, seen, v, w);
        assert visited + ([n] + w) == (visited + [n]) + w;
      }
    }
  }

  lemma TracksToTheEnd(s: Store, root: WalkNode, v0: Verdict, seen: set<bytes>, v: Verdict, visited: seq<WalkNode>)
    requires Tracks(s, root, v0, [], seen, v, visited)
    ensures Runs(s, [root], {}, v0, visited) && v == AfterNodes(s, v0, visited)
  {
    assert Runs(s, [], seen, v, []);
    assert visited + [] == visited;
  }

  lemma FaithfulOn(s: Store, root: WalkNode, expanded: Expanded, visited: seq<WalkNode>, checked: seq<BlobLoc>,
      n: WalkNode, checked': seq<BlobLoc>)
    requires Faithful(s, root, expanded, visited, checked) && !Repeated(n, expanded.Keys) && Reachable(s.w, root, n)
    requires OnlyOf(checked, checked', BlobsOf(n))
    ensures Faithful(s, root, Grown(expanded, n), visited + [n], checked')
  {
    hide Reachable, BlobsOf;
    var more := visited + [n];
    forall l | l in checked' ensures exists m :: m in more && l in BlobsOf(m) {
      if l in checked {
        var m :| m in visited && l in BlobsOf(m);
        assert m in more;
      } else {
        assert checked' == checked + checked'[|checked|..];
        assert l in checked'[|checked|..];
        assert n in more;
      }
    }
    OnceMore(expanded, visited, n);
  }

  lemma OnceMore(expanded: Expanded, visited: seq<WalkNode>, n: WalkNode)
    requires Once(visited) && !Repeated(n, expanded.Keys)
    requires forall m :: m in visited && IsTree(m) ==> TreeId(m) in expanded
    ensures Once(visited + [n])
  {}

  lemma LocsOneMore(visited: seq<WalkNode>, n: WalkNode)
    ensures Locs(visited + [n]) == Locs(visited) + BlobsOf(n)
  {
    assert (visited + [n])[..|visited|] == visited;
  }

  lemma RunVisits(s: Store, rest: seq<WalkNode>, n: WalkNode, seen: set<bytes>, v: Verdict, visited: seq<WalkNode>)
    requires !Repeated(n, seen) && Runs(s, rest + Pushed(s, v, n), Seen(seen, n), AfterNode(s, v, n), visited)
    ensures Runs(s, rest + [n], seen, v, [n] + visited)
  {
    hide AfterNode, Pushed, Seen;
    assert (rest + [n])[..|rest|] == rest && ([n] + visited)[1..] == visited;
  }

  lemma RunSkips(s: Store, rest: seq<WalkNode>, n: WalkNode, seen: set<bytes>, v: Verdict, visited: seq<WalkNode>)
    requires Repeated(n, seen) && Runs(s, rest, seen, v, visited)
    ensures Runs(s, rest + [n], seen, v, visited)
  {
    hide AfterNode, Pushed, Seen;
    assert (rest + [n])[..|rest|] == rest;
  }

  /** What the loop keeps. */
  ghost predicate Going(r: Walker, root: WalkNode, stack: seq<WalkNode>, seen: set<bytes>, expanded: Expanded)
    reads r
  {
    && r.Valid() && OnlyReachable(r.s, root, stack, expanded) && seen == expanded.Keys <= Universe(r.s.w, root)
    && Faithful(r.s, root, expanded, r.visited, r.checked)
    && (r.maxBlobs == 0 ==> Closed(r.s, root, stack, expanded, r.checked, r.failures) && r.checked == Locs(r.visited))
    && (r.maxBlobs == 0 ==> Tracks(r.s, root, Verdict([], r.ledger0), stack, seen, r.Now(), r.visited))
    && (r.maxBlobs > 0 ==> r.walked <= r.maxBlobs + 1)
  }

  /** The tree ids not yet seen. */
  ghost function Unseen(r: Walker, root: WalkNode, seen: set<bytes>): nat {
    |Universe(r.s.w, root) - seen|
  }

  /** One turn of the loop, when it is not cut off. */
  method Turn(r: Walker, root: WalkNode, stack: seq<WalkNode>, seen: set<bytes>, ghost expanded: Expanded)
    returns (stack': seq<WalkNode>, seen': set<bytes>, ghost expanded': Expanded)
    requires Going(r, root, stack, seen, expanded) && stack != [] && TreesNamed(r.s.w, root)
        && (r.maxBlobs > 0 ==> r.walked < r.maxBlobs)
    modifies r`ok, r`walked, r`fetched, r`trees, r`files, r`skipped, r`failures, r`ledger, r`checked, r`visited
    ensures Going(r, root, stack', seen', expanded')
    ensures Unseen(r, root, seen') < Unseen(r, root, seen) || (seen' == seen && |stack'| < |stack|)
  {
    hide Closed, OnlyReachable, Universe, Visited, Reachable, TreesNamed, Children, r.Valid, Tracks, Faithful, Pushed,
         AfterNode, BlobsOf, Locs, OnlyOf;
    var n, rest := stack[|stack| - 1], stack[..|stack| - 1];
    assert stack == rest + [n];
    PoppedNamed(r.s, root, rest, n, expanded);
    PoppedReachable(r.s, root, rest, n, expanded);
    ghost var (checked, v, visited) := (r.checked, r.Now(), r.visited);
    var pushed: seq<WalkNode>;
    pushed, seen' := r.Visit(n, seen);
    PushedFrom(r.s, v, n, pushed, seen);
    PushedReachable(r.s, root, rest, n, pushed, expanded);
    assert rest + [] == rest;
    if Repeated(n, seen) {
      if r.maxBlobs == 0 {
        RepeatCovered(r.s, n, expanded.Keys, checked, v.failures);
        VisitKeepsClosed(r.s, root, rest, n, pushed, expanded, checked, checked, v.failures, v.failures);
        TracksOn(r.s, root, Verdict([], r.ledger0), rest, n, seen, v, visited);
      }
    } else {
      FaithfulOn(r.s, root, expanded, visited, checked, n, r.checked);
      if r.maxBlobs == 0 {
        VisitCovers(r.s, n, seen, checked, v);
        VisitKeepsClosed(r.s, root, rest, n, pushed, expanded, checked, r.checked, v.failures, r.failures);
        TracksOn(r.s, root, Verdict([], r.ledger0), rest, n, seen, v, visited);
        LocsOneMore(visited, n);
      }
    }
    Shrinks(Universe(r.s.w, root), expanded, n);
    expanded', stack' := Grown(expanded, n), rest + pushed;
  }

  lemma RepeatCovered(s: Store, n: WalkNode, seen: set<bytes>, checked: seq<BlobLoc>, failures: seq<Failure>)
    requires Repeated(n, seen)
    ensures Visited(s, n, seen, [], checked, failures)
  {}

  lemma PushedFrom(s: Store, v: Verdict, n: WalkNode, pushed: seq<WalkNode>, seen: set<bytes>)
    requires pushed == if Repeated(n, seen) then [] else Pushed(s, v, n)
    ensures pushed == [] || (IsTree(n) && pushed == Children(s.w, n.treeLoc.value))
  {
    hide Children;
  }

  lemma PoppedReachable(s: Store, root: WalkNode, rest: seq<WalkNode>, n: WalkNode, expanded: Expanded)
    requires OnlyReachable(s, root, rest + [n], expanded)
    ensures Reachable(s.w, root, n)
  {
    hide Reachable;
    assert n in rest + [n];
  }

  /**
   validate_record, once the keyset and the record itself have opened. Whatever the cap, only locs of
   reachable nodes are checked and each tree id at most once. Without a cap the nodes visited, the locs
   checked, the failures and the ledger are those of the walk's rules.
  */
  method ValidateRecord(s: Store, root: WalkNode, maxBlobs: nat, ledger: Option<set<bytes>>)
    returns (r: Walker, ghost expanded: Expanded)
    requires TreesNamed(s.w, root)
    ensures fresh(r) && r.Valid() && r.s == s && r.ledger0 == ledger && r.maxBlobs == maxBlobs
    ensures r.ok <==> r.failures == []
    ensures Faithful(s, root, expanded, r.visited, r.checked)
    ensures maxBlobs == 0 ==> Complete(s, root, [], expanded, r.checked, r.failures) && r.truncatedAfter == 0
    ensures maxBlobs == 0 ==> Runs(s, [root], {}, Verdict([], ledger), r.visited) && r.checked == Locs(r.visited)
    ensures maxBlobs == 0 ==> r.Now() == AfterNodes(s, Verdict([], ledger), r.visited)
    ensures maxBlobs == 0 && ledger.None? && RepeatsAlike(s.w, root) ==> (r.ok <==> RecordSound(s, root))
    ensures maxBlobs == 0 && ledger.None? && Addressed(s.w, root) && r.ok ==> FilesSound(s, root)
    ensures maxBlobs > 0 ==> r.walked <= maxBlobs + 1
  {
    hide Unseen, TreesNamed, Closed, OnlyReachable, Universe, Tracks, Faithful, Runs, RepeatsAlike, RecordSound,
         Addressed, FilesSound;
    r := new Walker(s, maxBlobs, ledger);
    hide r.Valid;
    var stack := [root];
    var seen: set<bytes> := {};
    expanded := map[];
    AtFirst(s, root);
    TracksAtFirst(s, root, Verdict([], ledger));
    while stack != []
      invariant fresh(r) && Going(r, root, stack, seen, expanded) && (maxBlobs == 0 ==> r.truncatedAfter == 0)
      decreases Unseen(r, root, seen), |stack|
    {
      if maxBlobs > 0 && r.walked >= maxBlobs {
        r.truncatedAfter := r.walked;
        break;
      }
      stack, seen, expanded := Turn(r, root, stack, seen, expanded);
    }
    if maxBlobs == 0 {
      TracksToTheEnd(s, root, Verdict([], ledger), seen, r.Now(), r.visited);
    }
    r.ok := r.failures == [];
    if maxBlobs == 0 && ledger.None? {
      ReportMeans(r, root, expanded);
    }
  }

  lemma PoppedNamed(s: Store, root: WalkNode, rest: seq<WalkNode>, n: WalkNode, expanded: Expanded)
    requires TreesNamed(s.w, root) && OnlyReachable(s, root, rest + [n], expanded)
    ensures IsTree(n) ==> TreeId(n) != [] && TreeId(n) in Universe(s.w, root)
  {
    hide Reachable, Universe, TreesNamed;
    assert n in rest + [n];
    if IsTree(n) {
      ReachableNamed(s.w, root, n);
    }
  }

  lemma GrownKeys(expanded: Expanded, n: WalkNode)
    ensures Grown(expanded, n).Keys == if IsTree(n) then expanded.Keys + {TreeId(n)} else expanded.Keys
  {}

  lemma Shrinks(u: set<bytes>, expanded: Expanded, n: WalkNode)
    requires (IsTree(n) ==> TreeId(n) in u) && expanded.Keys <= u
    ensures var seen' := Grown(expanded, n).Keys;
            && seen' == (if IsTree(n) then expanded.Keys + {TreeId(n)} else expanded.Keys) && seen' <= u
            && if IsTree(n) && TreeId(n) !in expanded then |u - seen'| < |u - expanded.Keys| else seen' == expanded.Keys
  {
    hide Grown, IsTree, TreeId;
    GrownKeys(expanded, n);
    if IsTree(n) && TreeId(n) !in expanded {
      Fewer(u, expanded.Keys, TreeId(n));
    }
  }

  lemma AtFirst(s: Store, root: WalkNode)
    ensures Closed(s, root, [root], map[], [], []) && OnlyReachable(s, root, [root], map[])
    ensures Faithful(s, root, map[], [], []) && Locs([]) == []
  {
    hide Reachable;
    RootReachable(s.w, root);
  }

  /* ---- What a clean report means ---- */

  ghost predicate AllGood(s: Store, locs: seq<BlobLoc>) {
    forall l :: l in locs ==> Good(s, l)
  }

  /**
   A file's blobs are all good. A tree's id was walked through some reachable node whose tree blob and own blobs
   are good: of several nodes that share a tree, the walk checks the xattr and ACL blobs of one.
  */
  ghost predicate Intact(s: Store, root: WalkNode, expanded: Expanded, n: WalkNode) {
    if IsTree(n) then
      && TreeId(n) in expanded
      && var m := expanded[TreeId(n)];
         Reachable(s.w, root, m) && IsTree(m) && TreeId(m) == TreeId(n) && Good(s, m.treeLoc.value)
             && Opens(s.w, m.treeLoc.value)
         && AllGood(s, LeafLocs(m))
    else AllGood(s, LeafLocs(n))
  }

  /** Main result: with no cap and no ledger, a report without failures means every reachable node is intact. */
  lemma {:induction false} CleanMeansIntact(s: Store, root: WalkNode, expanded: Expanded, checked: seq<BlobLoc>, k: nat,
      n: WalkNode)
    requires Complete(s, root, [], expanded, checked, []) && Honest(s, checked, [], None) && Addressed(s.w, root)
    requires Reached(s.w, root, k, n)
    ensures Intact(s, root, expanded, n)
    decreases k
  {
    hide Closed, OnlyReachable, Addressed, Children, LeafLocs, Honest, Good, Opens;
    if k > 0 {
      var p: WalkNode :| Reached(s.w, root, k - 1, p) && p.isTree && p.treeLoc.Some?
          && n in Children(s.w, p.treeLoc.value);
      CleanMeansIntact(s, root, expanded, checked, k - 1, p);
      assert Reachable(s.w, root, p);
      SameTree(s.w, root, p, expanded[TreeId(p)]);
      ChildCovered(s, root, expanded, checked, TreeId(p), n);
    } else {
      RootCovered(s, root, expanded, checked);
    }
    CoveredIntact(s, root, expanded, checked, n);
  }

  lemma SameTree(w: World, root: WalkNode, p: WalkNode, m: WalkNode)
    requires Addressed(w, root) && Reachable(w, root, p) && Reachable(w, root, m) && IsTree(p) && IsTree(m)
        && TreeId(p) == TreeId(m)
    ensures Children(w, p.treeLoc.value) == Children(w, m.treeLoc.value)
  {
    hide Children, Reachable;
  }

  lemma RootCovered(s: Store, root: WalkNode, expanded: Expanded, checked: seq<BlobLoc>)
    requires Closed(s, root, [], expanded, checked, [])
    ensures Covered(expanded, checked, root)
  {
    hide Covered, Walked1;
  }

  lemma ChildCovered(s: Store, root: WalkNode, expanded: Expanded, checked: seq<BlobLoc>, i: bytes, n: WalkNode)
    requires Closed(s, root, [], expanded, checked, []) && i in expanded && IsTree(expanded[i])
    requires Good(s, expanded[i].treeLoc.value) && Opens(s.w, expanded[i].treeLoc.value)
        && n in Children(s.w, expanded[i].treeLoc.value)
    ensures Covered(expanded, checked, n)
  {
    hide Covered, Children, LeafLocs, Good, Opens;
    assert Walked1(s, [], expanded, checked, [], i);
  }

  lemma CoveredIntact(s: Store, root: WalkNode, expanded: Expanded, checked: seq<BlobLoc>, n: WalkNode)
    requires Complete(s, root, [], expanded, checked, []) && Honest(s, checked, [], None)
        && Covered(expanded, checked, n)
    ensures Intact(s, root, expanded, n)
  {
    hide Children, LeafLocs, Good, Opens, Reachable;
    AllChecked(s, checked);
    if IsTree(n) {
      assert Walked1(s, [], expanded, checked, [], TreeId(n));
    }
  }

  lemma AllChecked(s: Store, checked: seq<BlobLoc>)
    requires Honest(s, checked, [], None)
    ensures forall l :: l in checked ==> Good(s, l)
    ensures forall l :: !Failed([], l)
  {
    hide Good;
  }

  /* ---- Exactly when a clean report means that all is well ---- */

  const CLEAN := Verdict([], None)

  /** Every blob of the node is good, and its tree opens. */
  ghost predicate NodeGood(s: Store, n: WalkNode) {
    AllGood(s, BlobsOf(n)) && (IsTree(n) ==> Opens(s.w, n.treeLoc.value))
  }

  ghost predicate AllNodesGood(s: Store, visited: seq<WalkNode>) {
    forall n :: n in visited ==> NodeGood(s, n)
  }

  lemma {:induction false} LocsClean(s: Store, v: Verdict, locs: seq<BlobLoc>)
    requires v.ledger.None?
    ensures AfterLocs(s, v, locs).ledger.None? && v.failures <= AfterLocs(s, v, locs).failures
    ensures AfterLocs(s, v, locs) == v <==> AllGood(s, locs)
    decreases |locs|
  {
    hide Good, Fault;
    if locs != [] {
      var (rest, last) := (locs[..|locs| - 1], locs[|locs| - 1]);
      assert locs == rest + [last];
      LocsClean(s, v, rest);
    }
  }

  lemma NodeClean(s: Store, v: Verdict, n: WalkNode)
    requires v.ledger.None?
    ensures AfterNode(s, v, n).ledger.None? && v.failures <= AfterNode(s, v, n).failures
    ensures AfterNode(s, v, n) == v <==> NodeGood(s, n)
  {
    hide VerifyObject, Fault, Opens;
    var rest := n.xattrLocs + AclLocs(n);
    var u := AfterContent(s, v, n);
    assert BlobsOf(n) == ContentLocs(n) + rest;
    LocsClean(s, v, ContentLocs(n));
    LocsClean(s, u, rest);
  }

  /** Without a ledger, the report of a walk is clean if and only if every node visited is good. */
  lemma {:induction false} CleanIffVisitedGood(s: Store, visited: seq<WalkNode>)
    ensures AfterNodes(s, CLEAN, visited).ledger.None?
    ensures AfterNodes(s, CLEAN, visited).failures == [] <==> AllNodesGood(s, visited)
    decreases |visited|
  {
    hide AfterNode, NodeGood;
    if visited != [] {
      var (rest, last) := (visited[..|visited| - 1], visited[|visited| - 1]);
      assert visited == rest + [last];
      CleanIffVisitedGood(s, rest);
      NodeClean(s, AfterNodes(s, CLEAN, rest), last);
    }
  }

  ghost predicate ReachableGood(s: Store, root: WalkNode) {
    forall n :: Reachable(s.w, root, n) ==> NodeGood(s, n)
  }

  /** Reachable tree nodes with one id carry the same tree loc and the same xattr and ACL locs. */
  ghost predicate RepeatsAlike(w: World, root: WalkNode) {
    forall m, n :: Reachable(w, root, m) && Reachable(w, root, n) && IsTree(m) && IsTree(n) && TreeId(m) == TreeId(n)
      ==> m.treeLoc == n.treeLoc && LeafLocs(m) == LeafLocs(n)
  }

  /**
   Where repeated tree nodes carry the same locs, a walk without cap and ledger is clean if and only if every blob of
   every reachable node is good and every reachable tree opens.
  */
  lemma CleanIffReachableGood(
    s: Store, root: WalkNode, expanded: Expanded, visited: seq<WalkNode>, checked: seq<BlobLoc>, failures: seq<Failure>)
    requires Faithful(s, root, expanded, visited, checked) && Complete(s, root, [], expanded, checked, failures)
    requires Honest(s, checked, failures, None) && failures == AfterNodes(s, CLEAN, visited).failures
    requires RepeatsAlike(s.w, root)
    ensures failures == [] <==> ReachableGood(s, root)
  {
    hide Closed, OnlyReachable, Children, LeafLocs, Honest, NodeGood, Reachable, AfterNodes, AllNodesGood, Opens;
    CleanIffVisitedGood(s, visited);
    if failures == [] {
      AlikeAddressed(s.w, root);
      forall n | Reachable(s.w, root, n) ensures NodeGood(s, n) {
        var k: nat := StepsTo(s.w, root, n);
        CleanMeansIntact(s, root, expanded, checked, k, n);
        IntactGood(s, root, expanded, n);
      }
    }
    if ReachableGood(s, root) {
      VisitedGood(s, root, expanded, visited, checked);
    }
  }

  lemma StepsTo(w: World, root: WalkNode, n: WalkNode) returns (k: nat)
    requires Reachable(w, root, n)
    ensures Reached(w, root, k, n)
  {
    k :| Reached(w, root, k, n);
  }

  lemma VisitedGood(s: Store, root: WalkNode, expanded: Expanded, visited: seq<WalkNode>, checked: seq<BlobLoc>)
    requires Faithful(s, root, expanded, visited, checked) && ReachableGood(s, root)
    ensures AllNodesGood(s, visited)
  {
    hide NodeGood, Reachable;
  }

  lemma AlikeAddressed(w: World, root: WalkNode)
    requires RepeatsAlike(w, root)
    ensures Addressed(w, root)
  {
    hide Reachable, Children, LeafLocs;
  }

  lemma IntactGood(s: Store, root: WalkNode, expanded: Expanded, n: WalkNode)
    requires Intact(s, root, expanded, n) && RepeatsAlike(s.w, root) && Reachable(s.w, root, n)
    ensures NodeGood(s, n)
  {
    hide Reachable, Children, Good, Opens;
    forall l | l in BlobsOf(n) ensures Good(s, l) {
      if IsTree(n) {
        assert l == n.treeLoc.value || l in LeafLocs(n);
      } else {
        assert l in LeafLocs(n);
      }
    }
  }

  /* ---- The same of the parsed trees alone ---- */

  /** Every blob a parsed node refers to is good, and a directory's tree opens. */
  ghost predicate NodeSound(s: Store, n: Node) {
    && (forall l :: RefersTo(n, l) ==> Good(s, l))
    && (n.TreeNode? ==> Good(s, n.treeBlobLoc) && s.w.decode(s.w.objects[n.treeBlobLoc]).Some?)
  }

  ghost predicate RootSound(s: Store, root: WalkNode) {
    && (forall l :: RootRefersTo(root, l) ==> Good(s, l))
    && (IsTree(root) ==> Good(s, root.treeLoc.value) && s.w.decode(s.w.objects[root.treeLoc.value]).Some?)
  }

  /** The root, and every child that a tree of the record lists. */
  ghost predicate RecordSound(s: Store, root: WalkNode) {
    RootSound(s, root) && forall c :: ListedUnder(s.w, root, c) ==> NodeSound(s, c.node)
  }

  lemma BlobsReferred(n: WalkNode, l: BlobLoc)
    ensures l in BlobsOf(n) <==> l in LeafLocs(n) || (IsTree(n) && l == n.treeLoc.value)
  {}

  lemma WalkedSound(s: Store, n: Node)
    ensures NodeGood(s, ToWalk(n)) <==> NodeSound(s, n)
  {
    hide VerifyObject, ToWalk, BlobsOf, LeafLocs;
    forall l ensures l in BlobsOf(ToWalk(n)) <==> RefersTo(n, l) || (n.TreeNode? && l == n.treeBlobLoc) {
      BlobsReferred(ToWalk(n), l);
      LeavesReferred(n, l);
    }
    LeavesReferred(n, XATTR);
  }

  lemma RootGood(s: Store, root: WalkNode)
    ensures NodeGood(s, root) <==> RootSound(s, root)
  {
    hide VerifyObject, BlobsOf, LeafLocs;
    forall l ensures l in BlobsOf(root) <==> RootRefersTo(root, l) || (IsTree(root) && l == root.treeLoc.value) {
      BlobsReferred(root, l);
      RootLeaves(root, l);
    }
  }

  lemma ReachableSound(s: Store, root: WalkNode)
    ensures ReachableGood(s, root) <==> RecordSound(s, root)
  {
    hide NodeGood, NodeSound, RootSound, Reachable, ListedUnder, ToWalk;
    RootGood(s, root);
    RootReachable(s.w, root);
    forall n ensures Reachable(s.w, root, n)
      <==> n == root || exists c :: ListedUnder(s.w, root, c) && n == ToWalk(c.node)
    {
      ReachableListed(s.w, root, n);
    }
    forall c: TreeChild ensures NodeGood(s, ToWalk(c.node)) <==> NodeSound(s, c.node) {
      WalkedSound(s, c.node);
    }
    forall c | ListedUnder(s.w, root, c) ensures Reachable(s.w, root, ToWalk(c.node)) {
      ListedReachable(s.w, root, c);
    }
  }

  /**
   Main result. Where repeated tree nodes carry the same locs, a walk without cap and ledger is clean if and only if
   every data, xattr, ACL and tree blob that the record's root and the children of its trees refer to is good, and
   every one of these trees opens.
  */
  lemma CleanIffRecordSound(
    s: Store, root: WalkNode, expanded: Expanded, visited: seq<WalkNode>, checked: seq<BlobLoc>, failures: seq<Failure>)
    requires Faithful(s, root, expanded, visited, checked) && Complete(s, root, [], expanded, checked, failures)
    requires Honest(s, checked, failures, None) && failures == AfterNodes(s, CLEAN, visited).failures
    requires RepeatsAlike(s.w, root)
    ensures failures == [] <==> RecordSound(s, root)
  {
    hide Faithful, Complete, Honest, AfterNodes, RepeatsAlike, ReachableGood, RecordSound;
    CleanIffReachableGood(s, root, expanded, visited, checked, failures);
    ReachableSound(s, root);
  }

  predicate FileRefersTo(n: Node, l: BlobLoc)
    requires n.FileNode?
  {
    l in n.dataBlobLocs || l in n.meta.xattrsBlobLocs || n.meta.aclBlobLoc == Some(l)
  }

  /** Every data, xattr and ACL blob of every file that a tree of the record lists is good. */
  ghost predicate FilesSound(s: Store, root: WalkNode) {
    forall c: TreeChild, l: BlobLoc ::
      ListedUnder(s.w, root, c) && c.node.FileNode? && FileRefersTo(c.node, l) ==> Good(s, l)
  }

  /** What the report of a walk without cap and ledger says. */
  lemma ReportMeans(r: Walker, root: WalkNode, expanded: Expanded)
    requires r.Valid() && r.ledger0.None? && Faithful(r.s, root, expanded, r.visited, r.checked)
    requires Complete(r.s, root, [], expanded, r.checked, r.failures) && r.Now() == AfterNodes(r.s, CLEAN, r.visited)
    ensures RepeatsAlike(r.s.w, root) ==> (r.failures == [] <==> RecordSound(r.s, root))
    ensures Addressed(r.s.w, root) && r.failures == [] ==> FilesSound(r.s, root)
  {
    hide Faithful, Complete, Honest, AfterNodes, RepeatsAlike, RecordSound, Addressed, Good, ListedUnder;
    assert r.ledger == None;
    if RepeatsAlike(r.s.w, root) {
      CleanIffRecordSound(r.s, root, expanded, r.visited, r.checked, r.failures);
    }
    if Addressed(r.s.w, root) && r.failures == [] {
      forall c | ListedUnder(r.s.w, root, c) && c.node.FileNode?
        ensures forall l :: FileRefersTo(c.node, l) ==> Good(r.s, l)
      {
        CleanMeansFilesSound(r.s, root, expanded, r.checked, c);
      }
    }
  }

  /** Where trees are content-addressed, a clean report of such a walk means that all files are sound. */
  lemma CleanMeansFilesSound(s: Store, root: WalkNode, expanded: Expanded, checked: seq<BlobLoc>, c: TreeChild)
    requires Complete(s, root, [], expanded, checked, []) && Honest(s, checked, [], None) && Addressed(s.w, root)
    requires ListedUnder(s.w, root, c) && c.node.FileNode?
    ensures forall l :: FileRefersTo(c.node, l) ==> Good(s, l)
  {
    hide Complete, Honest, Addressed, Good, ListedUnder, Reachable, LeafLocs, ToWalk;
    var n := ToWalk(c.node);
    ListedReachable(s.w, root, c);
    var k := StepsTo(s.w, root, n);
    CleanMeansIntact(s, root, expanded, checked, k, n);
    forall l ensures l in LeafLocs(n) <==> RefersTo(c.node, l) {
      LeavesReferred(c.node, l);
    }
    LeavesReferred(c.node, XATTR);
  }

  /* ---- A repeated tree's own blobs go unchecked ---- */

  const OUTER: BlobLoc := BlobLoc([1], false, false, [1], 0, 116, true, 2)
  const INNER: BlobLoc := BlobLoc([2], false, false, [2], 0, 117, true, 2)
  const XATTR: BlobLoc := BlobLoc([3], false, false, [3], 0, 118, true, 2)

  /** An object of this length that an all-zero MAC accepts. */
  function Blank(length: nat): (b: bytes)
    requires length >= HEADER_BYTES
    ensures |b| == length && VerifyObject(_ => seq(HMAC_BYTES, _ => 0), b)
  {
    ARQO_MAGIC + seq(length - 4, _ => 0)
  }

  /** Two directories with one tree. */
  function Twins(meta: Meta): Tree {
    Tree([TreeChild([0x61], TreeNode(INNER, meta.(xattrsBlobLocs := [XATTR]))),
        TreeChild([0x62], TreeNode(INNER, meta))], 3)
  }

  function TwinStore(meta: Meta): Store {
    var decode := (d: bytes) => if |d| == 116 then Some(Twins(meta)) else Some(Tree([], 3));
    Store(World(map[OUTER := Blank(116), INNER := Blank(117)], decode), _ => seq(HMAC_BYTES, _ => 0))
  }

  lemma TwinBlobs(meta: Meta)
    ensures var s := TwinStore(meta);
            && Good(s, OUTER) && Good(s, INNER) && Opens(s.w, OUTER) && Opens(s.w, INNER) && XATTR !in s.w.objects
            && Children(s.w, OUTER) == [ToWalk(Twins(meta).children[0].node), ToWalk(Twins(meta).children[1].node)]
            && Children(s.w, INNER) == []
    ensures forall l :: l in TwinStore(meta).w.objects <==> l == OUTER || l == INNER
  {
    hide VerifyObject;
    var s := TwinStore(meta);
    assert s.w.objects[OUTER] == Blank(116) && s.w.objects[INNER] == Blank(117);
  }

  /**
   A record whose root lists two directories with one tree; the one listed first, and so visited last, has an xattr
   blob that is missing. The report is clean.
  */
  lemma RepeatedTreeGoesUnchecked(meta: Meta)
    returns (s: Store, root: WalkNode, first: WalkNode, visited: seq<WalkNode>)
    requires meta.xattrsBlobLocs == [] && meta.aclBlobLoc.None?
    ensures TreesNamed(s.w, root) && Runs(s, [root], {}, CLEAN, visited) && AfterNodes(s, CLEAN, visited) == CLEAN
    ensures Reachable(s.w, root, first) && IsTree(first) && first !in visited
    ensures first.xattrLocs != [] && first.xattrLocs[0] !in s.w.objects
  {
    s, root := TwinStore(meta), WalkNode(true, Some(OUTER), [], [], None);
    var last := ToWalk(Twins(meta).children[1].node);
    first, visited := ToWalk(Twins(meta).children[0].node), [root, last];
    assert last == WalkNode(true, Some(INNER), [], [], None) && first == WalkNode(true, Some(INNER), [], [XATTR], None);
    TwinBlobs(meta);
    hide TwinStore, Twins, Good, Opens, Children, ToWalk, AfterNodes, AfterNode, Runs, Reachable;
    assert BlobsOf(root) == [OUTER] && BlobsOf(last) == [INNER];
    assert AllNodesGood(s, visited);
    CleanIffVisitedGood(s, visited);
    NodeClean(s, CLEAN, root);
    NodeClean(s, CLEAN, last);
    RootReachable(s.w, root);
    ChildReachable(s.w, root, root, first);
    TwinRun(s, root, first, last);
  }

  lemma TwinRun(s: Store, root: WalkNode, first: WalkNode, last: WalkNode)
    requires IsTree(root) && IsTree(first) && IsTree(last) && TreeId(first) == TreeId(last) != TreeId(root)
    requires Pushed(s, CLEAN, root) == [first, last] && Pushed(s, CLEAN, last) == []
    requires AfterNode(s, CLEAN, root) == CLEAN == AfterNode(s, CLEAN, last)
    ensures Runs(s, [root], {}, CLEAN, [root, last])
  {
    hide Pushed, AfterNode;
    var (a, b) := ({TreeId(root)}, {TreeId(root), TreeId(last)});
    assert Seen({}, root) == a && Seen(a, last) == b;
    assert Runs(s, [], b, CLEAN, []);
    RunSkips(s, [], first, b, CLEAN, []);
    assert [] + [first] == [first] && [first] + [] == [first] && [first] + [last] == [first, last];
    RunVisits(s, [first], last, a, CLEAN, []);
    assert [last] + [] == [last] && [] + [first, last] == [first, last];
    RunVisits(s, [], root, {}, CLEAN, [last]);
    assert [] + [root] == [root] && [root] + [last] == [root, last];
  }

  /* ---- Which records are reported rightly, whatever blobs are lost ---- */

  /** The store after these blobs are lost. */
  function Without(s: Store, lost: set<BlobLoc>): Store {
    s.(w := s.w.(objects := map l | l in s.w.objects && l !in lost :: s.w.objects[l]))
  }

  lemma StillGood(s: Store, lost: set<BlobLoc>, l: BlobLoc)
    ensures Good(Without(s, lost), l) <==> Good(s, l) && l !in lost
    ensures Opens(Without(s, lost).w, l) <==> Opens(s.w, l) && l !in lost
    ensures l !in lost ==> Children(Without(s, lost).w, l) == Children(s.w, l)
  {
    hide VerifyObject;
  }

  lemma NodeStillGood(s: Store, lost: set<BlobLoc>, n: WalkNode)
    ensures NodeGood(Without(s, lost), n) <==> NodeGood(s, n) && forall l :: l in BlobsOf(n) ==> l !in lost
  {
    hide Without, Good, Opens;
    forall l ensures Good(Without(s, lost), l) <==> Good(s, l) && l !in lost { StillGood(s, lost, l); }
    if IsTree(n) {
      StillGood(s, lost, n.treeLoc.value);
      assert n.treeLoc.value in BlobsOf(n);
    }
  }

  lemma SameVisit(s: Store, lost: set<BlobLoc>, n: WalkNode)
    requires NodeGood(Without(s, lost), n)
    ensures AfterNode(s, CLEAN, n) == CLEAN == AfterNode(Without(s, lost), CLEAN, n)
    ensures Pushed(s, CLEAN, n) == Pushed(Without(s, lost), CLEAN, n)
  {
    hide Without, Good, Opens, Children, AfterNode, NodeGood;
    NodeStillGood(s, lost, n);
    NodeClean(s, CLEAN, n);
    NodeClean(Without(s, lost), CLEAN, n);
    if IsTree(n) {
      assert Good(Without(s, lost), n.treeLoc.value) by { TreeLocGood(Without(s, lost), n); }
      StillGood(s, lost, n.treeLoc.value);
    }
  }

  lemma TreeLocGood(s: Store, n: WalkNode)
    requires NodeGood(s, n) && IsTree(n)
    ensures Good(s, n.treeLoc.value)
  {
    hide Good;
    assert n.treeLoc.value in BlobsOf(n);
  }

  /** A walk that meets no lost blob goes as before. */
  lemma {:induction false} SameRun(s: Store, lost: set<BlobLoc>, stack: seq<WalkNode>, seen: set<bytes>,
      visited: seq<WalkNode>)
    requires AllNodesGood(Without(s, lost), visited)
    ensures Runs(s, stack, seen, CLEAN, visited) <==> Runs(Without(s, lost), stack, seen, CLEAN, visited)
    decreases |visited|, |stack|
  {
    hide Without, NodeGood, AfterNode, Pushed, Seen;
    if stack != [] {
      var (n, rest) := (stack[|stack| - 1], stack[..|stack| - 1]);
      if Repeated(n, seen) {
        SameRun(s, lost, rest, seen, visited);
      } else if visited != [] && visited[0] == n {
        SameVisit(s, lost, n);
        SameRun(s, lost, rest + Pushed(s, CLEAN, n), Seen(seen, n), visited[1..]);
      }
    }
  }

  /** The rules leave the walk no choice. */
  lemma {:induction false} OneRun(
    s: Store, stack: seq<WalkNode>, seen: set<bytes>, v: Verdict, visited: seq<WalkNode>, visited': seq<WalkNode>)
    requires Runs(s, stack, seen, v, visited) && Runs(s, stack, seen, v, visited')
    ensures visited == visited'
    decreases |visited|, |stack|
  {
    hide AfterNode, Pushed, Seen;
    if stack != [] {
      var (n, rest) := (stack[|stack| - 1], stack[..|stack| - 1]);
      if Repeated(n, seen) {
        OneRun(s, rest, seen, v, visited, visited');
      } else {
        OneRun(s, rest + Pushed(s, v, n), Seen(seen, n), AfterNode(s, v, n), visited[1..], visited'[1..]);
        assert visited == [n] + visited[1..] && visited' == [n] + visited'[1..];
      }
    }
  }

  lemma {:induction false} RunReaches(
    s: Store, root: WalkNode, stack: seq<WalkNode>, seen: set<bytes>, v: Verdict, visited: seq<WalkNode>)
    requires Runs(s, stack, seen, v, visited) && forall n :: n in stack ==> Reachable(s.w, root, n)
    ensures forall n :: n in visited ==> Reachable(s.w, root, n)
    decreases |visited|, |stack|
  {
    hide AfterNode, Seen, Reachable, Children, Passes;
    if stack != [] {
      var (n, rest) := (stack[|stack| - 1], stack[..|stack| - 1]);
      assert stack == rest + [n];
      if Repeated(n, seen) {
        RunReaches(s, root, rest, seen, v, visited);
      } else {
        forall c | c in Pushed(s, v, n) ensures Reachable(s.w, root, c) {
          ChildReachable(s.w, root, n, c);
        }
        RunReaches(s, root, rest + Pushed(s, v, n), Seen(seen, n), AfterNode(s, v, n), visited[1..]);
        assert visited == [n] + visited[1..];
      }
    }
  }

  /** None of the record's blobs is lost. */
  ghost predicate NoneLost(s: Store, root: WalkNode, lost: set<BlobLoc>) {
    forall n, l :: Reachable(s.w, root, n) && l in BlobsOf(n) ==> l !in lost
  }

  /** If these blobs are lost, a walk is clean exactly when none of them is the record's. */
  ghost predicate ReportedRightly(s: Store, root: WalkNode, lost: set<BlobLoc>, visited: seq<WalkNode>) {
    Runs(Without(s, lost), [root], {}, CLEAN, visited)
    ==> (AfterNodes(Without(s, lost), CLEAN, visited).failures == [] <==> NoneLost(s, root, lost))
  }

  /** The nodes passed over have no blob that is not checked for a node visited. */
  ghost predicate RepeatsAddNothing(s: Store, root: WalkNode, visited: seq<WalkNode>) {
    forall n, l :: Reachable(s.w, root, n) && l in BlobsOf(n) ==> l in Locs(visited)
  }

  lemma RightWhenRepeatsAddNothing(s: Store, root: WalkNode, visited: seq<WalkNode>, lost: set<BlobLoc>,
      visited': seq<WalkNode>)
    requires ReachableGood(s, root) && Runs(s, [root], {}, CLEAN, visited) && RepeatsAddNothing(s, root, visited)
    ensures ReportedRightly(s, root, lost, visited')
  {
    hide NodeGood, Without, AfterNodes, Reachable, Runs, BlobsOf, Locs;
    var s' := Without(s, lost);
    if Runs(s', [root], {}, CLEAN, visited') {
      CleanIffVisitedGood(s', visited');
      if AllNodesGood(s', visited') {
        SameRun(s, lost, [root], {}, visited');
        OneRun(s, [root], {}, CLEAN, visited, visited');
        forall n, l | Reachable(s.w, root, n) && l in BlobsOf(n) ensures l !in lost {
          InLocs(visited, l);
          var m :| m in visited && l in BlobsOf(m);
          NodeStillGood(s, lost, m);
        }
      }
      if NoneLost(s, root, lost) {
        VisitedStillGood(s, root, visited, lost);
        SameRun(s, lost, [root], {}, visited);
        OneRun(s', [root], {}, CLEAN, visited, visited');
      }
    }
  }

  lemma VisitedStillGood(s: Store, root: WalkNode, visited: seq<WalkNode>, lost: set<BlobLoc>)
    requires ReachableGood(s, root) && Runs(s, [root], {}, CLEAN, visited)
    requires forall n, l :: n in visited && Reachable(s.w, root, n) && l in BlobsOf(n) ==> l !in lost
    ensures AllNodesGood(Without(s, lost), visited)
  {
    hide NodeGood, Without, Reachable, Runs, BlobsOf;
    RootReachable(s.w, root);
    RunReaches(s, root, [root], {}, CLEAN, visited);
    forall n | n in visited ensures NodeGood(Without(s, lost), n) {
      NodeStillGood(s, lost, n);
    }
  }

  lemma WrongWhenRepeatsAdd(s: Store, root: WalkNode, visited: seq<WalkNode>, n: WalkNode, l: BlobLoc)
    requires ReachableGood(s, root) && Runs(s, [root], {}, CLEAN, visited)
    requires Reachable(s.w, root, n) && l in BlobsOf(n) && l !in Locs(visited)
    ensures !ReportedRightly(s, root, {l}, visited)
  {
    hide NodeGood, Without, AfterNodes, Reachable, Runs, BlobsOf, Locs;
    InLocs(visited, l);
    VisitedStillGood(s, root, visited, {l});
    SameRun(s, {l}, [root], {}, visited);
    CleanIffVisitedGood(Without(s, {l}), visited);
  }

  /**
   Take a record whose blobs are all good. Whatever blobs are lost, a walk without cap and ledger is clean exactly when
   none of them is the record's, if and only if no tree node passed over has a blob of its own.
  */
  lemma LossesShowIff(s: Store, root: WalkNode, visited: seq<WalkNode>)
    requires ReachableGood(s, root) && Runs(s, [root], {}, CLEAN, visited)
    ensures (forall lost, visited' :: ReportedRightly(s, root, lost, visited')) <==> RepeatsAddNothing(s, root, visited)
  {
    hide ReportedRightly, Reachable, Runs, BlobsOf, Locs, ReachableGood;
    if RepeatsAddNothing(s, root, visited) {
      forall lost, visited' ensures ReportedRightly(s, root, lost, visited') {
        RightWhenRepeatsAddNothing(s, root, visited, lost, visited');
      }
    } else {
      var n, l :| Reachable(s.w, root, n) && l in BlobsOf(n) && l !in Locs(visited);
      WrongWhenRepeatsAdd(s, root, visited, n, l);
    }
  }
}
