/** The restore filter: which files a list of source-relative paths keeps, and which directories may be skipped. */
module PathFilter {
  import opened Bytes

  const SLASH: byte := 0x2F

  predicate StartsWith(s: bytes, prefix: bytes) { prefix <= s }

  function StripLeft(s: bytes): bytes {
    if s != [] && s[0] == SLASH then StripLeft(s[1..]) else s
  }

  function StripRight(s: bytes): bytes {
    if s != [] && s[|s| - 1] == SLASH then StripRight(s[..|s| - 1]) else s
  }

  function Strip(s: bytes): bytes { StripRight(StripLeft(s)) }

  datatype Filter = KeepAll | Filter(keep: set<bytes>) {
    /** from_paths */
    static function FromPaths(paths: seq<bytes>): Filter {
      Filter(set p | p in paths && Strip(p) != [] :: Strip(p))
    }

    predicate Matches(relPath: bytes) {
      KeepAll? || keep == {} ||
      var r := Strip(relPath);
      r in keep || exists k :: k in keep && StartsWith(r, k + [SLASH])
    }

    predicate Descend(relPath: bytes) {
      KeepAll? || keep == {} ||
      var r := Strip(relPath);
      r == [] || exists k ::
        k in keep && (r == k || StartsWith(r, k + [SLASH]) || StartsWith(k, r + [SLASH]))
    }
  }

  /** A name a directory entry can have. */
  predicate ValidName(name: bytes) { name != [] && SLASH !in name }

  /** f"{rel}/{name}" if rel else name */
  function ChildRel(rel: bytes, name: bytes): bytes {
    if rel == [] then name else rel + [SLASH] + name
  }

  type Path = seq<bytes>

  predicate ValidPath(p: Path) { forall i :: 0 <= i < |p| ==> ValidName(p[i]) }

  /** The source-relative text of a path, as the walks build it up. */
  function Rel(p: Path): bytes {
    if p == [] then [] else ChildRel(Rel(p[..|p| - 1]), p[|p| - 1])
  }

  lemma {:induction false} RelEnds(p: Path)
    requires ValidPath(p)
    ensures p != [] ==> Rel(p) != [] && Rel(p)[0] != SLASH && Rel(p)[|Rel(p)| - 1] != SLASH
    ensures Strip(Rel(p)) == Rel(p)
  {
    if p != [] {
      var name := p[|p| - 1];
      assert name[0] != SLASH && name[|name| - 1] != SLASH by {
        assert name[0] in name && name[|name| - 1] in name;
      }
      RelEnds(p[..|p| - 1]);
    }
  }

  lemma {:induction false} RelExtends(p: Path, more: Path)
    requires p != [] && more != [] && ValidPath(p) && ValidPath(more)
    ensures StartsWith(Rel(p + more), Rel(p) + [SLASH])
  {
    var q := p + more;
    assert q[..|q| - 1] == p + more[..|more| - 1];
    RelEnds(p);
    if |more| > 1 {
      RelExtends(p, more[..|more| - 1]);
    } else {
      assert more[..0] == [] && p + [] == p;
    }
  }

  /** Pruning never loses a kept file: the walk descends into every directory above it. */
  lemma MatchNeedsAncestors(f: Filter, p: Path, more: Path)
    requires ValidPath(p) && ValidPath(more) && more != []
    requires f.Matches(Rel(p + more))
    ensures f.Descend(Rel(p))
  {
    assert ValidPath(p + more);
    RelEnds(p);
    RelEnds(p + more);
    if f.Filter? && f.keep != {} && p != [] {
      RelExtends(p, more);
      var r, a := Rel(p + more), Rel(p);
      var k :| k in f.keep && (r == k || StartsWith(r, k + [SLASH]));
      if r != k {
        SlashPrefixes(r, a, k);
      }
      assert k in f.keep && (a == k || StartsWith(a, k + [SLASH]) || StartsWith(k, a + [SLASH]));
    }
  }

  /** A directory descended into has every directory above it descended into. */
  lemma DescendNeedsAncestors(f: Filter, p: Path, q: Path)
    requires ValidPath(q) && p <= q && f.Descend(Rel(q))
    ensures f.Descend(Rel(p))
  {
    var more := q[|p|..];
    assert q == p + more && ValidPath(p) && ValidPath(more);
    RelEnds(p);
    RelEnds(q);
    if more == [] {
      assert p == q;
    } else if f.Filter? && f.keep != {} && p != [] {
      RelExtends(p, more);
      var (r, a) := (Rel(q), Rel(p));
      var k :| k in f.keep && (r == k || StartsWith(r, k + [SLASH]) || StartsWith(k, r + [SLASH]));
      if StartsWith(r, k + [SLASH]) {
        SlashPrefixes(r, a, k);
      } else if StartsWith(k, r + [SLASH]) {
        assert (r + [SLASH])[..|a| + 1] == r[..|a| + 1] == a + [SLASH];
        assert k[..|a| + 1] == (r + [SLASH])[..|a| + 1];
      }
      assert k in f.keep && (a == k || StartsWith(a, k + [SLASH]) || StartsWith(k, a + [SLASH]));
    }
  }

  /* ---- What a filter made from texts keeps ---- */

  lemma SplitAtLastSlash(a: bytes, n: bytes, b: bytes, m: bytes)
    requires SLASH !in n && SLASH !in m && a + [SLASH] + n == b + [SLASH] + m
    ensures a == b && n == m
  {
    var s := a + [SLASH] + n;
    assert s[|a|] == SLASH == s[|b|];
    assert s[..|a|] == a && s[..|b|] == b && s[|a| + 1..] == n && s[|b| + 1..] == m;
  }

  /** Different paths have different texts. */
  lemma {:induction false} RelInjective(p: Path, q: Path)
    requires ValidPath(p) && ValidPath(q) && Rel(p) == Rel(q)
    ensures p == q
  {
    RelEnds(p);
    RelEnds(q);
    if p != [] && q != [] {
      var (a, n, b, m) := (p[..|p| - 1], p[|p| - 1], q[..|q| - 1], q[|q| - 1]);
      RelEnds(a);
      RelEnds(b);
      if a != [] && b != [] {
        SplitAtLastSlash(Rel(a), n, Rel(b), m);
      }
      RelInjective(a, b);
      assert p == a + [n] && q == b + [m];
    }
  }

  /** A text that continues another path's after a slash belongs to a path below it. */
  lemma {:induction false} RelBelow(p: Path, q: Path)
    requires ValidPath(p) && ValidPath(q) && q != [] && StartsWith(Rel(p), Rel(q) + [SLASH])
    ensures q <= p
  {
    var (s, k) := (Rel(p), |Rel(q)|);
    assert s[k] == SLASH && s[..k] == Rel(q);
    RelEnds(q);
    if p != [] {
      var (a, n) := (p[..|p| - 1], p[|p| - 1]);
      assert Rel(a) == [] ==> s == n;
      RelEnds(a);
      assert forall j :: |s| - |n| <= j < |s| ==> s[j] in n;
      assert a != [] && k <= |Rel(a)|;
      if k == |Rel(a)| {
        assert s[..k] == Rel(a);
        RelInjective(a, q);
      } else {
        assert Rel(a) == s[..|Rel(a)|] && Rel(a)[..k + 1] == s[..k + 1];
        RelBelow(a, q);
      }
    }
  }

  function Slashes(n: nat): bytes { seq(n, _ => SLASH) }

  /** The text t is s with any number of slashes on either side. */
  ghost predicate Around(t: bytes, s: bytes) { exists m, n :: Padded(t, s, m, n) }

  predicate Padded(t: bytes, s: bytes, m: nat, n: nat) { t == Slashes(m) + s + Slashes(n) }

  /** Stripping takes the slashes away, and nothing else. */
  lemma StripsSlashes(t: bytes, s: bytes)
    requires Around(t, s) && (s != [] ==> s[0] != SLASH && s[|s| - 1] != SLASH)
    ensures Strip(t) == s
  {
    var m, n :| Padded(t, s, m, n);
    StripsLeft(m, s + Slashes(n));
    assert t == Slashes(m) + (s + Slashes(n));
    if s == [] {
      assert s + Slashes(n) == Slashes(n) + [];
      StripsLeft(n, []);
    } else {
      StripsRight(s, n);
    }
  }

  lemma {:induction false} StripsLeft(m: nat, s: bytes)
    ensures StripLeft(Slashes(m) + s) == StripLeft(s)
    decreases m
  {
    if m > 0 {
      assert (Slashes(m) + s)[1..] == Slashes(m - 1) + s;
      StripsLeft(m - 1, s);
    } else {
      assert Slashes(0) + s == s;
    }
  }

  lemma {:induction false} StripsRight(s: bytes, n: nat)
    ensures StripRight(s + Slashes(n)) == StripRight(s)
    decreases n
  {
    if n > 0 {
      var t := s + Slashes(n);
      assert t[..|t| - 1] == s + Slashes(n - 1);
      StripsRight(s, n - 1);
    } else {
      assert s + Slashes(0) == s;
    }
  }

  /** The filter was made from texts of these paths; slashes around them, and texts of slashes alone, do not matter. */
  ghost predicate MadeFrom(f: Filter, texts: seq<bytes>, paths: seq<Path>) {
    && f == Filter.FromPaths(texts)
    && (forall i :: 0 <= i < |paths| ==> paths[i] != [] && ValidPath(paths[i]))
    && (forall t :: t in texts ==> Around(t, []) || exists i :: 0 <= i < |paths| && Around(t, Rel(paths[i])))
    && forall i :: 0 <= i < |paths| ==> exists t :: t in texts && Around(t, Rel(paths[i]))
  }

  /** The path is one of these or lies below one; without any, every path counts. */
  predicate AtOrBelow(paths: seq<Path>, p: Path) { paths == [] || exists i :: 0 <= i < |paths| && paths[i] <= p }

  /** The path is one of these, below one, or above one; the root always is. */
  predicate OnTheWay(paths: seq<Path>, p: Path) {
    paths == [] || p == [] || exists i :: 0 <= i < |paths| && (paths[i] <= p || p <= paths[i])
  }

  lemma KeepIs(f: Filter, texts: seq<bytes>, paths: seq<Path>)
    requires MadeFrom(f, texts, paths)
    ensures f.Filter? && forall k :: k in f.keep <==> exists i :: 0 <= i < |paths| && k == Rel(paths[i])
    ensures f.keep == {} <==> paths == []
  {
    hide Rel, Strip, ValidPath, Around;
    forall i | 0 <= i < |paths| ensures Rel(paths[i]) in f.keep {
      RelEnds(paths[i]);
      var t :| t in texts && Around(t, Rel(paths[i]));
      StripsSlashes(t, Rel(paths[i]));
    }
    forall k | k in f.keep ensures exists i :: 0 <= i < |paths| && k == Rel(paths[i]) {
      var t :| t in texts && Strip(t) == k;
      if Around(t, []) {
        StripsSlashes(t, []);
      } else {
        var i :| 0 <= i < |paths| && Around(t, Rel(paths[i]));
        RelEnds(paths[i]);
        StripsSlashes(t, Rel(paths[i]));
      }
    }
    if paths != [] {
      assert Rel(paths[0]) in f.keep;
    }
  }

  /** A kept text that matches a path's text belongs to that path or to one above it. */
  lemma TextAbove(q: Path, p: Path)
    requires ValidPath(p) && ValidPath(q) && q != []
    requires Rel(p) == Rel(q) || StartsWith(Rel(p), Rel(q) + [SLASH])
    ensures q <= p
  {
    hide Rel, ValidPath;
    if Rel(p) == Rel(q) {
      RelInjective(p, q);
    } else {
      RelBelow(p, q);
    }
  }

  lemma GivenPaths(f: Filter, texts: seq<bytes>, paths: seq<Path>)
    requires MadeFrom(f, texts, paths)
    ensures forall i :: 0 <= i < |paths| ==> paths[i] != [] && ValidPath(paths[i])
  {
    hide Rel, Strip, ValidPath;
  }

  /** A file is kept exactly if one of the given paths is its own or that of a directory above it, by whole names. */
  lemma KeepsAtOrBelow(f: Filter, texts: seq<bytes>, paths: seq<Path>, p: Path)
    requires MadeFrom(f, texts, paths) && ValidPath(p)
    ensures f.Matches(Rel(p)) <==> AtOrBelow(paths, p)
  {
    hide Rel, Strip, ValidPath, MadeFrom;
    KeepIs(f, texts, paths);
    GivenPaths(f, texts, paths);
    RelEnds(p);
    if paths != [] {
      hide StartsWith;
      if f.Matches(Rel(p)) {
        var k :| k in f.keep && (Rel(p) == k || StartsWith(Rel(p), k + [SLASH]));
        var i :| 0 <= i < |paths| && k == Rel(paths[i]);
        TextAbove(paths[i], p);
      }
      hide f.Matches;
      if AtOrBelow(paths, p) {
        var i :| 0 <= i < |paths| && paths[i] <= p;
        BelowMatches(f, paths[i], p);
      }
    }
  }

  /** A directory is entered exactly if it is the root, or one of the given paths is its own, above it, or below it. */
  lemma DescendsOnTheWay(f: Filter, texts: seq<bytes>, paths: seq<Path>, p: Path)
    requires MadeFrom(f, texts, paths) && ValidPath(p)
    ensures f.Descend(Rel(p)) <==> OnTheWay(paths, p)
  {
    hide Rel, Strip, ValidPath, MadeFrom;
    KeepIs(f, texts, paths);
    GivenPaths(f, texts, paths);
    RelEnds(p);
    RootText();
    if paths != [] && p != [] {
      hide StartsWith;
      if f.Descend(Rel(p)) {
        var k :| k in f.keep && (Rel(p) == k || StartsWith(Rel(p), k + [SLASH]) || StartsWith(k, Rel(p) + [SLASH]));
        var i :| 0 <= i < |paths| && k == Rel(paths[i]);
        if StartsWith(k, Rel(p) + [SLASH]) {
          TextAbove(p, paths[i]);
        } else {
          TextAbove(paths[i], p);
        }
      }
      hide f.Descend;
      if OnTheWay(paths, p) {
        var i :| 0 <= i < |paths| && (paths[i] <= p || p <= paths[i]);
        WayDescends(f, paths[i], p);
      }
    }
  }

  lemma RootText()
    ensures Rel([]) == []
  {}

  lemma WayDescends(f: Filter, q: Path, p: Path)
    requires f.Filter? && f.keep != {} && p != [] && q != [] && ValidPath(p) && ValidPath(q) && Rel(q) in f.keep
    requires q <= p || p <= q
    ensures f.Descend(Rel(p))
  {
    RelEnds(p);
    if p == q {
    } else if q <= p {
      assert p == q + p[|q|..] && ValidPath(p[|q|..]);
      RelExtends(q, p[|q|..]);
    } else {
      assert q == p + q[|p|..] && ValidPath(q[|p|..]);
      RelExtends(p, q[|p|..]);
    }
  }

  lemma BelowMatches(f: Filter, q: Path, p: Path)
    requires f.Filter? && q != [] && ValidPath(p) && q <= p && Rel(q) in f.keep
    ensures f.Matches(Rel(p))
  {
    var more := p[|q|..];
    assert p == q + more && ValidPath(q) && ValidPath(more);
    RelEnds(p);
    if more == [] {
      assert p == q;
    } else {
      RelExtends(q, more);
    }
  }

  /** Two paths above the same path are comparable. */
  lemma SlashPrefixes(r: bytes, a: bytes, k: bytes)
    requires StartsWith(r, a + [SLASH]) && StartsWith(r, k + [SLASH])
    ensures a == k || StartsWith(a, k + [SLASH]) || StartsWith(k, a + [SLASH])
  {
    if |a| == |k| {
      assert a == r[..|a|] == k;
    } else if |a| < |k| {
      assert k == r[..|k|] && a + [SLASH] == r[..|a| + 1] == k[..|a| + 1];
    } else {
      assert a == r[..|a|] && k + [SLASH] == r[..|k| + 1] == a[..|k| + 1];
    }
  }
}
