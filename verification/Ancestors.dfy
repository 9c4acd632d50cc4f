/**
 The server's searches in ancestor directories.  Paths are component lists, the empty list being the
 root; what exists is an arbitrary function, so that symbolic links need no model of their own.
 */
module Ancestors {
  import opened Prelude

  type Name = string
  type Path = seq<Name>

  const MAX_DOMINATING_DEPTH := 100

  /** What the searches ask the file system. */
  datatype World = World(
    isThere: Path -> bool,
    isDir: Path -> bool,
    has: (Path, Name) -> bool,  // whether the marker exists in the directory
    canonical: Path -> Path)

  function Parent(p: Path): Option<Path> {
    if p == [] then None else Some(p[..|p| - 1])
  }

  /** The ancestor that many levels up. */
  function Up(p: Path, levels: nat): Path
    requires levels <= |p|
  {
    p[..|p| - levels]
  }

  lemma UpIsParent(p: Path, levels: nat)
    requires levels < |p|
    ensures Parent(Up(p, levels)) == Some(Up(p, levels + 1))
  {
    assert Up(p, levels)[..|p| - levels - 1] == Up(p, levels + 1);
  }

  predicate HasAny(w: World, dir: Path, names: seq<Name>) {
    exists i :: 0 <= i < |names| && w.has(dir, names[i])
  }

  /** The markers present in a directory, in the order of the request. */
  function Present(w: World, dir: Path, names: seq<Name>): (found: seq<Name>)
    ensures found == [] <==> !HasAny(w, dir, names)
    ensures forall n :: n in found <==> n in names && w.has(dir, n)
  {
    if names == [] then []
    else
      var rest := Present(w, dir, names[1..]);
      assert names == [names[0]] + names[1..];
      assert HasAny(w, dir, names) <==> w.has(dir, names[0]) || HasAny(w, dir, names[1..]) by {
        if HasAny(w, dir, names[1..]) {
          var i :| 0 <= i < |names[1..]| && w.has(dir, names[1..][i]);
          assert w.has(dir, names[i + 1]);
        }
      }
      if w.has(dir, names[0]) then [names[0]] + rest else rest
  }

  /** None of the directories fewer than that many levels up holds a marker. */
  predicate NoneBelow(w: World, start: Path, names: seq<Name>, levels: nat) {
    forall d :: 0 <= d < levels && d <= |start| ==> !HasAny(w, Up(start, d), names)
  }

  datatype Dominating = Found(dir: Path, names: seq<Name>) | NotFound | TooDeep

  /** The nearest ancestor-or-self with a marker, within 101 directories. */
  predicate IsDominating(w: World, start: Path, names: seq<Name>, r: Dominating) {
    match r
    case Found(dir, found) =>
      && dir <= start && |start| - |dir| <= MAX_DOMINATING_DEPTH
      && found == Present(w, dir, names) && found != []
      && NoneBelow(w, start, names, |start| - |dir|)
    case NotFound => |start| <= MAX_DOMINATING_DEPTH && NoneBelow(w, start, names, |start| + 1)
    case TooDeep => |start| > MAX_DOMINATING_DEPTH && NoneBelow(w, start, names, MAX_DOMINATING_DEPTH + 1)
  }

  /** The three outcomes exclude each other, so the specification has exactly one answer. */
  lemma DominatingIsUnique(w: World, start: Path, names: seq<Name>, r: Dominating, q: Dominating)
    requires IsDominating(w, start, names, r) && IsDominating(w, start, names, q)
    ensures r == q
  {
    assert r.Found? ==> r.dir == Up(start, |start| - |r.dir|);
    assert q.Found? ==> q.dir == Up(start, |start| - |q.dir|);
  }

  predicate NoMarkers(w: World, dir: Path, names: seq<Name>) {
    forall n :: n in names ==> !w.has(dir, n)
  }

  /** What the outcomes say of the file system: in which directories there are markers, and which. */
  lemma DominatingMeans(w: World, start: Path, names: seq<Name>, r: Dominating)
    requires IsDominating(w, start, names, r)
    ensures r.Found? ==>
      && r.dir <= start && (forall n :: n in r.names <==> n in names && w.has(r.dir, n)) && r.names != []
      && forall d :: 0 <= d < |start| - |r.dir| ==> NoMarkers(w, Up(start, d), names)
    ensures r.TooDeep? <==> |start| > 100 && forall d :: 0 <= d <= 100 ==> NoMarkers(w, Up(start, d), names)
    ensures r.NotFound? <==> |start| <= 100 && forall d :: 0 <= d <= |start| ==> NoMarkers(w, Up(start, d), names)
  {
    forall d | 0 <= d <= |start|
      ensures HasAny(w, Up(start, d), names) <==> !NoMarkers(w, Up(start, d), names)
    {
      if !NoMarkers(w, Up(start, d), names) {
        var n :| n in names && w.has(Up(start, d), n);
        var i :| 0 <= i < |names| && names[i] == n;
        assert w.has(Up(start, d), names[i]);
      }
    }
    if r.Found? {
      assert r.dir == Up(start, |start| - |r.dir|);
    }
  }

  method FindDominatingDir(w: World, start: Path, names: seq<Name>) returns (r: Dominating)
    ensures IsDominating(w, start, names, r)
  {
    var current := start;
    var depth := 0;
    while true
      invariant depth <= |start| && depth <= MAX_DOMINATING_DEPTH && current == Up(start, depth)
      invariant NoneBelow(w, start, names, depth)
      decreases |current|
    {
      var found := Present(w, current, names);
      if found != [] {
        return Found(current, found);
      }
      match Parent(current)
      case Some(parent) =>
        UpIsParent(start, depth);
        if depth >= MAX_DOMINATING_DEPTH {
          return TooDeep;
        }
        current := parent;
        depth := depth + 1;
      case None =>
        return NotFound;
    }
  }

  // ---------------------------------------------------------------- the scan

  /** The nearest directory fewer than that many levels up that holds the marker. */
  predicate IsNearestHit(w: World, start: Path, marker: Name, levels: nat, hit: Option<Path>) {
    match hit
    case None => forall d :: 0 <= d < levels && d <= |start| ==> !w.has(Up(start, d), marker)
    case Some(dir) =>
      && dir <= start && |start| - |dir| < levels && w.has(dir, marker)
      && forall d :: 0 <= d < |start| - |dir| ==> !w.has(Up(start, d), marker)
  }

  /** A hit is the directory that many levels up exactly if it is within the depth and the first with the marker. */
  lemma NearestHitMeans(w: World, start: Path, marker: Name, levels: nat, hit: Option<Path>)
    requires IsNearestHit(w, start, marker, levels, hit)
    ensures forall d :: 0 <= d <= |start| ==>
      (hit == Some(Up(start, d)) <==>
        d < levels && w.has(Up(start, d), marker) && forall e :: 0 <= e < d ==> !w.has(Up(start, e), marker))
    ensures hit == None <==> forall d :: 0 <= d < levels && d <= |start| ==> !w.has(Up(start, d), marker)
    ensures hit.Some? ==> hit.value == Up(start, |start| - |hit.value|)
  {
    if hit.Some? {
      assert hit.value == Up(start, |start| - |hit.value|);
    }
  }

  /** Several markers in one walk, which ends early once all of them have been found. */
  method AncestorsScan(w: World, start: Path, markers: seq<Name>, maxDepth: nat := 10)
    returns (results: Option<map<Name, Option<Path>>>)
    ensures results.Some? <==> w.isThere(start)
    ensures results.Some? ==>
      && (forall m :: m in results.value <==> m in markers)
      && (forall m :: m in markers ==> IsNearestHit(w, start, m, maxDepth, results.value[m]))
  {
    if !w.isThere(start) {
      return None;
    }
    var hits: map<Name, Option<Path>> := map m | m in markers :: None;
    var current := start;
    var depth := 0;
    while depth < maxDepth
      invariant depth <= maxDepth && depth <= |start| && current == Up(start, depth)
      invariant forall m :: m in hits <==> m in markers
      invariant forall m :: m in markers ==> IsNearestHit(w, start, m, depth, hits[m])
    {
      hits := CheckMarkers(w, start, current, depth, markers, hits);
      if forall m :: m in markers ==> hits[m].Some? {
        break;
      }
      match Parent(current)
      case Some(parent) =>
        UpIsParent(start, depth);
        current := parent;
        depth := depth + 1;
      case None =>
        break;
    }
    results := Some(hits);
  }

  /** Looks in one directory for the markers that have not been found yet. */
  method CheckMarkers(w: World, start: Path, current: Path, depth: nat, markers: seq<Name>,
                      hits: map<Name, Option<Path>>)
    returns (more: map<Name, Option<Path>>)
    requires depth <= |start| && current == Up(start, depth)
    requires forall m :: m in hits <==> m in markers
    requires forall m :: m in markers ==> IsNearestHit(w, start, m, depth, hits[m])
    ensures forall m :: m in more <==> m in markers
    ensures forall m :: m in markers ==> IsNearestHit(w, start, m, depth + 1, more[m])
  {
    more := hits;
    for i := 0 to |markers|
      invariant forall m :: m in more <==> m in markers
      invariant forall m :: m in markers[..i] ==> IsNearestHit(w, start, m, depth + 1, more[m])
      invariant forall m :: m in markers && m !in markers[..i] ==> more[m] == hits[m]
    {
      var marker := markers[i];
      assert markers[..i + 1] == markers[..i] + [marker];
      if more[marker].None? {
        if w.has(current, marker) {
          more := more[marker := Some(current)];
        }
      }
    }
    assert markers[..|markers|] == markers;
  }

  /** On one marker and within both limits, the two searches agree. */
  lemma SearchesAgree(w: World, start: Path, marker: Name, maxDepth: nat, r: Dominating, hit: Option<Path>)
    requires IsDominating(w, start, [marker], r) && IsNearestHit(w, start, marker, maxDepth, hit)
    ensures r.Found? && |start| - |r.dir| < maxDepth ==> hit == Some(r.dir)
    ensures hit.Some? && |start| - |hit.value| <= MAX_DOMINATING_DEPTH ==> r == Found(hit.value, [marker])
  {
    forall d | 0 <= d <= |start|
      ensures HasAny(w, Up(start, d), [marker]) <==> w.has(Up(start, d), marker)
    {
      if w.has(Up(start, d), marker) {
        assert w.has(Up(start, d), [marker][0]);
      }
    }
    if r.Found? {
      assert r.dir == Up(start, |start| - |r.dir|);
      assert Present(w, r.dir, [marker]) == [marker];
    }
    if hit.Some? {
      assert hit.value == Up(start, |start| - |hit.value|);
    }
  }

  // ---------------------------------------------------------------- where a search starts

  function ExistingStart(w: World, path: Path): Option<Path> {
    if w.isThere(path) then Some(path)
    else if path == [] then None
    else ExistingStart(w, path[..|path| - 1])
  }

  /** The nearest ancestor-or-self that exists. */
  method FindExistingStart(w: World, path: Path) returns (r: Option<Path>)
    ensures r == ExistingStart(w, path)
    ensures r.None? <==> forall d :: 0 <= d <= |path| ==> !w.isThere(Up(path, d))
    ensures r.Some? ==> r.value <= path && w.isThere(r.value)
    ensures r.Some? ==> forall d :: 0 <= d < |path| - |r.value| ==> !w.isThere(Up(path, d))
  {
    var current := path;
    assert Up(path, 0) == path;
    while !w.isThere(current)
      invariant current <= path && ExistingStart(w, current) == ExistingStart(w, path)
      invariant forall d :: 0 <= d < |path| - |current| ==> !w.isThere(Up(path, d))
      decreases |current|
    {
      assert current == Up(path, |path| - |current|);
      var parent := Parent(current);
      if parent.None? {
        return None;
      }
      current := parent.value;
    }
    assert current == Up(path, |path| - |current|);
    r := Some(current);
  }

  function AsSearchDir(w: World, path: Path): Option<Path> {
    if w.isDir(path) then Some(path) else Parent(path)
  }

  /** The directory in which the search for a file's markers begins. */
  function SearchStart(w: World, file: Path): Option<Path> {
    var existing := ExistingStart(w, file);
    if existing.None? then None else AsSearchDir(w, existing.value)
  }

  /** A search begins in the file's nearest existing ancestor-or-self if that is a directory, else above it. */
  lemma StartsInDirectory(w: World, file: Path, levels: nat)
    requires levels <= |file| && w.isThere(Up(file, levels)) && forall d :: 0 <= d < levels ==> !w.isThere(Up(file, d))
    ensures w.isDir(Up(file, levels)) ==> SearchStart(w, file) == Some(Up(file, levels))
    ensures !w.isDir(Up(file, levels)) ==>
      SearchStart(w, file) == if levels == |file| then None else Some(Up(file, levels + 1))
  {
    ExistingIsNearest(w, file, levels);
    if levels < |file| {
      UpIsParent(file, levels);
    }
  }

  lemma {:induction false} ExistingIsNearest(w: World, path: Path, levels: nat)
    requires levels <= |path| && w.isThere(Up(path, levels)) && forall d :: 0 <= d < levels ==> !w.isThere(Up(path, d))
    ensures ExistingStart(w, path) == Some(Up(path, levels))
  {
    assert Up(path, 0) == path;
    if levels > 0 {
      var parent := path[..|path| - 1];
      assert forall d :: 0 <= d <= |parent| ==> Up(parent, d) == Up(path, d + 1);
      ExistingIsNearest(w, parent, levels - 1);
    }
  }

  /** What the client is told: marker paths, possibly none, or an error. */
  function MarkerPaths(r: Dominating): Option<seq<(Path, Name)>> {
    match r
    case TooDeep => None
    case NotFound => Some([])
    case Found(dir, found) => Some(seq(|found|, i requires 0 <= i < |found| => (dir, found[i])))
  }

  /** The client gets an error exactly for too deep a search, and otherwise one path for every marker found. */
  lemma MarkerPathsMean(r: Dominating)
    ensures MarkerPaths(r).None? <==> r.TooDeep?
    ensures r.NotFound? ==> MarkerPaths(r) == Some([])
    ensures r.Found? ==>
      && MarkerPaths(r).Some? && |MarkerPaths(r).value| == |r.names|
      && forall i :: 0 <= i < |r.names| ==> MarkerPaths(r).value[i] == (r.dir, r.names[i])
  {
  }

  /** The markers of the nearest marked ancestor; without a place to start there are none. */
  method LocateDominatingFileMulti(w: World, file: Path, names: seq<Name>) returns (paths: Option<seq<(Path, Name)>>)
    ensures (forall d :: 0 <= d <= |file| ==> !w.isThere(Up(file, d))) ==> paths == Some([])
    ensures SearchStart(w, file).None? ==> paths == Some([])
    ensures SearchStart(w, file).Some? ==>
      exists r :: IsDominating(w, SearchStart(w, file).value, names, r) && paths == MarkerPaths(r)
  {
    var existing := FindExistingStart(w, file);
    if existing.None? {
      return Some([]);
    }
    var start := AsSearchDir(w, existing.value);
    if start.None? {
      return Some([]);
    }
    var r := FindDominatingDir(w, start.value, names);
    paths := MarkerPaths(r);
  }

  /** The lexically nearest ancestor of the start that is the same directory as the one found. */
  method RemapToLexicalAncestor(w: World, start: Path, found: Path) returns (r: Path)
    ensures w.canonical(r) == w.canonical(found)
    ensures r == found || r <= start
    ensures found <= start ==> found <= r <= start
    ensures r <= start ==> forall d :: 0 <= d < |start| - |r| ==> w.canonical(Up(start, d)) != w.canonical(found)
    ensures !(r <= start) ==> forall d :: 0 <= d <= |start| ==> w.canonical(Up(start, d)) != w.canonical(found)
  {
    var target := w.canonical(found);
    assert found <= start ==> found == Up(start, |start| - |found|);
    var current := start;
    while true
      invariant current <= start
      invariant forall d :: 0 <= d < |start| - |current| ==> w.canonical(Up(start, d)) != target
      decreases |current|
    {
      assert current == Up(start, |start| - |current|);
      if w.canonical(current) == target {
        return current;
      }
      var parent := Parent(current);
      if parent.None? {
        return found;
      }
      current := parent.value;
    }
  }
}
