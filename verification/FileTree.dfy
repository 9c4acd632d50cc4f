/**
 File system trees with three kinds of entries, and what it means to overlay one tree on another.
 Lookup does not follow symbolic links.
 */
module FileTree {
  import opened Prelude
  import opened Framing

  type Name = string
  type Path = seq<Name>

  datatype Node = File(data: Bytes) | Link(target: string) | Dir(entries: map<Name, Node>)

  function Entry(entries: map<Name, Node>, n: Name): Option<Node> {
    if n in entries then Some(entries[n]) else None
  }

  /** The entries of a directory; nothing else has any. */
  function Entries(node: Option<Node>): map<Name, Node> {
    if node.Some? && node.value.Dir? then node.value.entries else map[]
  }

  function Get(node: Node, path: Path): Option<Node> {
    if path == [] then Some(node)
    else if node.Dir? && path[0] in node.entries then Get(node.entries[path[0]], path[1..])
    else None
  }

  /** The place named by the path exists or can be created in an existing directory. */
  predicate CanPut(node: Node, path: Path) {
    path == [] || (node.Dir? && (|path| == 1 || (path[0] in node.entries && CanPut(node.entries[path[0]], path[1..]))))
  }

  function Put(node: Node, path: Path, x: Node): Node
    requires CanPut(node, path)
  {
    if path == [] then x
    else if |path| == 1 then Dir(node.entries[path[0] := x])
    else Dir(node.entries[path[0] := Put(node.entries[path[0]], path[1..], x)])
  }

  function Remove(node: Node, path: Path): Node
    requires path != [] && CanPut(node, path)
  {
    if |path| == 1 then Dir(node.entries - {path[0]})
    else Dir(node.entries[path[0] := Remove(node.entries[path[0]], path[1..])])
  }

  /** Creates a directory and its missing ancestors; anything else in the way is an error. */
  function Mkdirs(node: Node, path: Path): Option<Node>
    decreases |path|
  {
    if !node.Dir? then None
    else if path == [] then Some(node)
    else
      var child := if path[0] in node.entries then node.entries[path[0]] else Dir(map[]);
      match Mkdirs(child, path[1..])
      case None => None
      case Some(made) => Some(Dir(node.entries[path[0] := made]))
  }

  predicate Disjoint(p: Path, q: Path) {
    !(p <= q) && !(q <= p)
  }

  // ---------------------------------------------------------------- lookup after update

  lemma {:induction false} GetPut(node: Node, path: Path, x: Node)
    requires CanPut(node, path)
    ensures Get(Put(node, path, x), path) == Some(x)
  {
    if |path| == 1 {
      assert Get(x, path[1..]) == Some(x);
    } else if |path| > 1 {
      GetPut(node.entries[path[0]], path[1..], x);
    }
  }

  lemma UpdateTwice(entries: map<Name, Node>, n: Name, x: Node, y: Node)
    ensures entries[n := x][n := y] == entries[n := y]
  {
  }

  lemma {:induction false} PutPut(node: Node, path: Path, x: Node, y: Node)
    requires CanPut(node, path)
    ensures CanPut(Put(node, path, x), path) && Put(Put(node, path, x), path, y) == Put(node, path, y)
  {
    if |path| > 1 {
      PutPut(node.entries[path[0]], path[1..], x, y);
      var child := node.entries[path[0]];
      UpdateTwice(node.entries, path[0], Put(child, path[1..], x), Put(child, path[1..], y));
    } else if |path| == 1 {
      UpdateTwice(node.entries, path[0], x, y);
    }
  }

  lemma {:induction false} PutRemove(node: Node, path: Path, x: Node)
    requires path != [] && CanPut(node, path)
    ensures CanPut(Remove(node, path), path) && Put(Remove(node, path), path, x) == Put(node, path, x)
    ensures Get(Remove(node, path), path) == None
  {
    if |path| > 1 {
      PutRemove(node.entries[path[0]], path[1..], x);
      var child := node.entries[path[0]];
      UpdateTwice(node.entries, path[0], Remove(child, path[1..]), Put(child, path[1..], x));
    } else {
      assert (node.entries - {path[0]})[path[0] := x] == node.entries[path[0] := x];
    }
  }

  lemma {:induction false} PutElsewhere(node: Node, path: Path, x: Node, q: Path)
    requires CanPut(node, path) && Disjoint(path, q)
    ensures Get(Put(node, path, x), q) == Get(node, q)
    ensures path != [] ==> Get(Remove(node, path), q) == Get(node, q)
  {
    if path[0] == q[0] {
      assert path == [path[0]] + path[1..] && q == [q[0]] + q[1..];
      assert |path| > 1;
      PutElsewhere(node.entries[path[0]], path[1..], x, q[1..]);
    }
  }

  lemma {:induction false} GetChild(node: Node, path: Path, n: Name)
    ensures Get(node, path + [n]) == if Get(node, path).Some? then Entry(Entries(Get(node, path)), n) else None
  {
    if path == [] {
      assert path + [n] == [n] && [n][1..] == [];
      if node.Dir? && n in node.entries {
        assert Get(node.entries[n], []) == Some(node.entries[n]);
      }
    } else {
      assert (path + [n])[0] == path[0] && (path + [n])[1..] == path[1..] + [n];
      if node.Dir? && path[0] in node.entries {
        GetChild(node.entries[path[0]], path[1..], n);
      }
    }
  }

  /** Changing an entry of a directory is changing that directory. */
  lemma {:induction false} PutChild(node: Node, path: Path, n: Name, x: Node)
    requires Get(node, path).Some? && Get(node, path).value.Dir?
    ensures CanPut(node, path) && CanPut(node, path + [n])
    ensures Put(node, path + [n], x) == Put(node, path, Dir(Get(node, path).value.entries[n := x]))
  {
    if path == [] {
      assert path + [n] == [n];
    } else {
      assert (path + [n])[0] == path[0] && (path + [n])[1..] == path[1..] + [n];
      PutChild(node.entries[path[0]], path[1..], n, x);
    }
  }

  /** A directory that was just made keeps the entries it had, and nothing else has changed. */
  lemma {:induction false} AfterMkdirs(node: Node, path: Path, x: Node)
    requires Mkdirs(node, path).Some?
    ensures var made := Mkdirs(node, path).value;
      && Get(made, path) == Some(Dir(Entries(Get(node, path))))
      && CanPut(made, path)
      && (CanPut(node, path) ==> Put(made, path, x) == Put(node, path, x))
      && (Get(node, path).Some? ==> Get(node, path).value.Dir?)
    decreases |path|
  {
    if path != [] {
      var child := if path[0] in node.entries then node.entries[path[0]] else Dir(map[]);
      AfterMkdirs(child, path[1..], x);
      var made := Mkdirs(child, path[1..]).value;
      if path[0] !in node.entries {
        NothingInside(path[1..]);
      }
      if |path| > 1 && CanPut(node, path) {
        UpdateTwice(node.entries, path[0], made, Put(made, path[1..], x));
      } else if |path| == 1 {
        UpdateTwice(node.entries, path[0], made, x);
      }
    }
  }

  lemma NothingInside(path: Path)
    ensures Entries(Get(Dir(map[]), path)) == map[]
  {
  }

  lemma {:induction false} MkdirsElsewhere(node: Node, path: Path, q: Path)
    requires Mkdirs(node, path).Some? && Disjoint(path, q)
    ensures Get(Mkdirs(node, path).value, q) == Get(node, q)
    decreases |path|
  {
    if path[0] == q[0] {
      assert path == [path[0]] + path[1..] && q == [q[0]] + q[1..];
      var child := if path[0] in node.entries then node.entries[path[0]] else Dir(map[]);
      MkdirsElsewhere(child, path[1..], q[1..]);
      if path[0] !in node.entries {
        assert q[1..] != [];
        assert Get(Dir(map[]), q[1..]) == None;
      }
    }
  }

  /** In an existing directory, making a child directory fails exactly over something else. */
  lemma {:induction false} MkdirsChild(node: Node, path: Path)
    requires CanPut(node, path)
    ensures Mkdirs(node, path).Some? <==> (Get(node, path).Some? ==> Get(node, path).value.Dir?)
  {
    if path != [] {
      if path[0] in node.entries && |path| > 1 {
        MkdirsChild(node.entries[path[0]], path[1..]);
      } else if |path| == 1 {
        assert path[1..] == [];
      }
    }
  }

  // ---------------------------------------------------------------- overlay

  /** Source entries win; names that only the destination has stay. */
  function Overlay(src: Node, dest: Option<Node>): Node {
    match src
    case Dir(entries) =>
      Dir(map n | n in entries.Keys + Entries(dest).Keys ::
        if n in entries then Overlay(entries[n], Entry(Entries(dest), n)) else Entries(dest)[n])
    case _ => src
  }

  /** Where the copy of src cannot be put over dest. */
  ghost predicate Conflict(src: Node, dest: Option<Node>, overwrite: bool) {
    match src
    case Dir(entries) =>
      || (dest.Some? && !dest.value.Dir?)
      || exists n :: n in entries && Conflict(entries[n], Entry(Entries(dest), n), overwrite)
    case Link(_) => !overwrite && dest.Some?
    case File(_) => !overwrite && dest.Some? && dest.value.Dir?
  }

  /** Why a single entry cannot be copied: a directory over something else, or, kept from overwriting, more. */
  predicate Clash(src: Node, dest: Option<Node>, overwrite: bool) {
    match src
    case Dir(_) => dest.Some? && !dest.value.Dir?
    case Link(_) => !overwrite && dest.Some?
    case File(_) => !overwrite && dest.Some? && dest.value.Dir?
  }

  predicate ClashAt(src: Node, dest: Option<Node>, overwrite: bool, path: Path) {
    && Get(src, path).Some?
    && Clash(Get(src, path).value, if dest.Some? then Get(dest.value, path) else None, overwrite)
  }

  lemma {:induction false} ClashIsConflict(src: Node, dest: Option<Node>, overwrite: bool, path: Path)
    requires ClashAt(src, dest, overwrite, path)
    ensures Conflict(src, dest, overwrite)
  {
    if path != [] {
      ClashIsConflict(src.entries[path[0]], Entry(Entries(dest), path[0]), overwrite, path[1..]);
    }
  }

  lemma {:induction false} ConflictHasClash(src: Node, dest: Option<Node>, overwrite: bool) returns (path: Path)
    requires Conflict(src, dest, overwrite)
    ensures ClashAt(src, dest, overwrite, path)
  {
    if !src.Dir? || (dest.Some? && !dest.value.Dir?) {
      path := [];
    } else {
      var n :| n in src.entries && Conflict(src.entries[n], Entry(Entries(dest), n), overwrite);
      var below := ConflictHasClash(src.entries[n], Entry(Entries(dest), n), overwrite);
      path := [n] + below;
      assert path[1..] == below;
    }
  }

  /** A copy conflicts exactly when some path of the source clashes with what the destination has there. */
  lemma ConflictIffClashSomewhere(src: Node, dest: Option<Node>, overwrite: bool)
    ensures Conflict(src, dest, overwrite) <==> exists path :: ClashAt(src, dest, overwrite, path)
  {
    if Conflict(src, dest, overwrite) {
      var path := ConflictHasClash(src, dest, overwrite);
    } else if exists path :: ClashAt(src, dest, overwrite, path) {
      var path :| ClashAt(src, dest, overwrite, path);
      ClashIsConflict(src, dest, overwrite, path);
    }
  }

  /** The total size of the regular files in a tree, whatever the order of adding them up. */
  ghost function Size(node: Node): nat
    decreases node, 1
  {
    match node
    case File(data) => |data|
    case Link(_) => 0
    case Dir(entries) => SizeOf(node, entries.Keys)
  }

  ghost function SizeOf(node: Node, names: set<Name>): nat
    requires node.Dir? && names <= node.entries.Keys
    decreases node, 0, names
  {
    if names == {} then 0
    else
      var n :| n in names;
      Size(node.entries[n]) + SizeOf(node, names - {n})
  }

  lemma {:induction false} SizeOfSplit(node: Node, names: set<Name>, n: Name)
    requires node.Dir? && names <= node.entries.Keys && n in names
    ensures SizeOf(node, names) == Size(node.entries[n]) + SizeOf(node, names - {n})
    decreases names
  {
    var m :| m in names && SizeOf(node, names) == Size(node.entries[m]) + SizeOf(node, names - {m});
    if m != n {
      SizeOfSplit(node, names - {m}, n);
      SizeOfSplit(node, names - {n}, m);
      assert names - {m} - {n} == names - {n} - {m};
    }
  }

  /** Copying to a place with nothing there makes an exact copy. */
  lemma {:induction false} OverlayOnNothing(src: Node)
    ensures Overlay(src, None) == src
    ensures !Conflict(src, None, true) && !Conflict(src, None, false)
  {
    if src.Dir? {
      forall n | n in src.entries
        ensures Overlay(src.entries[n], None) == src.entries[n]
        ensures !Conflict(src.entries[n], None, true) && !Conflict(src.entries[n], None, false)
      {
        OverlayOnNothing(src.entries[n]);
      }
      assert Overlay(src, None).entries == src.entries;
    }
  }

  /** Copying the same source again changes nothing, and with overwrite it cannot fail. */
  lemma {:induction false} OverlayTwice(src: Node, dest: Option<Node>)
    ensures Overlay(src, Some(Overlay(src, dest))) == Overlay(src, dest)
    ensures !Conflict(src, Some(Overlay(src, dest)), true)
  {
    if src.Dir? {
      var once := Overlay(src, dest);
      forall n | n in src.entries
        ensures Overlay(src.entries[n], Some(once.entries[n])) == once.entries[n]
        ensures !Conflict(src.entries[n], Some(once.entries[n]), true)
      {
        OverlayTwice(src.entries[n], Entry(Entries(dest), n));
      }
      assert Overlay(src, Some(once)).entries == once.entries;
    }
  }

  /** Every file and link of the source is found in the overlay at its own path. */
  lemma {:induction false} SourceWins(src: Node, dest: Option<Node>, path: Path)
    requires Get(src, path).Some? && !Get(src, path).value.Dir?
    ensures Get(Overlay(src, dest), path) == Get(src, path)
  {
    if path != [] {
      SourceWins(src.entries[path[0]], Entry(Entries(dest), path[0]), path[1..]);
    }
  }

  /** What lies behind a name that a source directory lacks is as it was in the destination. */
  lemma {:induction false} DestOnlyStays(src: Node, dest: Node, above: Path, n: Name, below: Path)
    requires Get(src, above).Some? && Get(src, above).value.Dir? && n !in Get(src, above).value.entries
    ensures Get(Overlay(src, Some(dest)), above + [n] + below) == Get(dest, above + [n] + below)
  {
    var path := above + [n] + below;
    if above == [] {
      assert path[0] == n && path[1..] == below;
    } else {
      var m := above[0];
      assert path[0] == m && path[1..] == above[1..] + [n] + below;
      if m in Entries(Some(dest)) {
        DestOnlyStays(src.entries[m], dest.entries[m], above[1..], n, below);
      } else {
        OverlayOnNothing(src.entries[m]);
        MissingStaysMissing(src.entries[m], above[1..], n, below);
      }
    }
  }

  /** How far a copy can be when it fails: entry by entry, the old state or the overlay. */
  ghost predicate Partway(src: Node, was: Option<Node>, now: Option<Node>) {
    || now == was
    || now == Some(Overlay(src, was))
    || (match src
        case Dir(entries) =>
          && now.Some? && now.value.Dir? && (was.Some? ==> was.value.Dir?)
          && (forall n :: n in entries ==> Partway(entries[n], Entry(Entries(was), n), Entry(now.value.entries, n)))
          && (forall n :: n !in entries ==> Entry(now.value.entries, n) == Entry(Entries(was), n))
        case _ => false)
  }

  function GetIn(node: Option<Node>, path: Path): Option<Node> {
    if node.None? then None else Get(node.value, path)
  }

  /**
   After a failed copy, every place holds what it held before or what the overlay has there; or it is
   a directory that is a directory in the overlay, too, and was none only if nothing was there.
   */
  lemma {:induction false} PartwayPlaces(src: Node, was: Option<Node>, now: Option<Node>, path: Path)
    requires Partway(src, was, now)
    ensures var before, after, there := GetIn(was, path), Get(Overlay(src, was), path), GetIn(now, path);
      || there == before
      || there == after
      || (there.Some? && there.value.Dir? && after.Some? && after.value.Dir? && (before.Some? ==> before.value.Dir?))
  {
    if path != [] && now != was && now != Some(Overlay(src, was)) {
      var n := path[0];
      var below := Entry(Entries(was), n);
      if n in src.entries {
        PartwayPlaces(src.entries[n], below, Entry(now.value.entries, n), path[1..]);
      } else {
        assert GetIn(now, path) == GetIn(Entry(now.value.entries, n), path[1..]);
        assert GetIn(was, path) == GetIn(below, path[1..]);
      }
    }
  }

  lemma {:induction false} MissingStaysMissing(src: Node, above: Path, n: Name, below: Path)
    requires Get(src, above).Some? && Get(src, above).value.Dir? && n !in Get(src, above).value.entries
    ensures Get(src, above + [n] + below) == None
  {
    var path := above + [n] + below;
    if above == [] {
      assert path[0] == n;
    } else {
      assert path[0] == above[0] && path[1..] == above[1..] + [n] + below;
      MissingStaysMissing(src.entries[above[0]], above[1..], n, below);
    }
  }
}
