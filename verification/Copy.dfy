/**
 The server's file.copy: the file system is changed in place, entry by entry, in whatever order the
 source directory is enumerated.
 */
module Copy {
  import opened Prelude
  import opened FileTree

  /**
   No symbolic link of the destination is followed: none stands where the source has a directory,
   nor, without overwrite, where it has a regular file.
   */
  ghost predicate Direct(src: Node, dest: Option<Node>, overwrite: bool) {
    match src
    case Dir(entries) =>
      && !(dest.Some? && dest.value.Link?)
      && forall n :: n in entries ==> Direct(entries[n], Entry(Entries(dest), n), overwrite)
    case File(_) => overwrite || !(dest.Some? && dest.value.Link?)
    case Link(_) => true
  }

  /** A link of the destination that copying to this path of the source would follow. */
  predicate InTheWay(src: Node, dest: Option<Node>, overwrite: bool, path: Path) {
    && Get(src, path).Some? && GetIn(dest, path).Some? && GetIn(dest, path).value.Link?
    && (Get(src, path).value.Dir? || (Get(src, path).value.File? && !overwrite))
  }

  lemma {:induction false} NothingInTheWay(src: Node, dest: Option<Node>, overwrite: bool, path: Path)
    requires Direct(src, dest, overwrite)
    ensures !InTheWay(src, dest, overwrite, path)
  {
    if path != [] && src.Dir? && path[0] in src.entries {
      NothingInTheWay(src.entries[path[0]], Entry(Entries(dest), path[0]), overwrite, path[1..]);
    }
  }

  lemma {:induction false} SomethingInTheWay(src: Node, dest: Option<Node>, overwrite: bool) returns (path: Path)
    requires !Direct(src, dest, overwrite)
    ensures InTheWay(src, dest, overwrite, path)
  {
    if !src.Dir? || (dest.Some? && dest.value.Link?) {
      path := [];
    } else {
      var n :| n in src.entries && !Direct(src.entries[n], Entry(Entries(dest), n), overwrite);
      var below := SomethingInTheWay(src.entries[n], Entry(Entries(dest), n), overwrite);
      path := [n] + below;
      assert path[1..] == below;
    }
  }

  lemma DirectIffNothingInTheWay(src: Node, dest: Option<Node>, overwrite: bool)
    ensures Direct(src, dest, overwrite) <==> forall path :: !InTheWay(src, dest, overwrite, path)
  {
    if Direct(src, dest, overwrite) {
      forall path ensures !InTheWay(src, dest, overwrite, path) {
        NothingInTheWay(src, dest, overwrite, path);
      }
    } else {
      var path := SomethingInTheWay(src, dest, overwrite);
    }
  }

  /** Lookup of a path meets no symbolic link, not even at its end. */
  predicate LinkFree(node: Node, path: Path) {
    !node.Link? && (path != [] && node.Dir? && path[0] in node.entries ==> LinkFree(node.entries[path[0]], path[1..]))
  }

  /** That is, no front part of the path names a link. */
  lemma {:induction false} LinkFreeIffNoLinkOnTheWay(node: Node, path: Path)
    ensures LinkFree(node, path) <==> forall k :: 0 <= k <= |path| ==> !IsLinkAt(node, path[..k])
  {
    assert path[..0] == [];
    forall k | 1 <= k <= |path|
      ensures path[..k][0] == path[0] && path[..k][1..] == path[1..][..k - 1]
    {
    }
    if path != [] && node.Dir? && path[0] in node.entries {
      var child := node.entries[path[0]];
      LinkFreeIffNoLinkOnTheWay(child, path[1..]);
      forall j | 0 <= j <= |path[1..]|
        ensures IsLinkAt(child, path[1..][..j]) == IsLinkAt(node, path[..j + 1])
      {
      }
    }
  }

  predicate IsLinkAt(node: Node, path: Path) {
    Get(node, path).Some? && Get(node, path).value.Link?
  }

  lemma {:induction false} LinkFreeEnd(node: Node, path: Path)
    requires LinkFree(node, path)
    ensures Get(node, path).Some? ==> !Get(node, path).value.Link?
  {
    if path != [] && node.Dir? && path[0] in node.entries {
      LinkFreeEnd(node.entries[path[0]], path[1..]);
    }
  }

  lemma {:induction false} PutPlaceIsLinkFree(node: Node, path: Path)
    requires CanPut(node, path) && !node.Link? && !(Get(node, path).Some? && Get(node, path).value.Link?)
    ensures LinkFree(node, path)
  {
    if path != [] && path[0] in node.entries {
      if |path| == 1 {
        assert Get(node.entries[path[0]], path[1..]) == Some(node.entries[path[0]]);
      } else {
        assert !node.entries[path[0]].Link?;
        PutPlaceIsLinkFree(node.entries[path[0]], path[1..]);
      }
    }
  }

  /** The part of the overlay that is done when these names of the source have been handled. */
  function Partial(src: map<Name, Node>, dest: map<Name, Node>, done: set<Name>): map<Name, Node> {
    map n | n in (done * src.Keys) + dest.Keys ::
      if n in done && n in src then Overlay(src[n], Entry(dest, n)) else dest[n]
  }

  lemma PartialNext(src: map<Name, Node>, dest: map<Name, Node>, done: set<Name>, n: Name)
    requires done <= src.Keys && n in src && n !in done
    ensures Entry(Partial(src, dest, done), n) == Entry(dest, n)
    ensures Partial(src, dest, done + {n}) == Partial(src, dest, done)[n := Overlay(src[n], Entry(dest, n))]
  {
  }

  lemma PartialEnds(src: Node, dest: Option<Node>)
    requires src.Dir?
    ensures Partial(src.entries, Entries(dest), {}) == Entries(dest)
    ensures Dir(Partial(src.entries, Entries(dest), src.entries.Keys)) == Overlay(src, dest)
  {
  }

  lemma PartialIsPartway(src: Node, dest: Option<Node>, done: set<Name>)
    requires src.Dir? && (dest.Some? ==> dest.value.Dir?)
    ensures Partway(src, dest, Some(Dir(Partial(src.entries, Entries(dest), done))))
  {
    var now := Partial(src.entries, Entries(dest), done);
    forall n | n in src.entries ensures Partway(src.entries[n], Entry(Entries(dest), n), Entry(now, n)) {
      assert n in done ==> Entry(now, n) == Some(Overlay(src.entries[n], Entry(Entries(dest), n)));
    }
  }

  lemma PartialThenPart(src: Node, dest: Option<Node>, done: set<Name>, n: Name, y: Node)
    requires src.Dir? && (dest.Some? ==> dest.value.Dir?) && n in src.entries && n !in done
    requires Partway(src.entries[n], Entry(Entries(dest), n), Some(y))
    ensures Partway(src, dest, Some(Dir(Partial(src.entries, Entries(dest), done)[n := y])))
  {
    var now := Partial(src.entries, Entries(dest), done)[n := y];
    forall m | m in src.entries ensures Partway(src.entries[m], Entry(Entries(dest), m), Entry(now, m)) {
      assert m != n && m in done ==> Entry(now, m) == Some(Overlay(src.entries[m], Entry(Entries(dest), m)));
    }
  }

  class FileSystem {
    var root: Node

    constructor (root: Node)
      ensures this.root == root
    {
      this.root := root;
    }

    /** Nothing has changed at any place that is not on the way to, at, or below the given path. */
    twostate predicate OnlyAt(path: Path)
      reads this
    {
      forall q :: Disjoint(path, q) ==> Get(root, q) == Get(old(root), q)
    }

    /** The destination is the only change, and its own state is between the old one and the overlay. */
    ghost predicate StoppedAt(dest: Path, made: Node, node: Node, was: Option<Node>)
      reads this
    {
      && CanPut(made, dest) && Get(root, dest).Some?
      && root == Put(made, dest, Get(root, dest).value)
      && Partway(node, was, Get(root, dest))
    }

    /** All components exist as directories, or are created; otherwise nothing is changed. */
    method CreateDirAll(path: Path) returns (ok: bool)
      requires LinkFree(root, path)
      modifies this
      ensures ok == Mkdirs(old(root), path).Some?
      ensures root == if ok then Mkdirs(old(root), path).value else old(root)
      ensures OnlyAt(path)
    {
      var made := Mkdirs(root, path);
      ok := made.Some?;
      if ok {
        forall q | Disjoint(path, q) ensures Get(made.value, q) == Get(root, q) {
          MkdirsElsewhere(root, path, q);
        }
        root := made.value;
      }
    }

    /** Removes a directory with all it contains, or any other entry; its parent stays. */
    method RemovePathForOverwrite(path: Path)
      requires path != [] && CanPut(root, path) && Get(root, path).Some?
      modifies this
      ensures root == Remove(old(root), path)
      ensures OnlyAt(path)
    {
      ghost var before := root;
      root := Remove(root, path);
      forall q | Disjoint(path, q) ensures Get(root, q) == Get(before, q) {
        PutElsewhere(before, path, before, q);
      }
    }

    /** Fails over anything that exists. */
    method Symlink(target: string, path: Path) returns (ok: bool)
      requires path != [] && CanPut(root, path)
      modifies this
      ensures ok == Get(old(root), path).None?
      ensures root == if ok then Put(old(root), path, Link(target)) else old(root)
      ensures OnlyAt(path)
    {
      ghost var before := root;
      ok := Get(root, path).None?;
      if ok {
        root := Put(root, path, Link(target));
        forall q | Disjoint(path, q) ensures Get(root, q) == Get(before, q) {
          PutElsewhere(before, path, Link(target), q);
        }
      }
    }

    /** Writes a file anew or over an old one; fails over a directory.  The result is its size. */
    method CopyFile(src: Path, dest: Path) returns (copied: Option<nat>)
      requires Get(root, src).Some? && Get(root, src).value.File?
      requires dest != [] && CanPut(root, dest)
      requires Get(root, dest).Some? ==> !Get(root, dest).value.Link?
      modifies this
      ensures copied.Some? <==> !(Get(old(root), dest).Some? && Get(old(root), dest).value.Dir?)
      ensures copied.Some? ==> copied.value == |Get(old(root), src).value.data|
      ensures root == if copied.Some? then Put(old(root), dest, Get(old(root), src).value) else old(root)
      ensures OnlyAt(dest)
    {
      ghost var before := root;
      var there := Get(root, dest);
      if there.Some? && there.value.Dir? {
        copied := None;
      } else {
        var file := Get(root, src).value;
        root := Put(root, dest, File(file.data));
        copied := Some(|file.data|);
        forall q | Disjoint(dest, q) ensures Get(root, q) == Get(before, q) {
          PutElsewhere(before, dest, file, q);
        }
      }
    }

    /** One entry of a directory that is being copied; the directory at the destination exists. */
    method CopyEntry(src: Path, dest: Path, overwrite: bool, ghost node: Node) returns (copied: Option<nat>)
      requires Get(root, src) == Some(node) && Disjoint(src, dest)
      requires dest != [] && CanPut(root, dest) && Direct(node, Get(root, dest), overwrite)
      modifies this
      ensures copied.Some? <==> !Conflict(node, Get(old(root), dest), overwrite)
      ensures copied.Some? ==>
        root == Put(old(root), dest, Overlay(node, Get(old(root), dest))) && copied.value == Size(node)
      ensures copied.None? ==> root == old(root) || StoppedAt(dest, old(root), node, Get(old(root), dest))
      ensures OnlyAt(dest)
      decreases node, 1
    {
      ghost var before := root;
      var entry := Get(root, src).value;
      match entry
      case Dir(_) =>
        MkdirsChild(root, dest);
        PutPlaceIsLinkFree(root, dest);
        copied := CopyDirRecursive(src, dest, overwrite, node);
        if copied.Some? {
          AfterMkdirs(before, dest, Overlay(node, Get(before, dest)));
        } else if root != before {
          AfterMkdirs(before, dest, Get(root, dest).value);
        }
      case Link(target) =>
        if overwrite && Get(root, dest).Some? {
          RemovePathForOverwrite(dest);
          PutRemove(before, dest, node);
        }
        var ok := Symlink(target, dest);
        copied := if ok then Some(0) else None;
      case File(_) =>
        if overwrite && Get(root, dest).Some? {
          RemovePathForOverwrite(dest);
          PutRemove(before, dest, node);
        }
        copied := CopyFile(src, dest);
    }

    /**
     The recursive copy.  It succeeds exactly when no entry conflicts; then the destination is the
     overlay of the source on what was there, the total is the size of the source's files, and
     nothing outside the destination has changed, in particular not the source.
     */
    method CopyDirRecursive(src: Path, dest: Path, overwrite: bool, ghost node: Node) returns (copied: Option<nat>)
      requires Get(root, src) == Some(node) && node.Dir? && Disjoint(src, dest)
      requires LinkFree(root, dest) && Direct(node, Get(root, dest), overwrite)
      modifies this
      ensures copied.Some? <==> Mkdirs(old(root), dest).Some? && !Conflict(node, Get(old(root), dest), overwrite)
      ensures copied.Some? ==>
        && CanPut(Mkdirs(old(root), dest).value, dest)
        && root == Put(Mkdirs(old(root), dest).value, dest, Overlay(node, Get(old(root), dest)))
        && copied.value == Size(node)
      ensures copied.None? ==>
        || root == old(root)
        || (Mkdirs(old(root), dest).Some? && StoppedAt(dest, Mkdirs(old(root), dest).value, node, Get(old(root), dest)))
      ensures OnlyAt(dest)
      ensures Get(root, src) == Some(node)
      decreases node, 0
    {
      hide Partial, Overlay, Put, Mkdirs, CanPut, Remove, LinkFree;
      ghost var before := root;
      ghost var there := Get(root, dest);
      ghost var under := Entries(there);
      var ok := CreateDirAll(dest);
      if !ok {
        return None;
      }
      ghost var made := root;
      AfterMkdirs(before, dest, node);
      PartialEnds(node, there);
      var entries := Get(root, src).value.entries;
      var remaining := entries.Keys;
      var total := 0;
      PutSame(made, dest);
      assert node.entries.Keys - node.entries.Keys == {};
      while remaining != {}
        invariant remaining <= node.entries.Keys
        invariant root == Put(made, dest, Dir(Partial(node.entries, under, node.entries.Keys - remaining)))
        invariant forall n :: n in node.entries && n !in remaining ==>
          !Conflict(node.entries[n], Entry(under, n), overwrite)
        invariant total == SizeOf(node, node.entries.Keys - remaining)
        invariant forall q :: Disjoint(dest, q) ==> Get(root, q) == Get(before, q)
      {
        var name :| name in remaining; // the order of enumeration is the system's
        ghost var done := node.entries.Keys - remaining;
        ghost var x := Overlay(node.entries[name], Entry(under, name));
        ghost var now := root;
        PartialNext(node.entries, under, done, name);
        GetPut(made, dest, Dir(Partial(node.entries, under, done)));
        GetChild(now, dest, name);
        GetChild(now, src, name);
        PutChild(now, dest, name, x);
        ChildrenDisjoint(src, dest, name);
        var n := CopyEntry(src + [name], dest + [name], overwrite, node.entries[name]);
        forall q | Disjoint(dest, q) ensures Get(root, q) == Get(before, q) {
          assert Disjoint(dest + [name], q);
        }
        if n.None? {
          if root == now {
            PartialIsPartway(node, there, done);
          } else {
            var y := Get(root, dest + [name]).value;
            PutChild(now, dest, name, y);
            PutPut(made, dest, Dir(Partial(node.entries, under, done)),
                   Dir(Partial(node.entries, under, done)[name := y]));
            GetPut(made, dest, Dir(Partial(node.entries, under, done)[name := y]));
            PartialThenPart(node, there, done, name, y);
          }
          return None;
        }
        PutPut(made, dest, Dir(Partial(node.entries, under, done)), Dir(Partial(node.entries, under, done + {name})));
        SizeOfSplit(node, done + {name}, name);
        assert done + {name} - {name} == done;
        assert node.entries.Keys - (remaining - {name}) == done + {name};
        remaining := remaining - {name};
        total := total + n.value;
      }
      assert node.entries.Keys - {} == node.entries.Keys;
      copied := Some(total);
    }

    /**
     The request handler: into an existing directory the copy goes under the source's own name, and
     the overwrite flag only matters for directories.  Links on the way are followed.
     */
    method Copy(src: Path, dest: Path, overwrite: bool, names: Resolution) returns (copied: Option<nat>)
      requires Resolves(root, names)
      requires var from := GetAt(root, names.follow(src));
        var place := Place(root, src, dest, names);
        from.Some? && place.Some? ==>
          && Disjoint(names.follow(src).value, place.value)
          && (from.value.Dir? ==> Direct(from.value, Get(root, place.value), overwrite))
      modifies this
      ensures var was := old(root);
        var from, place := GetAt(was, names.follow(src)), Place(was, src, dest, names);
        if from.None? || place.None? then copied.None? && root == was
        else
          && Get(root, names.follow(src).value) == from
          && OnlyAt(place.value)
          && var over := Get(was, place.value);
             if from.value.Dir? then
               && (copied.Some? <==> Mkdirs(was, place.value).Some? && !Conflict(from.value, over, overwrite))
               && (copied.Some? ==>
                     && CanPut(Mkdirs(was, place.value).value, place.value)
                     && root == Put(Mkdirs(was, place.value).value, place.value, Overlay(from.value, over))
                     && copied.value == Size(from.value))
               && (copied.None? ==>
                     || root == was
                     || (Mkdirs(was, place.value).Some?
                         && StoppedAt(place.value, Mkdirs(was, place.value).value, from.value, over)))
             else
               && (copied.Some? <==> CanPut(was, place.value) && !(over.Some? && over.value.Dir?))
               && root == (if copied.Some? then Put(was, place.value, from.value) else was)
               && (copied.Some? ==> copied.value == Size(from.value))
      ensures var at := if IsDirAt(old(root), Some(dest)) && src != [] then dest + [src[|src| - 1]] else dest;
        copied.Some? && LinkFree(old(root), dest) && LinkFree(old(root), at) ==>
          && Get(root, at) == Some(Overlay(Get(old(root), names.follow(src).value).value, Get(old(root), at)))
          && OnlyAt(at)
    {
      ghost var before := root;
      if LinkFree(root, dest) {
        PlacedByName(root, src, dest, names);
      }
      var target := dest;
      if IsDirAt(root, names.follow(dest)) && src != [] {
        target := dest + [src[|src| - 1]];
      }
      var origin := names.follow(src);
      var from := GetAt(root, origin);
      if from.None? {
        return None;
      }
      LinkFreeEnd(root, origin.value);
      if from.value.Dir? {
        var place := names.follow(target);
        if place.None? {
          return None; // a dangling link is in the way
        }
        copied := CopyDirRecursive(origin.value, place.value, overwrite, from.value);
        if copied.Some? {
          GetPut(Mkdirs(before, place.value).value, place.value, Overlay(from.value, Get(before, place.value)));
        }
      } else {
        var place := names.open(target);
        if place.None? || !CanPut(root, place.value) {
          return None;
        }
        LinkFreeEnd(root, place.value);
        copied := CopyFile(origin.value, place.value);
        GetPut(before, place.value, from.value);
      }
    }
  }

  /**
   The system's own business: where a path leads, if no dangling link is on it, and which file is
   written when the path is opened for writing, which also creates what a dangling link points to.
   */
  datatype Resolution = Resolution(follow: Path -> Option<Path>, open: Path -> Option<Path>)

  /** What is known of it: the results lead through no links, and paths without links are left alone. */
  ghost predicate Resolves(node: Node, names: Resolution) {
    forall p ::
      && (names.follow(p).Some? ==> LinkFree(node, names.follow(p).value) && names.open(p) == names.follow(p))
      && (names.open(p).Some? ==> LinkFree(node, names.open(p).value))
      && (LinkFree(node, p) ==> names.follow(p) == Some(p))
  }

  /** Where the copy goes. */
  function Place(root: Node, src: Path, dest: Path, names: Resolution): Option<Path> {
    var from := GetAt(root, names.follow(src));
    var target := Target(root, src, dest, names);
    if from.Some? && from.value.Dir? then names.follow(target) else names.open(target)
  }

  function GetAt(node: Node, place: Option<Path>): Option<Node> {
    if place.None? then None else Get(node, place.value)
  }

  predicate IsDirAt(node: Node, place: Option<Path>) {
    GetAt(node, place).Some? && GetAt(node, place).value.Dir?
  }

  function Target(root: Node, src: Path, dest: Path, names: Resolution): Path {
    if IsDirAt(root, names.follow(dest)) && src != [] then dest + [src[|src| - 1]] else dest
  }

  /** A copy into a directory goes under the last component of the source's path, any other to the path given. */
  lemma PlacedByName(root: Node, src: Path, dest: Path, names: Resolution)
    requires Resolves(root, names) && LinkFree(root, dest)
    ensures var inside := Get(root, dest).Some? && Get(root, dest).value.Dir? && src != [];
      && (inside && LinkFree(root, dest + [src[|src| - 1]]) ==>
            Place(root, src, dest, names) == Some(dest + [src[|src| - 1]]))
      && (!inside ==> Place(root, src, dest, names) == Some(dest))
  {
  }

  /** Over a link that leads to no directory, a file goes where opening leads, and a directory where it points. */
  lemma PlacedThroughLink(root: Node, src: Path, dest: Path, names: Resolution)
    requires !IsDirAt(root, names.follow(dest)) && GetAt(root, names.follow(src)).Some?
    ensures GetAt(root, names.follow(src)).value.File? ==> Place(root, src, dest, names) == names.open(dest)
    ensures GetAt(root, names.follow(src)).value.Dir? ==> Place(root, src, dest, names) == names.follow(dest)
  {
  }

  lemma PrefixWithoutLast(p: Path, q: Path, n: Name)
    requires p + [n] <= q + [n]
    ensures p <= q
  {
    assert p == (p + [n])[..|p|] == (q + [n])[..|p|] == q[..|p|];
  }

  lemma ChildrenDisjoint(p: Path, q: Path, n: Name)
    requires Disjoint(p, q)
    ensures Disjoint(p + [n], q + [n])
  {
    if p + [n] <= q + [n] {
      PrefixWithoutLast(p, q, n);
    } else if q + [n] <= p + [n] {
      PrefixWithoutLast(q, p, n);
    }
  }

  /** Writing back what is there changes nothing. */
  lemma {:induction false} PutSame(node: Node, path: Path)
    requires CanPut(node, path) && Get(node, path).Some?
    ensures Put(node, path, Get(node, path).value) == node
  {
    if |path| == 1 {
      assert Get(node.entries[path[0]], path[1..]) == Some(node.entries[path[0]]);
      assert node.entries[path[0] := node.entries[path[0]]] == node.entries;
    } else if |path| > 1 {
      PutSame(node.entries[path[0]], path[1..]);
      assert node.entries[path[0] := node.entries[path[0]]] == node.entries;
    }
  }
}
