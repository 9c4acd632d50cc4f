/**
 The client's check of a server answer: a dominating directory only counts if no directory on the
 way to it matches the pattern that stops such searches.
 */
module StopFilter {
  import opened Prelude
  import Ancestors

  type Path = Ancestors.Path

  /** Where a search for a name begins: in the directory itself if it was given as one. */
  function SearchDirectory(path: Path, asDirectory: bool): Path {
    if asDirectory || path == [] then path else path[..|path| - 1]
  }

  /** No directory from the start, inclusive, up to the target, exclusive, matches the pattern. */
  predicate Unstopped(stop: Path -> bool, start: Path, target: Path) {
    forall d :: 0 <= d <= |start| && |start| - d > |target| ==> !stop(Ancestors.Up(start, d))
  }

  /** Some directory matches the pattern with no target at or below it. */
  predicate StopsBefore(stop: Path -> bool, start: Path, target: Path) {
    exists d :: 0 <= d <= |start| && stop(Ancestors.Up(start, d)) &&
      forall e :: 0 <= e <= d ==> Ancestors.Up(start, e) != target
  }

  method BeforeStop(stop: Option<Path -> bool>, searchPath: Path, asDirectory: bool, target: Path)
    returns (accepted: bool)
    ensures accepted <==>
      stop.None? ||
      (target <= SearchDirectory(searchPath, asDirectory)
       && Unstopped(stop.value, SearchDirectory(searchPath, asDirectory), target))
    ensures stop.Some? && asDirectory ==>
      (accepted <==> target <= searchPath && Unstopped(stop.value, searchPath, target))
    ensures stop.Some? && !asDirectory && searchPath != [] ==>
      var above := Ancestors.Up(searchPath, 1);
      (accepted <==> target <= above && Unstopped(stop.value, above, target))
  {
    if stop.None? {
      return true;
    }
    var start := SearchDirectory(searchPath, asDirectory);
    var current := Some(start);
    var blocked := false;
    while current.Some? && !blocked && current.value != target
      invariant current.Some? ==> current.value <= start
      invariant current.Some? && !blocked ==>
        forall d :: 0 <= d < |start| - |current.value| ==>
          !stop.value(Ancestors.Up(start, d)) && Ancestors.Up(start, d) != target
      invariant blocked ==> StopsBefore(stop.value, start, target)
      invariant current.None? && !blocked ==> forall d :: 0 <= d <= |start| ==> Ancestors.Up(start, d) != target
      decreases if current.Some? then |current.value| + 1 else 0
    {
      ghost var depth := |start| - |current.value|;
      assert current.value == Ancestors.Up(start, depth);
      if stop.value(current.value) {
        blocked := true;
      }
      current := Ancestors.Parent(current.value);
    }
    if target <= start {
      assert target == Ancestors.Up(start, |start| - |target|);
    }
    accepted := !blocked && current == Some(target);
  }

  /** Accepted answers compose: what is reachable through an accepted directory is accepted. */
  lemma AcceptanceComposes(stop: Path -> bool, start: Path, middle: Path, target: Path)
    requires target <= middle <= start
    ensures Unstopped(stop, start, target) <==> Unstopped(stop, start, middle) && Unstopped(stop, middle, target)
  {
    forall d | 0 <= d <= |middle|
      ensures Ancestors.Up(middle, d) == Ancestors.Up(start, |start| - |middle| + d)
    {
    }
    if Unstopped(stop, start, middle) && Unstopped(stop, middle, target) {
      forall d | 0 <= d <= |start| && |start| - d > |target|
        ensures !stop(Ancestors.Up(start, d))
      {
        if |start| - d <= |middle| {
          assert Ancestors.Up(start, d) == Ancestors.Up(middle, d - (|start| - |middle|));
        }
      }
    }
  }
}
