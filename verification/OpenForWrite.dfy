/** Opening a file to write: in place if it exists, else as a new file in new parent directories. */
module OpenForWrite {
  import opened Texts
  import opened OpFailures
  import opened Disk
  import opened Parents

  datatype Opened = Opened(newDirs: seq<Path>, created: bool) | NotOpened(failure: OpFailure)

  /** What a success left: the existing file as it was, or the missing parents and the new file. */
  ghost predicate OpenedWell(terms: Terms, before: Nodes, nodes: Nodes, path: Path, outcome: Opened)
    requires outcome.Opened?
  {
    if !outcome.created then nodes == before && outcome.newDirs == [] && path in before
    else
      && path !in before
      && nodes == WithDirs(before, outcome.newDirs)[path := OtherNode]
      && (forall k :: 1 <= k < |path| ==> (path[..k] in outcome.newDirs <==> path[..k] !in before))
  }

  /** Why opening failed, from what was there before: what is there cannot be opened, or the path could
      not be prepared or made. */
  ghost predicate NotOpenedFrom(terms: Terms, before: Nodes, path: Path, failure: OpFailure)
    requires path != []
  {
    if Seen(terms, before, path)
    then failure == Io(SystemReason) && (before[path] != OtherNode || exists n :: terms.full(n))
    else FailsFrom(terms, before, path, |path|, failure)
  }

  lemma CannotOpen(terms: Terms, nodes: Nodes, path: Path, n: nat)
    requires path != [] && Seen(terms, nodes, path) && OpenError(terms, nodes, path, terms.full(n)).Some?
    ensures OpenError(terms, nodes, path, terms.full(n)) != Some(NoEntry)
    ensures NotOpenedFrom(terms, nodes, path, FailedWith(OpenError(terms, nodes, path, terms.full(n)).value))
  {
  }

  lemma SeenIsThere(terms: Terms, nodes: Nodes, path: Path, n: nat)
    requires Seen(terms, nodes, path)
    ensures OpenError(terms, nodes, path, terms.full(n)) != Some(NoEntry)
  {
  }

  lemma UnpreparedFails(terms: Terms, before: Nodes, path: Path, failure: OpFailure)
    requires path != [] && FailsFrom(terms, before, path, |path| - 1, failure)
    ensures FailsFrom(terms, before, path, |path|, failure)
  {
    hide FailsFor, Seen, BlockedAbove;
  }

  /** Why the file itself could not be made in a parent that is there. */
  lemma FileFails(terms: Terms, before: Nodes, nodes: Nodes, path: Path, made: seq<Path>, n: nat)
    requires AddedOnly(terms, before, nodes, path, made)
    requires path != [] && !Seen(terms, before, path) && Preparable(terms, before, path)
    requires IsDirNode(nodes, Up(path))
    requires MakeError(terms, nodes, path, terms.full(n)).Some?
    ensures FailsFrom(terms, before, path, |path|, FailedWith(MakeError(terms, nodes, path, terms.full(n)).value))
  {
    PathIsStillAbsent(before, path, made);
    assert !Seen(terms, nodes, path);
    MadeWereAbsent(terms, before, path, made);
    SameBlocks(terms, before, path, made, path);
    UnseenBlocksNothing(terms, before, path);
    MakeErrorSays(terms, nodes, path, n);
    assert path[..|path|] == path;
    hide MakeError, BlockedAbove, Seen, Forbidden, AddedOnly;
  }

  /** What is not there blocks nothing. */
  lemma UnseenBlocksNothing(terms: Terms, nodes: Nodes, path: Path)
    requires path != [] && !Seen(terms, nodes, path)
    ensures BlockedAbove(terms, nodes, path) <==> BlockedAbove(terms, nodes, Up(path))
  {
    assert path[..|path|] == path;
    forall k | 0 <= k < |path| ensures Up(path)[..k] == path[..k] {
    }
    hide Seen, IsDirNode;
    if BlockedAbove(terms, nodes, Up(path)) {
      var k :| 0 <= k <= |Up(path)| && Seen(terms, nodes, Up(path)[..k]) && !IsDirNode(nodes, Up(path)[..k]);
      assert Seen(terms, nodes, path[..k]) && !IsDirNode(nodes, path[..k]);
    }
    if BlockedAbove(terms, nodes, path) {
      var k :| 0 <= k <= |path| && Seen(terms, nodes, path[..k]) && !IsDirNode(nodes, path[..k]);
      assert Seen(terms, nodes, Up(path)[..k]) && !IsDirNode(nodes, Up(path)[..k]);
    }
  }

  /** Opens `path`. `made` lists the directories this call made; a failure removes them again, deepest
      first, and without interference leaves the file system as it was and says why. */
  method Open(disk: Disk, path: Path) returns (outcome: Opened, ghost made: seq<Path>)
    requires path != []
    modifies disk
    ensures RisingParts(path, made)
    ensures outcome.Opened? ==> outcome.newDirs == made
    ensures outcome.Opened? && !outcome.created ==> disk.log == old(disk.log)
    ensures outcome.Opened? && outcome.created ==> disk.log == old(disk.log) + MadeAll(made) + [Created(path)]
    ensures outcome.NotOpened? ==> disk.log == old(disk.log) + MadeAll(made) + TriedAll(Reversed(made))
    ensures Quiet(disk.terms) && TreeShaped(old(disk.nodes)) ==>
              if outcome.Opened? then OpenedWell(disk.terms, old(disk.nodes), disk.nodes, path, outcome)
              else disk.nodes == old(disk.nodes) && NotOpenedFrom(disk.terms, old(disk.nodes), path, outcome.failure)
  {
    hide Quiet, WithDirs, TreeShaped, AddedOnly, Undoable, Reachable, FailsFrom, Preparable, Seen;
    made := [];
    NothingMade(disk.log);
    ghost var before := disk.nodes;
    ghost var calm := Quiet(disk.terms) && TreeShaped(disk.nodes);
    if calm { QuietNext(disk.terms, disk.tick, before); }
    var existed := disk.Lstat(path);
    if existed {
      if calm { QuietNext(disk.terms, disk.tick, before); }
      ghost var n := disk.tick;
      var error := disk.OpenExisting(path);
      if error == None {
        return Opened([], false), made;
      }
      if error != Some(NoEntry) {
        if calm { CannotOpen(disk.terms, before, path, n); }
        return NotOpened(FailedWith(error.value)), made;
      }
      if calm {
        SeenIsThere(disk.terms, before, path, n);
        assert false;
      }
    }
    var parents;
    parents, made := CreateParents(disk, path);
    if parents.Unmade? {
      if calm { UnpreparedFails(disk.terms, before, path, parents.failure); }
      return NotOpened(parents.failure), made;
    }
    if calm {
      QuietNext(disk.terms, disk.tick, disk.nodes);
      AddedIsUndoable(disk.terms, before, disk.nodes, path, made);
      PathIsStillAbsent(before, path, made);
    }
    ghost var nodes, n := disk.nodes, disk.tick;
    var error := disk.OpenNew(path);
    if error == None {
      return Opened(parents.made, true), made;
    }
    if calm { FileFails(disk.terms, before, nodes, path, made, n); }
    var failure := UndoParents(disk, parents.made, FailedWith(error.value), path, before);
    return NotOpened(failure), made;
  }

  lemma PathIsStillAbsent(before: Nodes, path: Path, made: seq<Path>)
    requires RisingParts(path, made)
    ensures path in WithDirs(before, made) <==> path in before
  {
    WithDirsKeys(before, made, path);
  }
}
