/** Making the parent directories of a path, and undoing it. */
module Parents {
  import opened Texts
  import opened OpFailures
  import opened Disk

  function FailedWith(error: IoError): OpFailure {
    match error
    case NoEntry => NotFound
    case NotDir => NotADirectory
    case Denied => PermissionDenied
    case Exists => Io(SystemReason)
    case OtherError => Io(SystemReason)
  }

  /** The parts of `path` from the one with `from` elements up to its parent, top first. */
  function PartsFrom(path: Path, from: nat): (parts: seq<Path>)
    requires 1 <= from <= |path|
    ensures |parts| == |path| - from
    ensures forall i :: 0 <= i < |parts| ==> parts[i] == path[..from + i]
  {
    seq(|path| - from, i requires 0 <= i < |path| - from => path[..from + i])
  }

  /** Parts of `path` below root_dir and above `path` itself, each deeper than the one before it. */
  ghost predicate RisingParts(path: Path, dirs: seq<Path>) {
    && (forall i :: 0 <= i < |dirs| ==> 1 <= |dirs[i]| < |path| && dirs[i] == path[..|dirs[i]|])
    && (forall i, j :: 0 <= i < j < |dirs| ==> |dirs[i]| < |dirs[j]|)
  }

  function Reversed<T>(s: seq<T>): (r: seq<T>)
    ensures |r| == |s| && forall i :: 0 <= i < |s| ==> r[i] == s[|s| - 1 - i]
  {
    seq(|s|, i requires 0 <= i < |s| => s[|s| - 1 - i])
  }

  ghost function MadeAll(dirs: seq<Path>): (changes: seq<Change>)
    ensures |changes| == |dirs|
  {
    seq(|dirs|, i requires 0 <= i < |dirs| => Made(dirs[i]))
  }

  ghost function TriedAll(dirs: seq<Path>): (changes: seq<Change>)
    ensures |changes| == |dirs|
  {
    seq(|dirs|, i requires 0 <= i < |dirs| => Tried(dirs[i]))
  }

  /** The nodes with these directories added. */
  ghost function WithDirs(nodes: Nodes, dirs: seq<Path>): Nodes {
    if dirs == [] then nodes else WithDirs(nodes, dirs[..|dirs| - 1])[dirs[|dirs| - 1] := DirNode]
  }

  lemma {:induction false} WithDirsKeys(nodes: Nodes, dirs: seq<Path>, p: Path)
    ensures p in WithDirs(nodes, dirs) <==> p in nodes || p in dirs
    ensures p in dirs ==> WithDirs(nodes, dirs)[p] == DirNode
    ensures p !in dirs && p in nodes ==> WithDirs(nodes, dirs)[p] == nodes[p]
  {
    if dirs != [] {
      WithDirsKeys(nodes, dirs[..|dirs| - 1], p);
      assert dirs == dirs[..|dirs| - 1] + [dirs[|dirs| - 1]];
    }
  }

  // ----- Undoing -----

  /** A directory that can be made and removed. */
  ghost predicate CanGo(terms: Terms, nodes: Nodes, d: Path) {
    d != [] && d !in nodes && Reachable(terms, d) && !terms.readOnly(Up(d))
  }

  /** Directories that were made: absent before, in a chain, each removable without interference. */
  ghost predicate Undoable(terms: Terms, nodes: Nodes, path: Path, dirs: seq<Path>) {
    && TreeShaped(nodes)
    && RisingParts(path, dirs)
    && (forall d :: d in dirs ==> CanGo(terms, nodes, d))
  }

  /** The last directory made has nothing in it and can be removed. */
  lemma LastCanGo(terms: Terms, nodes: Nodes, path: Path, dirs: seq<Path>)
    requires Undoable(terms, nodes, path, dirs) && dirs != []
    ensures RemoveError(terms, WithDirs(nodes, dirs), dirs[|dirs| - 1]) == None
    ensures WithDirs(nodes, dirs) - {dirs[|dirs| - 1]} == WithDirs(nodes, dirs[..|dirs| - 1])
  {
    var last, front := dirs[|dirs| - 1], dirs[..|dirs| - 1];
    assert last in dirs && CanGo(terms, nodes, last);
    WithDirsKeys(nodes, dirs, last);
    forall q | q in WithDirs(nodes, dirs) && q != [] ensures Up(q) != last {
      WithDirsKeys(nodes, dirs, q);
      if q in nodes {
        assert IsDirNode(nodes, Up(q));
      } else {
        var i :| 0 <= i < |dirs| && dirs[i] == q;
        assert |q| <= |last|;
      }
    }
    WithDirsKeys(nodes, front, last);
    forall i | 0 <= i < |front| ensures front[i] != last {
      assert |dirs[i]| < |last|;
    }
  }

  lemma FrontIsUndoable(terms: Terms, nodes: Nodes, path: Path, dirs: seq<Path>)
    requires Undoable(terms, nodes, path, dirs) && dirs != []
    ensures Undoable(terms, nodes, path, dirs[..|dirs| - 1])
  {
    hide TreeShaped, CanGo;
    var front := dirs[..|dirs| - 1];
    forall d | d in front ensures d in dirs {
    }
  }

  /** Removes the directories from the last to the first and returns `failure`, or the directories that
      could not be removed. Without interference nothing is left. */
  method UndoParents(disk: Disk, dirs: seq<Path>, failure: OpFailure, ghost path: Path,
                     ghost before: Nodes) returns (shown: OpFailure)
    requires RisingParts(path, dirs)
    modifies disk
    ensures disk.log == old(disk.log) + TriedAll(Reversed(dirs))
    ensures shown == failure
            || (shown.Io? && shown.reason.LeftBehind? && forall d :: d in shown.reason.dirs ==> d in dirs)
    ensures Quiet(disk.terms) && old(disk.nodes) == WithDirs(before, dirs)
            && Undoable(disk.terms, before, path, dirs) ==>
              disk.nodes == before && shown == failure
  {
    hide Quiet, Undoable, WithDirs;
    var left: seq<Path> := [];
    ghost var calm := Quiet(disk.terms) && disk.nodes == WithDirs(before, dirs)
      && Undoable(disk.terms, before, path, dirs);
    assert dirs[..|dirs|] == dirs;
    for i := |dirs| downto 0
      invariant disk.log == old(disk.log) + TriedAll(Reversed(dirs)[..|dirs| - i])
      invariant forall d :: d in left ==> d in dirs
      invariant calm ==>
                  && left == [] && disk.nodes == WithDirs(before, dirs[..i])
                  && Undoable(disk.terms, before, path, dirs[..i])
    {
      assert dirs[..i + 1][..i] == dirs[..i] && dirs[..i + 1][i] == dirs[i];
      assert dirs[i] in dirs && dirs[i] != [];
      if calm {
        LastCanGo(disk.terms, before, path, dirs[..i + 1]);
        FrontIsUndoable(disk.terms, before, path, dirs[..i + 1]);
        QuietNext(disk.terms, disk.tick, disk.nodes);
      }
      ghost var tried := Reversed(dirs)[..|dirs| - i - 1];
      assert Reversed(dirs)[..|dirs| - i] == tried + [dirs[i]];
      assert TriedAll(tried + [dirs[i]]) == TriedAll(tried) + [Tried(dirs[i])];
      var error := disk.Rmdir(dirs[i]);
      if error != None && error != Some(NoEntry) {
        left := left + [dirs[i]];
      }
    }
    assert dirs[..0] == [];
    if calm { NoDirs(before); }
    assert Reversed(dirs)[..|dirs|] == Reversed(dirs);
    shown := if left == [] then failure else Io(LeftBehind(left));
  }

  lemma NoDirs(nodes: Nodes)
    ensures WithDirs(nodes, []) == nodes
  {
  }

  lemma QuietNext(terms: Terms, n: nat, nodes: Nodes)
    requires Quiet(terms)
    ensures terms.interfere(n, nodes) == nodes
  {
  }

  // ----- Making -----

  ghost predicate NoneSeen(terms: Terms, nodes: Nodes, dirs: seq<Path>) {
    forall i :: 0 <= i < |dirs| ==> !Seen(terms, nodes, dirs[i])
  }

  /** The parents of `path` that are not seen from below up to the first that is, top first. */
  method MissingParents(disk: Disk, path: Path) returns (missing: seq<Path>, ghost from: nat)
    requires path != []
    modifies disk
    ensures 1 <= from <= |path| && missing == PartsFrom(path, from)
    ensures disk.log == old(disk.log)
    ensures Quiet(disk.terms) ==>
              && disk.nodes == old(disk.nodes)
              && NoneSeen(disk.terms, disk.nodes, missing)
              && (from > 1 ==> Seen(disk.terms, disk.nodes, path[..from - 1]))
  {
    hide Quiet, Seen;
    var upwards: seq<Path> := [];
    var k := |path| - 1;
    while k > 0
      invariant 0 <= k < |path|
      invariant |upwards| == |path| - 1 - k && forall i :: 0 <= i < |upwards| ==> upwards[i] == path[..|path| - 1 - i]
      invariant disk.log == old(disk.log)
      invariant Quiet(disk.terms) ==> disk.nodes == old(disk.nodes) && forall j :: k < j < |path| ==>
                !Seen(disk.terms, disk.nodes, path[..j])
    {
      if Quiet(disk.terms) { QuietNext(disk.terms, disk.tick, disk.nodes); }
      var seen := disk.Lstat(path[..k]);
      if seen {
        break;
      }
      upwards := upwards + [path[..k]];
      k := k - 1;
    }
    from := k + 1;
    missing := Reversed(upwards);
  }

  /** Something at `dir` or above it exists and is no directory. */
  ghost predicate BlockedAbove(terms: Terms, nodes: Nodes, dir: Path) {
    exists k :: 0 <= k <= |dir| && Seen(terms, nodes, dir[..k]) && !IsDirNode(nodes, dir[..k])
  }

  method Blocked(disk: Disk, dir: Path) returns (blocked: bool)
    modifies disk
    ensures disk.log == old(disk.log)
    ensures Quiet(disk.terms) ==> disk.nodes == old(disk.nodes) && blocked == BlockedAbove(disk.terms, disk.nodes, dir)
  {
    hide Quiet, Reachable;
    for k := |dir| + 1 downto 0
      invariant disk.log == old(disk.log)
      invariant Quiet(disk.terms) ==>
                  && disk.nodes == old(disk.nodes)
                  && forall j :: k <= j <= |dir| ==>
                       !(Seen(disk.terms, disk.nodes, dir[..j]) && !IsDirNode(disk.nodes, dir[..j]))
    {
      if Quiet(disk.terms) { QuietNext(disk.terms, disk.tick, disk.nodes); }
      var seen := disk.Lstat(dir[..k]);
      if seen {
        if Quiet(disk.terms) { QuietNext(disk.terms, disk.tick, disk.nodes); }
        var isDir := disk.IsDir(dir[..k]);
        if !isDir {
          return true;
        }
      }
    }
    return false;
  }

  method ParentFailure(disk: Disk, dir: Path, error: IoError) returns (failure: OpFailure)
    modifies disk
    ensures failure == NotADirectory || failure == FailedWith(error)
    ensures disk.log == old(disk.log)
    ensures Quiet(disk.terms) ==>
              && disk.nodes == old(disk.nodes)
              && failure == if BlockedAbove(disk.terms, disk.nodes, dir) then NotADirectory else FailedWith(error)
  {
    var blocked := Blocked(disk, dir);
    failure := if blocked then NotADirectory else FailedWith(error);
  }

  // ----- Why something cannot be made -----

  /** The directory above `p` may not be changed, or one above that may not be searched. */
  ghost predicate Forbidden(terms: Terms, p: Path) {
    p != [] && (terms.readOnly(p[..|p| - 1]) || exists j :: 0 <= j < |p| && terms.closed(p[..j]))
  }

  /** Why making `p` failed: something at it or above it exists and is no directory, or it was not
      permitted, or the system had another reason. */
  ghost predicate FailsFor(terms: Terms, nodes: Nodes, p: Path, failure: OpFailure) {
    if BlockedAbove(terms, nodes, p) then failure == NotADirectory
    else if Forbidden(terms, p) then failure == PermissionDenied
    else failure == Io(SystemReason) && exists n :: terms.full(n)
  }

  /** Why a path could not be prepared, from what was there before: root_dir is no directory, something
      above the path exists and is no directory, or a part of the path that was not there yet could not be
      made. */
  ghost predicate FailsFrom(terms: Terms, before: Nodes, path: Path, most: nat, failure: OpFailure)
    requires path != [] && most <= |path|
  {
    if !IsDirNode(before, []) then failure == RootGone
    else if BlockedAbove(terms, before, Up(path)) then failure == NotADirectory
    else exists k :: 1 <= k <= most && !Seen(terms, before, path[..k]) && FailsFor(terms, before, path[..k], failure)
  }

  /** An error that does not come from a blocked path is a refused permission or another reason. */
  lemma MakeErrorSays(terms: Terms, nodes: Nodes, p: Path, n: nat)
    requires p != [] && Up(p) in nodes && !Seen(terms, nodes, p)
    requires MakeError(terms, nodes, p, terms.full(n)).Some?
    ensures var failure := FailedWith(MakeError(terms, nodes, p, terms.full(n)).value);
            FailsFor(terms, nodes, p, if BlockedAbove(terms, nodes, p) then NotADirectory else failure)
  {
    assert Reachable(terms, p) <==> !exists j :: 0 <= j < |p| && terms.closed(p[..j]);
    if Reachable(terms, p) && nodes[Up(p)] == OtherNode {
      var k := |p| - 1;
      assert p[..k] == Up(p) && forall j :: 0 <= j < k ==> p[..k][..j] == p[..j];
      assert Seen(terms, nodes, p[..k]) && !IsDirNode(nodes, p[..k]);
    }
  }

  /** The directories that were made block nothing. */
  lemma SameBlocks(terms: Terms, before: Nodes, path: Path, made: seq<Path>, p: Path)
    requires forall d :: d in made ==> d !in before
    ensures BlockedAbove(terms, WithDirs(before, made), p) <==> BlockedAbove(terms, before, p)
  {
    forall k | 0 <= k <= |p|
      ensures Seen(terms, WithDirs(before, made), p[..k]) && !IsDirNode(WithDirs(before, made), p[..k])
         <==> Seen(terms, before, p[..k]) && !IsDirNode(before, p[..k])
    {
      WithDirsKeys(before, made, p[..k]);
    }
    hide Seen, IsDirNode;
  }

  /** What is seen lies below nothing unseen. */
  lemma SeenAbove(terms: Terms, nodes: Nodes, path: Path, j: nat, k: nat)
    requires TreeShaped(nodes) && k <= j <= |path| && Seen(terms, nodes, path[..j])
    ensures Seen(terms, nodes, path[..k])
  {
    AboveIsThere(nodes, path[..j], k);
    assert path[..j][..k] == path[..k];
    forall i | 0 <= i < k ensures path[..j][..i] == path[..i] && path[..k][..i] == path[..i] {
    }
  }

  /** The path is blocked exactly where its first part that is not seen is. */
  lemma BlockedAtUnseen(terms: Terms, nodes: Nodes, path: Path, k: nat)
    requires TreeShaped(nodes) && path != [] && k < |path| && !Seen(terms, nodes, path[..k])
    ensures BlockedAbove(terms, nodes, Up(path)) <==> BlockedAbove(terms, nodes, path[..k])
  {
    forall j | 0 <= j <= k ensures path[..k][..j] == path[..j] {
    }
    forall j | 0 <= j < |path| ensures Up(path)[..j] == path[..j] {
    }
    forall j | k < j < |path| ensures !Seen(terms, nodes, path[..j]) {
      if Seen(terms, nodes, path[..j]) { SeenAbove(terms, nodes, path, j, k); }
    }
    hide Seen, IsDirNode;
    if BlockedAbove(terms, nodes, Up(path)) {
      var j :| 0 <= j <= |Up(path)| && Seen(terms, nodes, Up(path)[..j]) && !IsDirNode(nodes, Up(path)[..j]);
      assert Seen(terms, nodes, path[..k][..j]) && !IsDirNode(nodes, path[..k][..j]);
    }
    if BlockedAbove(terms, nodes, path[..k]) {
      var j :| 0 <= j <= |path[..k]| && Seen(terms, nodes, path[..k][..j]) && !IsDirNode(nodes, path[..k][..j]);
      assert Seen(terms, nodes, Up(path)[..j]) && !IsDirNode(nodes, Up(path)[..j]);
    }
  }

  /** A part that could not be made is why the path could not be prepared. */
  lemma PartFails(terms: Terms, before: Nodes, path: Path, k: nat, failure: OpFailure)
    requires TreeShaped(before) && IsDirNode(before, []) && 1 <= k < |path|
    requires !Seen(terms, before, path[..k]) && FailsFor(terms, before, path[..k], failure)
    ensures FailsFrom(terms, before, path, |path| - 1, failure)
  {
    BlockedAtUnseen(terms, before, path, k);
    hide BlockedAbove, Forbidden;
  }

  datatype Parents = Ready(made: seq<Path>) | Unmade(failure: OpFailure)

  /** The directories in `made` were absent and are all that was added. */
  ghost predicate AddedOnly(terms: Terms, before: Nodes, nodes: Nodes, path: Path, made: seq<Path>) {
    Undoable(terms, before, path, made) && nodes == WithDirs(before, made)
  }

  lemma MadeOneMore(terms: Terms, before: Nodes, nodes: Nodes, path: Path, made: seq<Path>, dir: Path)
    requires AddedOnly(terms, before, nodes, path, made)
    requires RisingParts(path, made + [dir])
    requires dir != [] && MakeError(terms, nodes, dir, false) == None
    ensures AddedOnly(terms, before, nodes[dir := DirNode], path, made + [dir])
  {
    hide TreeShaped, CanGo, MakeError, RisingParts, WithDirs;
    forall d | d in before ensures d in nodes {
      WithDirsKeys(before, made, d);
    }
    MakeableCanGo(terms, before, nodes, dir);
    WithOneMore(before, made, dir);
  }

  lemma WithOneMore(nodes: Nodes, dirs: seq<Path>, dir: Path)
    ensures WithDirs(nodes, dirs + [dir]) == WithDirs(nodes, dirs)[dir := DirNode]
  {
    assert (dirs + [dir])[..|dirs|] == dirs;
  }

  lemma MakeableCanGo(terms: Terms, before: Nodes, nodes: Nodes, dir: Path)
    requires dir != [] && MakeError(terms, nodes, dir, false) == None && before.Keys <= nodes.Keys
    ensures CanGo(terms, before, dir)
  {
  }

  /** One mkdir of the loop: whether `dir` was made, or is there already, or why not. */
  method MakeOne(disk: Disk, path: Path, ghost made: seq<Path>, dir: Path, ghost before: Nodes)
      returns (isMade: bool, failure: Option<OpFailure>)
    requires RisingParts(path, made) && 1 <= |dir| < |path| && dir == path[..|dir|]
    requires forall d :: d in made ==> |d| < |dir|
    modifies disk
    ensures isMade ==> failure == None && disk.log == old(disk.log) + [Made(dir)]
    ensures !isMade ==> disk.log == old(disk.log)
    ensures failure.Some? ==> !failure.value.Io? || failure.value.reason == SystemReason
    ensures RisingParts(path, made + [dir])
    ensures Quiet(disk.terms) && AddedOnly(disk.terms, before, old(disk.nodes), path, made)
            && !Seen(disk.terms, before, dir) && Up(dir) in old(disk.nodes) ==>
              if isMade then
                AddedOnly(disk.terms, before, disk.nodes, path, made + [dir]) && IsDirNode(old(disk.nodes), Up(dir))
              else
                && failure.Some? && disk.nodes == old(disk.nodes)
                && FailsFor(disk.terms, before, dir, failure.value)
  {
    hide Quiet, Seen, MakeError, AddedOnly, FailsFor, BlockedAbove;
    ghost var nodes, full := disk.nodes, disk.terms.full(disk.tick);
    ghost var n := disk.tick;
    ghost var calm := Quiet(disk.terms) && AddedOnly(disk.terms, before, nodes, path, made)
      && !Seen(disk.terms, before, dir) && Up(dir) in nodes;
    if Quiet(disk.terms) { QuietNext(disk.terms, disk.tick, nodes); }
    RisesByOne(path, made, dir);
    var error := disk.Mkdir(dir);
    if error == None {
      if calm {
        NotFull(disk.terms, nodes, dir, full);
        MadeOneMore(disk.terms, before, nodes, path, made, dir);
        MadeInDirectory(disk.terms, nodes, dir);
      }
      return true, None;
    }
    if error == Some(Exists) {
      if calm {
        ExistsIsSeen(disk.terms, nodes, dir, full);
        UnseenStays(disk.terms, before, nodes, path, made, dir);
        assert false;
      }
      var isDir := disk.IsDir(dir);
      if isDir {
        return false, None;
      }
    }
    if calm { WhyNotMade(disk.terms, before, nodes, path, made, dir, n); }
    var why := ParentFailure(disk, dir, error.value);
    return false, Some(why);
  }

  lemma MadeInDirectory(terms: Terms, nodes: Nodes, dir: Path)
    requires dir != [] && MakeError(terms, nodes, dir, false) == None
    ensures IsDirNode(nodes, Up(dir))
  {
  }

  lemma WhyNotMade(terms: Terms, before: Nodes, nodes: Nodes, path: Path, made: seq<Path>, dir: Path, n: nat)
    requires AddedOnly(terms, before, nodes, path, made) && dir !in made
    requires dir != [] && !Seen(terms, before, dir) && Up(dir) in nodes
    requires MakeError(terms, nodes, dir, terms.full(n)).Some?
    ensures var failure := FailedWith(MakeError(terms, nodes, dir, terms.full(n)).value);
            && (BlockedAbove(terms, nodes, dir) <==> BlockedAbove(terms, before, dir))
            && FailsFor(terms, before, dir, if BlockedAbove(terms, before, dir) then NotADirectory else failure)
  {
    UnseenStays(terms, before, nodes, path, made, dir);
    MadeWereAbsent(terms, before, path, made);
    hide AddedOnly, Seen, MakeError, BlockedAbove, Forbidden;
    SameBlocks(terms, before, path, made, dir);
    MakeErrorSays(terms, nodes, dir, n);
  }

  lemma MadeWereAbsent(terms: Terms, before: Nodes, path: Path, made: seq<Path>)
    requires Undoable(terms, before, path, made)
    ensures forall d :: d in made ==> d !in before
  {
  }

  /** The loop over the missing parents: what was made, and why it stopped if it did. */
  method MakeMissing(disk: Disk, path: Path, missing: seq<Path>, ghost from: nat, ghost before: Nodes)
      returns (made: seq<Path>, failure: Option<OpFailure>)
    requires 1 <= from <= |path| && missing == PartsFrom(path, from)
    modifies disk
    ensures RisingParts(path, made) && disk.log == old(disk.log) + MadeAll(made)
    ensures failure.Some? ==> !failure.value.Io? || failure.value.reason == SystemReason
    ensures Quiet(disk.terms) && AddedOnly(disk.terms, before, old(disk.nodes), path, [])
            && NoneSeen(disk.terms, before, missing) && path[..from - 1] in before ==>
              && AddedOnly(disk.terms, before, disk.nodes, path, made)
              && (failure == None ==> made == missing)
              && (failure == None && missing != [] ==> IsDirNode(before, path[..from - 1]))
              && (failure.Some? ==>
                    exists i :: 0 <= i < |missing| && FailsFor(disk.terms, before, missing[i], failure.value))
  {
    hide Quiet, Seen, AddedOnly, MadeAll, FailsFor;
    made := [];
    NothingMade(disk.log);
    ghost var calm := Quiet(disk.terms) && AddedOnly(disk.terms, before, disk.nodes, path, [])
      && NoneSeen(disk.terms, before, missing) && path[..from - 1] in before;
    for i := 0 to |missing|
      invariant RisingParts(path, made)
      invariant forall d :: d in made ==> |d| < from + i
      invariant disk.log == old(disk.log) + MadeAll(made)
      invariant calm ==> AddedOnly(disk.terms, before, disk.nodes, path, made) && made == missing[..i]
      invariant calm && i > 0 ==> IsDirNode(before, path[..from - 1])
    {
      var dir := missing[i];
      MadeMore(made, dir);
      if calm {
        UpIsThere(disk.terms, before, disk.nodes, path, made, from, i);
        FirstIsBefore(disk.terms, before, disk.nodes, path, made, from);
      }
      var isMade;
      isMade, failure := MakeOne(disk, path, made, dir, before);
      if failure.Some? {
        return;
      }
      assert missing[..i + 1] == missing[..i] + [dir];
      if isMade {
        made := made + [dir];
      }
    }
    assert missing[..|missing|] == missing;
    failure := None;
  }

  /** Makes the missing parents of `path`. `made` lists the directories whose mkdir succeeded in this
      call, top first; on failure it is these that were removed again, deepest first. Without
      interference a failure leaves the file system as it was, and after a success they are exactly the
      parents that were missing. */
  method CreateParents(disk: Disk, path: Path) returns (result: Parents, ghost made: seq<Path>)
    requires path != []
    modifies disk
    ensures RisingParts(path, made)
    ensures result.Ready? ==> result.made == made && disk.log == old(disk.log) + MadeAll(made)
    ensures result.Unmade? ==> disk.log == old(disk.log) + MadeAll(made) + TriedAll(Reversed(made))
    ensures Quiet(disk.terms) && TreeShaped(old(disk.nodes)) ==>
              if result.Ready? then
                && AddedOnly(disk.terms, old(disk.nodes), disk.nodes, path, made)
                && Preparable(disk.terms, old(disk.nodes), path)
                && Reachable(disk.terms, Up(path)) && IsDirNode(disk.nodes, Up(path))
                && (forall k :: 1 <= k < |path| ==> (path[..k] in made <==> path[..k] !in old(disk.nodes)))
              else
                && disk.nodes == old(disk.nodes)
                && FailsFrom(disk.terms, old(disk.nodes), path, |path| - 1, result.failure)
  {
    hide Quiet, Seen, WithDirs, TreeShaped, AddedOnly, Undoable, Reachable, FailsFor, FailsFrom, BlockedAbove,
      Preparable;
    made := [];
    ghost var calm := Quiet(disk.terms) && TreeShaped(disk.nodes);
    ghost var before := disk.nodes;
    NothingMade(disk.log);
    if calm {
      QuietNext(disk.terms, disk.tick, disk.nodes);
      NothingAdded(disk.terms, before, path);
    }
    var rootIsDir := disk.IsDir([]);
    if !rootIsDir {
      if calm { RootFails(disk.terms, before, path); }
      return Unmade(RootGone), made;
    }
    var missing;
    ghost var from;
    missing, from := MissingParents(disk, path);
    if calm { FromIsThere(disk.terms, before, path, from); }
    var newDirs, stopped := MakeMissing(disk, path, missing, from, before);
    made := newDirs;
    if calm && stopped.Some? {
      var i :| 0 <= i < |missing| && FailsFor(disk.terms, before, missing[i], stopped.value);
      PartFails(disk.terms, before, path, from + i, stopped.value);
    }
    if calm { AddedIsUndoable(disk.terms, before, disk.nodes, path, made); }
    if stopped == None {
      if calm { QuietNext(disk.terms, disk.tick, disk.nodes); }
      var parentIsDir := disk.IsDir(Up(path));
      if parentIsDir {
        if calm {
          MadeWhatWasMissing(disk.terms, before, disk.nodes, path, made, from);
          FirstIsBefore(disk.terms, before, disk.nodes, path, made, from);
          assert from == |path| ==> Up(path) == path[..from - 1];
          WasPreparable(disk.terms, before, disk.nodes, path, made, from);
        }
        return Ready(newDirs), made;
      }
      if calm { ParentBlocks(disk.terms, before, disk.nodes, path, made, from); }
      var why := ParentFailure(disk, Up(path), NotDir);
      stopped := Some(why);
    }
    var failure := UndoParents(disk, newDirs, stopped.value, path, before);
    return Unmade(failure), made;
  }

  lemma RootFails(terms: Terms, before: Nodes, path: Path)
    requires path != [] && !(Reachable(terms, []) && IsDirNode(before, []))
    ensures FailsFrom(terms, before, path, |path| - 1, RootGone)
  {
  }

  lemma FromIsThere(terms: Terms, before: Nodes, path: Path, from: nat)
    requires IsDirNode(before, []) && 1 <= from <= |path|
    requires from > 1 ==> Seen(terms, before, path[..from - 1])
    ensures path[..from - 1] in before
  {
    assert path[..0] == [];
  }

  /** With all parts made, only a part that was there before can keep the parent from being a directory. */
  lemma ParentBlocks(terms: Terms, before: Nodes, nodes: Nodes, path: Path, made: seq<Path>, from: nat)
    requires AddedOnly(terms, before, nodes, path, made) && IsDirNode(before, [])
    requires 1 <= from <= |path| && made == PartsFrom(path, from)
    requires from > 1 ==> Seen(terms, before, path[..from - 1])
    requires !(Reachable(terms, Up(path)) && IsDirNode(nodes, Up(path)))
    ensures FailsFrom(terms, before, path, |path| - 1, NotADirectory)
  {
    if from < |path| {
      LastMadeIsDirectory(terms, before, nodes, path, made, from);
      assert false;
    } else if from == 1 {
      RootIsParent(terms, before, nodes, path, made);
      assert false;
    } else {
      assert Up(path) == path[..from - 1];
      assert Up(path)[..|Up(path)|] == Up(path);
      WithDirsKeys(before, made, Up(path));
      assert Seen(terms, before, Up(path)) && !IsDirNode(before, Up(path));
    }
  }

  lemma RootIsParent(terms: Terms, before: Nodes, nodes: Nodes, path: Path, made: seq<Path>)
    requires AddedOnly(terms, before, nodes, path, made) && IsDirNode(before, [])
    requires |path| == 1 && made == []
    ensures Reachable(terms, Up(path)) && IsDirNode(nodes, Up(path))
  {
  }

  lemma LastMadeIsDirectory(terms: Terms, before: Nodes, nodes: Nodes, path: Path, made: seq<Path>, from: nat)
    requires AddedOnly(terms, before, nodes, path, made)
    requires 1 <= from < |path| && made == PartsFrom(path, from)
    ensures Reachable(terms, Up(path)) && IsDirNode(nodes, Up(path))
  {
    WithDirsKeys(before, made, Up(path));
    assert made[|made| - 1] == Up(path) && Up(path) in made;
    assert CanGo(terms, before, Up(path));
  }

  lemma FirstIsBefore(terms: Terms, before: Nodes, nodes: Nodes, path: Path, made: seq<Path>, from: nat)
    requires AddedOnly(terms, before, nodes, path, made) && 1 <= from <= |path|
    ensures made == [] ==> nodes == before
    ensures Up(path[..from]) == path[..from - 1]
  {
  }

  /** All that the path needs was there, or could be made. */
  ghost predicate Preparable(terms: Terms, before: Nodes, path: Path)
    requires path != []
  {
    && IsDirNode(before, []) && !BlockedAbove(terms, before, Up(path))
    && forall k :: 1 <= k < |path| && !Seen(terms, before, path[..k]) ==> !Forbidden(terms, path[..k])
  }

  lemma PrefixIsDir(nodes: Nodes, p: Path, k: nat)
    requires TreeShaped(nodes) && p in nodes && k < |p|
    ensures IsDirNode(nodes, p[..k])
  {
    AboveIsThere(nodes, p, k + 1);
    assert Up(p[..k + 1]) == p[..k];
  }

  lemma WasPreparable(terms: Terms, before: Nodes, nodes: Nodes, path: Path, made: seq<Path>, from: nat)
    requires TreeShaped(before) && AddedOnly(terms, before, nodes, path, made)
    requires 1 <= from <= |path| && made == PartsFrom(path, from) && NoneSeen(terms, before, made)
    requires IsDirNode(before, []) && IsDirNode(before, path[..from - 1])
    requires from > 1 ==> Seen(terms, before, path[..from - 1])
    ensures Preparable(terms, before, path)
  {
    forall k | 0 <= k < |path| ensures Up(path)[..k] == path[..k] {
    }
    forall k | from <= k < |path| ensures !Seen(terms, before, path[..k]) {
      assert made[k - from] == path[..k];
    }
    forall k | 0 <= k < |path| && Seen(terms, before, path[..k]) ensures IsDirNode(before, path[..k]) {
      if k < from - 1 {
        PrefixIsDir(before, path[..from - 1], k);
        assert path[..from - 1][..k] == path[..k];
      }
    }
    forall k | 1 <= k < |path| && !Seen(terms, before, path[..k]) ensures !Forbidden(terms, path[..k]) {
      if k < from {
        SeenAbove(terms, before, path, from - 1, k);
        assert false;
      }
      assert made[k - from] == path[..k];
      assert CanGo(terms, before, path[..k]);
    }
  }

  lemma UpIsThere(terms: Terms, before: Nodes, nodes: Nodes, path: Path, made: seq<Path>, from: nat, i: nat)
    requires AddedOnly(terms, before, nodes, path, made)
    requires 1 <= from <= |path| && i < |path| - from && made == PartsFrom(path, from)[..i]
    requires path[..from - 1] in before
    ensures Up(path[..from + i]) in nodes
  {
    var up := path[..from + i - 1];
    assert Up(path[..from + i]) == up;
    WithDirsKeys(before, made, up);
    if i > 0 {
      assert made[i - 1] == up;
    }
  }

  lemma NothingMade(log: seq<Change>)
    ensures log + MadeAll([]) == log
    ensures log + MadeAll([]) + TriedAll(Reversed([])) == log
  {
  }

  lemma NothingAdded(terms: Terms, nodes: Nodes, path: Path)
    requires TreeShaped(nodes)
    ensures AddedOnly(terms, nodes, nodes, path, [])
  {
  }

  lemma RisesByOne(path: Path, made: seq<Path>, dir: Path)
    requires RisingParts(path, made)
    requires 1 <= |dir| < |path| && dir == path[..|dir|]
    requires forall d :: d in made ==> |d| < |dir|
    ensures RisingParts(path, made + [dir])
  {
  }

  lemma MadeMore(made: seq<Path>, dir: Path)
    ensures MadeAll(made + [dir]) == MadeAll(made) + [Made(dir)]
  {
  }

  lemma NotFull(terms: Terms, nodes: Nodes, dir: Path, full: bool)
    requires dir != [] && MakeError(terms, nodes, dir, full) == None
    ensures MakeError(terms, nodes, dir, false) == None
  {
  }

  lemma ExistsIsSeen(terms: Terms, nodes: Nodes, dir: Path, full: bool)
    requires dir != [] && MakeError(terms, nodes, dir, full) == Some(Exists)
    ensures Seen(terms, nodes, dir)
  {
  }

  /** What was not seen before is not seen until it is made. */
  lemma UnseenStays(terms: Terms, before: Nodes, nodes: Nodes, path: Path, made: seq<Path>, dir: Path)
    requires AddedOnly(terms, before, nodes, path, made) && dir !in made
    requires !Seen(terms, before, dir)
    ensures !Seen(terms, nodes, dir)
  {
    WithDirsKeys(before, made, dir);
  }

  lemma AddedIsUndoable(terms: Terms, before: Nodes, nodes: Nodes, path: Path, made: seq<Path>)
    requires AddedOnly(terms, before, nodes, path, made)
    ensures Undoable(terms, before, path, made) && nodes == WithDirs(before, made)
  {
  }

  lemma {:induction false} AboveIsThere(nodes: Nodes, p: Path, k: nat)
    requires TreeShaped(nodes) && p in nodes && k <= |p|
    ensures p[..k] in nodes
    decreases |p| - k
  {
    if k < |p| {
      AboveIsThere(nodes, p, k + 1);
      assert Up(p[..k + 1]) == p[..k];
    } else {
      assert p[..k] == p;
    }
  }

  lemma MadeWhatWasMissing(terms: Terms, before: Nodes, nodes: Nodes, path: Path, made: seq<Path>, from: nat)
    requires AddedOnly(terms, before, nodes, path, made)
    requires 1 <= from <= |path| && made == PartsFrom(path, from)
    requires from > 1 ==> Seen(terms, before, path[..from - 1])
    ensures forall k :: 1 <= k < |path| ==> (path[..k] in made <==> path[..k] !in before)
  {
    forall k | 1 <= k < |path| ensures path[..k] in made <==> path[..k] !in before {
      if k >= from {
        assert made[k - from] == path[..k];
      } else {
        AboveIsThere(before, path[..from - 1], k);
        assert path[..from - 1][..k] == path[..k];
      }
    }
  }
}
