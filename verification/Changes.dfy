/** The edits of a script as replacements of reference lines. */
module Changes {
  import opened Texts
  import opened Content
  import opened DiffScript

  /** One run of changes: the lines it puts in, how many reference lines it takes out, and the numbers
      of the lines it puts in. */
  datatype ChangeInfo = ChangeInfo(replacement: seq<Bytes>, refLineCount: nat, fileLines: set<nat>)

  /** The numbers from a up to b. */
  function Interval(a: nat, b: nat): (numbers: set<nat>)
    ensures forall x: nat :: x in numbers <==> a <= x < b
    decreases b - a
  {
    if a >= b then {} else {a} + Interval(a + 1, b)
  }

  /** Where a run of changes begins. */
  predicate RunStart(lines: seq<DiffLine>, a: int) {
    Changed(lines, a) && !Changed(lines, a - 1)
  }

  /** One past the last change of the run of changes that `a` is in. */
  function RunEnd(lines: seq<DiffLine>, a: nat): (b: nat)
    requires a <= |lines|
    ensures a <= b <= |lines|
    ensures forall x :: a <= x < b ==> Changed(lines, x)
    ensures !Changed(lines, b)
    decreases |lines| - a
  {
    if Changed(lines, a) then RunEnd(lines, a + 1) else a
  }

  function OldAt(lines: seq<DiffLine>, a: nat): nat
    requires a <= |lines|
  {
    OldCount(lines[..a])
  }

  function NewAt(lines: seq<DiffLine>, a: nat): nat
    requires a <= |lines|
  {
    NewCount(lines[..a])
  }

  lemma CountsAt(lines: seq<DiffLine>, k: nat)
    requires k < |lines|
    ensures OldAt(lines, k + 1) == OldAt(lines, k) + (if lines[k].tag == Insert then 0 else 1)
    ensures NewAt(lines, k + 1) == NewAt(lines, k) + (if lines[k].tag == Delete then 0 else 1)
  {
    assert lines[..k + 1][..k] == lines[..k];
  }

  lemma WholeCount(lines: seq<DiffLine>)
    ensures NewAt(lines, |lines|) == NewCount(lines)
  {
    assert lines[..|lines|] == lines;
  }

  lemma {:induction false} CountsGrow(lines: seq<DiffLine>, a: nat, b: nat)
    requires a <= b <= |lines|
    ensures OldAt(lines, a) <= OldAt(lines, b)
    ensures NewAt(lines, a) <= NewAt(lines, b)
    decreases b - a
  {
    if a < b {
      CountsAt(lines, a);
      CountsGrow(lines, a + 1, b);
    }
  }

  /** The run a..b replaces the reference lines between its old counts by the new lines between its new
      counts. */
  function Info(lines: seq<DiffLine>, newLines: seq<Bytes>, a: nat, b: nat): ChangeInfo
    requires a <= b <= |lines| && NewCount(lines) == |newLines|
  {
    CountsGrow(lines, a, b);
    CountsGrow(lines, b, |lines|);
    assert lines[..|lines|] == lines;
    ChangeInfo(newLines[NewAt(lines, a)..NewAt(lines, b)],
               OldAt(lines, b) - OldAt(lines, a),
               Interval(NewAt(lines, a), NewAt(lines, b)))
  }

  /** Two runs are apart: an unchanged line lies between them. */
  lemma RunsApart(lines: seq<DiffLine>, a: nat, c: nat)
    requires RunStart(lines, a) && RunStart(lines, c) && a < c
    ensures RunEnd(lines, a) < c
    ensures OldAt(lines, RunEnd(lines, a)) < OldAt(lines, c)
    ensures NewAt(lines, RunEnd(lines, a)) < NewAt(lines, c)
  {
    var b := RunEnd(lines, a);
    assert b < c;
    CountsAt(lines, b);
    CountsGrow(lines, b + 1, c);
  }

  lemma RunStartsHaveOwnKeys(lines: seq<DiffLine>)
    ensures forall a, c | RunStart(lines, a) && RunStart(lines, c) && OldAt(lines, a) == OldAt(lines, c) :: a == c
  {
    forall a, c | RunStart(lines, a) && RunStart(lines, c) && OldAt(lines, a) == OldAt(lines, c) ensures a == c {
      if a < c {
        RunsApart(lines, a, c);
        CountsGrow(lines, a, RunEnd(lines, a));
      } else if c < a {
        RunsApart(lines, c, a);
        CountsGrow(lines, c, RunEnd(lines, c));
      }
    }
  }

  /** The runs that begin before n, by the reference line they begin at. */
  function ChangesBefore(lines: seq<DiffLine>, newLines: seq<Bytes>, n: nat): map<nat, ChangeInfo>
    requires n <= |lines| && NewCount(lines) == |newLines|
  {
    if n == 0 then map[]
    else
      var before := ChangesBefore(lines, newLines, n - 1);
      if RunStart(lines, n - 1) then before[OldAt(lines, n - 1) := Info(lines, newLines, n - 1, RunEnd(lines, n - 1))]
      else before
  }

  /** The keys are where the runs begin, and each run has a key of its own. */
  lemma {:induction false} KeysAreRuns(lines: seq<DiffLine>, newLines: seq<Bytes>, n: nat)
    requires n <= |lines| && NewCount(lines) == |newLines|
    ensures forall k :: k in ChangesBefore(lines, newLines, n) ==>
            exists a: nat :: a < n && RunStart(lines, a) && OldAt(lines, a) == k
    ensures forall a: nat :: a < n && RunStart(lines, a) ==>
              && OldAt(lines, a) in ChangesBefore(lines, newLines, n)
              && ChangesBefore(lines, newLines, n)[OldAt(lines, a)] == Info(lines, newLines, a, RunEnd(lines, a))
  {
    hide Info, OldAt;
    RunStartsHaveOwnKeys(lines);
    if n > 0 {
      KeysAreRuns(lines, newLines, n - 1);
    }
  }

  function ChangesOf(lines: seq<DiffLine>, newLines: seq<Bytes>): map<nat, ChangeInfo>
    requires NewCount(lines) == |newLines|
  {
    ChangesBefore(lines, newLines, |lines|)
  }

  // ----- Collecting them -----

  /** The reference line behind the last line that has one, looking back from line i. */
  function InsertPosition(lines: seq<DiffLine>, i: nat): nat
    requires i <= |lines|
  {
    if i == 0 then 0
    else match lines[i - 1].oldIndex
         case Some(index) => index + 1
         case None => InsertPosition(lines, i - 1)
  }

  lemma {:induction false} InsertPositionIsCount(lines: seq<DiffLine>, i: nat)
    requires WellNumbered(lines) && i <= |lines|
    ensures InsertPosition(lines, i) == OldAt(lines, i)
  {
    if i > 0 {
      CountsAt(lines, i - 1);
      if lines[i - 1].tag == Insert {
        InsertPositionIsCount(lines, i - 1);
      }
    }
  }

  /** Lines with a new number carry the new line of that number. */
  ghost predicate CarriesNewLines(lines: seq<DiffLine>, newLines: seq<Bytes>) {
    forall k :: 0 <= k < |lines| && lines[k].newIndex.Some? ==>
      lines[k].newIndex.value < |newLines| && newLines[lines[k].newIndex.value] == lines[k].value
  }

  lemma InsertIsNext(lines: seq<DiffLine>, newLines: seq<Bytes>, i: nat)
    requires WellNumbered(lines) && CarriesNewLines(lines, newLines)
    requires i < |lines| && lines[i].tag == Insert
    ensures lines[i].newIndex == Some(NewAt(lines, i))
    ensures NewAt(lines, i) < |newLines| && newLines[NewAt(lines, i)] == lines[i].value
    ensures NewAt(lines, i + 1) == NewAt(lines, i) + 1 && OldAt(lines, i + 1) == OldAt(lines, i)
  {
    CountsAt(lines, i);
  }

  lemma NumberAt(lines: seq<DiffLine>, i: nat)
    requires WellNumbered(lines) && i < |lines|
    ensures lines[i].tag != Delete ==> lines[i].newIndex == Some(NewAt(lines, i))
    ensures lines[i].tag != Insert ==> lines[i].oldIndex == Some(OldAt(lines, i))
  {
  }

  /** Inserted lines from `from` on, with their numbers, up to the first other line. */
  method TakeInserts(lines: seq<DiffLine>, ghost newLines: seq<Bytes>, from: nat)
      returns (i: nat, replacement: seq<Bytes>, fileLines: set<nat>)
    requires WellNumbered(lines) && NewCount(lines) == |newLines| && from <= |lines|
    requires CarriesNewLines(lines, newLines)
    ensures from <= i <= |lines|
    ensures forall k :: from <= k < i ==> lines[k].tag == Insert
    ensures i < |lines| ==> lines[i].tag != Insert
    ensures OldAt(lines, i) == OldAt(lines, from)
    ensures NewAt(lines, from) <= NewAt(lines, i) <= |newLines|
    ensures replacement == newLines[NewAt(lines, from)..NewAt(lines, i)]
    ensures fileLines == Interval(NewAt(lines, from), NewAt(lines, i))
  {
    hide OldAt, NewAt, Interval, WellNumbered, CarriesNewLines;
    i, replacement, fileLines := from, [], {};
    CountsGrow(lines, from, |lines|);
    WholeCount(lines);
    while i < |lines| && lines[i].tag == Insert
      invariant from <= i <= |lines|
      invariant forall k :: from <= k < i ==> lines[k].tag == Insert
      invariant OldAt(lines, i) == OldAt(lines, from)
      invariant NewAt(lines, from) <= NewAt(lines, i) <= |newLines|
      invariant replacement == newLines[NewAt(lines, from)..NewAt(lines, i)]
      invariant fileLines == Interval(NewAt(lines, from), NewAt(lines, i))
    {
      InsertIsNext(lines, newLines, i);
      replacement := replacement + [lines[i].value];
      if lines[i].newIndex.Some? {
        fileLines := fileLines + {lines[i].newIndex.value};
      }
      i := i + 1;
    }
  }

  /** Deleted lines from `from` on, up to the first other line. */
  method CountDeletes(lines: seq<DiffLine>, from: nat) returns (i: nat, deleteCount: nat)
    requires from <= |lines|
    ensures from <= i <= |lines|
    ensures forall k :: from <= k < i ==> lines[k].tag == Delete
    ensures i < |lines| ==> lines[i].tag != Delete
    ensures OldAt(lines, i) == OldAt(lines, from) + deleteCount && NewAt(lines, i) == NewAt(lines, from)
  {
    hide OldAt, NewAt;
    i, deleteCount := from, 0;
    while i < |lines| && lines[i].tag == Delete
      invariant from <= i <= |lines|
      invariant forall k :: from <= k < i ==> lines[k].tag == Delete
      invariant OldAt(lines, i) == OldAt(lines, from) + deleteCount && NewAt(lines, i) == NewAt(lines, from)
    {
      CountsAt(lines, i);
      deleteCount := deleteCount + 1;
      i := i + 1;
    }
  }

  /** No duplicate key is ever met: `changes` only grows. */
  method ExtractChanges(lines: seq<DiffLine>, ghost newLines: seq<Bytes>) returns (changes: map<nat, ChangeInfo>)
    requires WellNumbered(lines) && NewCount(lines) == |newLines| && DeletionsLead(lines)
    requires CarriesNewLines(lines, newLines)
    ensures changes == ChangesOf(lines, newLines)
  {
    hide OldAt, NewAt, RunEnd, ChangesBefore, WellNumbered, DeletionsLead, InsertPosition;
    changes := map[];
    var i := 0;
    NoChangesYet(lines, newLines);
    while i < |lines|
      invariant i <= |lines|
      invariant !Changed(lines, i - 1) || !Changed(lines, i)
      invariant changes == ChangesBefore(lines, newLines, i)
    {
      ghost var start := i;
      NumberAt(lines, i);
      var line := lines[i];
      if line.tag == Delete {
        var refStart := line.oldIndex.value;
        var deleteCount, replacement, fileLines;
        i, deleteCount := CountDeletes(lines, i);
        ghost var deleted := i;
        i, replacement, fileLines := TakeInserts(lines, newLines, i);
        NoDeleteBehindInsert(lines, start, deleted, i);
        OneMoreRun(lines, newLines, start, i);
        assert refStart !in changes;
        changes := changes[refStart := ChangeInfo(replacement, deleteCount, fileLines)];
      } else if line.tag == Insert {
        InsertPositionIsCount(lines, i);
        var insertAt := InsertPosition(lines, i);
        var replacement, fileLines;
        i, replacement, fileLines := TakeInserts(lines, newLines, i);
        NoDeleteBehindInsert(lines, start, start, i);
        OneMoreRun(lines, newLines, start, i);
        assert insertAt !in changes;
        changes := changes[insertAt := ChangeInfo(replacement, 0, fileLines)];
      } else {
        NoRunHere(lines, newLines, i);
        i := i + 1;
      }
    }
  }

  lemma NoChangesYet(lines: seq<DiffLine>, newLines: seq<Bytes>)
    requires NewCount(lines) == |newLines|
    ensures ChangesBefore(lines, newLines, 0) == map[]
  {
  }

  lemma NoDeleteBehindInsert(lines: seq<DiffLine>, start: nat, deleted: nat, i: nat)
    requires start <= deleted <= i <= |lines| && start < i
    requires DeletionsLead(lines)
    requires forall k :: start <= k < deleted ==> lines[k].tag == Delete
    requires forall k :: deleted <= k < i ==> lines[k].tag == Insert
    requires i < |lines| ==> lines[i].tag != Insert
    requires deleted == i && i < |lines| ==> lines[i].tag != Delete
    ensures RunEnd(lines, start) == i
    ensures !Changed(lines, i)
  {
    assert deleted < i ==> lines[i - 1].tag == Insert;
    assert !Changed(lines, i);
    assert forall x :: start <= x < i ==> Changed(lines, x);
  }

  lemma OneMoreRun(lines: seq<DiffLine>, newLines: seq<Bytes>, start: nat, i: nat)
    requires NewCount(lines) == |newLines|
    requires start < |lines| && RunStart(lines, start) && i == RunEnd(lines, start)
    ensures OldAt(lines, start) !in ChangesBefore(lines, newLines, start)
    ensures ChangesBefore(lines, newLines, i)
         == ChangesBefore(lines, newLines, start)[OldAt(lines, start) := Info(lines, newLines, start, i)]
  {
    RunStartsHaveOwnKeys(lines);
    KeysAreRuns(lines, newLines, start);
    NoRunsBetween(lines, newLines, start + 1, i);
  }

  lemma {:induction false} NoRunsBetween(lines: seq<DiffLine>, newLines: seq<Bytes>, low: nat, high: nat)
    requires NewCount(lines) == |newLines|
    requires 1 <= low <= high <= |lines|
    requires forall x :: low - 1 <= x < high ==> Changed(lines, x)
    ensures ChangesBefore(lines, newLines, high) == ChangesBefore(lines, newLines, low)
    decreases high
  {
    if low < high {
      NoRunsBetween(lines, newLines, low, high - 1);
    }
  }

  lemma NoRunHere(lines: seq<DiffLine>, newLines: seq<Bytes>, i: nat)
    requires NewCount(lines) == |newLines|
    requires i < |lines| && !Changed(lines, i)
    ensures ChangesBefore(lines, newLines, i + 1) == ChangesBefore(lines, newLines, i)
  {
  }

  // ----- What the changes of a script are -----

  function EndOf(changes: map<nat, ChangeInfo>, key: nat): nat
    requires key in changes
  {
    key + changes[key].refLineCount
  }

  /** Changes of one side never touch: at least one reference line lies between two of them. */
  ghost predicate Separate(changes: map<nat, ChangeInfo>) {
    forall a, b :: a in changes && b in changes && a < b ==> EndOf(changes, a) < b
  }

  /** The numbered lines are the file's own lines. */
  ghost predicate Faithful(changes: map<nat, ChangeInfo>, newLines: seq<Bytes>) {
    forall k :: k in changes ==>
      exists n: nat :: IsStretch(changes[k], newLines, n)
  }

  ghost predicate IsStretch(info: ChangeInfo, newLines: seq<Bytes>, n: nat) {
    && n + |info.replacement| <= |newLines|
    && info.replacement == newLines[n..n + |info.replacement|]
    && info.fileLines == Interval(n, n + |info.replacement|)
  }

  lemma ChangesAreSeparate(lines: seq<DiffLine>, newLines: seq<Bytes>)
    requires NewCount(lines) == |newLines|
    ensures Separate(ChangesOf(lines, newLines))
  {
    var changes := ChangesOf(lines, newLines);
    KeysAreRuns(lines, newLines, |lines|);
    hide ChangesBefore, OldAt, NewAt, RunEnd, Changed;
    forall a, b | a in changes && b in changes && a < b ensures EndOf(changes, a) < b {
      var x: nat :| x < |lines| && RunStart(lines, x) && OldAt(lines, x) == a;
      var y: nat :| y < |lines| && RunStart(lines, y) && OldAt(lines, y) == b;
      if y < x {
        CountsGrow(lines, y, x);
        assert false;
      }
      RunsApart(lines, x, y);
    }
  }

  lemma ChangesAreFaithful(lines: seq<DiffLine>, newLines: seq<Bytes>)
    requires NewCount(lines) == |newLines|
    ensures Faithful(ChangesOf(lines, newLines), newLines)
  {
    var changes := ChangesOf(lines, newLines);
    KeysAreRuns(lines, newLines, |lines|);
    hide ChangesBefore, OldAt, NewAt, RunEnd, Changed, Interval, Info, IsStretch;
    forall k | k in changes ensures exists n: nat :: IsStretch(changes[k], newLines, n) {
      var x: nat :| x < |lines| && RunStart(lines, x) && OldAt(lines, x) == k;
      InfoIsStretch(lines, newLines, x, RunEnd(lines, x));
    }
  }

  lemma InfoIsStretch(lines: seq<DiffLine>, newLines: seq<Bytes>, a: nat, b: nat)
    requires a <= b <= |lines| && NewCount(lines) == |newLines|
    ensures IsStretch(Info(lines, newLines, a, b), newLines, NewAt(lines, a))
  {
    hide OldAt, NewAt, Interval;
    CountsGrow(lines, a, b);
    CountsGrow(lines, b, |lines|);
    WholeCount(lines);
  }

  // ----- What the changes mean -----

  /** Reference line x is taken out by a change. */
  ghost predicate TakenOut(changes: map<nat, ChangeInfo>, x: nat) {
    exists k :: k in changes && k <= x < EndOf(changes, k)
  }

  ghost function PutIn(changes: map<nat, ChangeInfo>, x: nat): seq<Bytes> {
    if x in changes then changes[x].replacement else []
  }

  /** The first x reference lines with the changes that begin before line x applied. */
  ghost function Patched(reference: seq<Bytes>, changes: map<nat, ChangeInfo>, x: nat): seq<Bytes>
    requires x <= |reference|
  {
    if x == 0 then []
    else
      Patched(reference, changes, x - 1) + PutIn(changes, x - 1)
      + (if TakenOut(changes, x - 1) then [] else [reference[x - 1]])
  }

  /** The reference with all changes applied. */
  ghost function Rebuilt(reference: seq<Bytes>, changes: map<nat, ChangeInfo>): seq<Bytes> {
    Patched(reference, changes, |reference|) + PutIn(changes, |reference|)
  }

  /** The run that begins at line a, as a change. */
  lemma RunAt(lines: seq<DiffLine>, newLines: seq<Bytes>, a: nat)
    requires NewCount(lines) == |newLines| && RunStart(lines, a)
    ensures var changes, k := ChangesOf(lines, newLines), OldAt(lines, a);
            && k in changes && EndOf(changes, k) == OldAt(lines, RunEnd(lines, a))
            && changes[k].replacement == Info(lines, newLines, a, RunEnd(lines, a)).replacement
  {
    KeysAreRuns(lines, newLines, |lines|);
    CountsGrow(lines, a, RunEnd(lines, a));
  }

  lemma KeyHasRun(lines: seq<DiffLine>, newLines: seq<Bytes>, k: nat) returns (a: nat)
    requires NewCount(lines) == |newLines| && k in ChangesOf(lines, newLines)
    ensures a < |lines| && RunStart(lines, a) && OldAt(lines, a) == k
  {
    KeysAreRuns(lines, newLines, |lines|);
    a :| a < |lines| && RunStart(lines, a) && OldAt(lines, a) == k;
  }

  /** An unchanged line is in no change. */
  lemma UnchangedIsKept(lines: seq<DiffLine>, newLines: seq<Bytes>, i: nat)
    requires NewCount(lines) == |newLines| && i < |lines| && !Changed(lines, i)
    ensures !TakenOut(ChangesOf(lines, newLines), OldAt(lines, i))
  {
    var changes, x := ChangesOf(lines, newLines), OldAt(lines, i);
    CountsAt(lines, i);
    hide ChangesBefore, OldAt, NewAt, RunEnd, Info;
    forall k | k in changes ensures !(k <= x < EndOf(changes, k)) {
      var a := KeyHasRun(lines, newLines, k);
      RunAt(lines, newLines, a);
      if a > i { CountsGrow(lines, i + 1, a); } else { CountsGrow(lines, RunEnd(lines, a), i); }
    }
  }

  /** No change begins at an unchanged line behind another one. */
  lemma UnchangedBeginsNothing(lines: seq<DiffLine>, newLines: seq<Bytes>, i: nat)
    requires NewCount(lines) == |newLines| && i < |lines| && !Changed(lines, i)
    requires i == 0 || !Changed(lines, i - 1)
    ensures OldAt(lines, i) !in ChangesOf(lines, newLines)
  {
    var changes, x := ChangesOf(lines, newLines), OldAt(lines, i);
    hide ChangesOf, OldAt, NewAt, Info;
    if x in changes {
      var a := KeyHasRun(lines, newLines, x);
      CountsAt(lines, i);
      if a > i {
        CountsGrow(lines, i + 1, a);
      } else {
        assert a < i - 1;
        CountsAt(lines, i - 1);
        CountsGrow(lines, a, i - 1);
      }
      assert false;
    }
  }

  /** Inside a run, the reference lines behind its first are taken out and nothing is put in. */
  lemma {:induction false} PatchedInRun(lines: seq<DiffLine>, reference: seq<Bytes>, newLines: seq<Bytes>, a: nat,
                                        x: nat)
    requires Aligns(lines, reference, newLines) && RunStart(lines, a)
    requires OldAt(lines, a) < x <= OldAt(lines, RunEnd(lines, a)) <= |reference|
    ensures var changes := ChangesOf(lines, newLines);
            OldAt(lines, a) <= |reference| &&
            Patched(reference, changes, x)
              == Patched(reference, changes, OldAt(lines, a)) + PutIn(changes, OldAt(lines, a))
    decreases x
  {
    hide ChangesBefore, OldAt, NewAt, RunEnd, Changed, WellNumbered;
    var changes, k := ChangesOf(lines, newLines), OldAt(lines, a);
    RunAt(lines, newLines, a);
    assert TakenOut(changes, x - 1);
    if x - 1 > k {
      PatchedInRun(lines, reference, newLines, a, x - 1);
      ChangesAreSeparate(lines, newLines);
      assert x - 1 !in changes;
    }
  }

  /** Line i is the first line or stands behind an unchanged one. */
  predicate Clean(lines: seq<DiffLine>, i: nat) {
    i == 0 || !Changed(lines, i - 1)
  }

  /** The start of the run that ends before line b. */
  function RunFrom(lines: seq<DiffLine>, b: nat): (a: nat)
    requires b <= |lines|
    ensures a <= b && Clean(lines, a) && forall x :: a <= x < b ==> Changed(lines, x)
  {
    if Clean(lines, b) then b else RunFrom(lines, b - 1)
  }

  lemma RunFromEnds(lines: seq<DiffLine>, b: nat)
    requires b <= |lines| && !Changed(lines, b) && !Clean(lines, b)
    ensures RunFrom(lines, b) < b && RunStart(lines, RunFrom(lines, b)) && RunEnd(lines, RunFrom(lines, b)) == b
  {
    var a := RunFrom(lines, b);
    var e := RunEnd(lines, a);
    assert e >= b;
  }

  lemma OldWholeCount(lines: seq<DiffLine>)
    ensures OldAt(lines, |lines|) == OldCount(lines)
  {
    assert lines[..|lines|] == lines;
  }

  /** The first n lines of the new file are rebuilt once x reference lines are passed. */
  ghost predicate RebuiltTo(reference: seq<Bytes>, newLines: seq<Bytes>, changes: map<nat, ChangeInfo>, x: nat,
                            n: nat) {
    x <= |reference| && n <= |newLines| && Patched(reference, changes, x) == newLines[..n]
  }

  /** What a run puts in: the new lines between its new counts. */
  lemma RunPutsIn(lines: seq<DiffLine>, newLines: seq<Bytes>, a: nat)
    requires NewCount(lines) == |newLines| && RunStart(lines, a)
    ensures var b := RunEnd(lines, a);
            && NewAt(lines, a) <= NewAt(lines, b) <= |newLines|
            && newLines[..NewAt(lines, b)]
                 == newLines[..NewAt(lines, a)] + PutIn(ChangesOf(lines, newLines), OldAt(lines, a))
  {
    var b := RunEnd(lines, a);
    CountsGrow(lines, a, b);
    CountsGrow(lines, b, |lines|);
    WholeCount(lines);
    RunAt(lines, newLines, a);
    hide ChangesOf, OldAt, NewAt, RunEnd, Changed;
    assert PutIn(ChangesOf(lines, newLines), OldAt(lines, a)) == newLines[NewAt(lines, a)..NewAt(lines, b)];
  }

  /** Where a run ends behind where it began, no change begins. */
  lemma NothingBeginsAtRunEnd(lines: seq<DiffLine>, newLines: seq<Bytes>, a: nat)
    requires NewCount(lines) == |newLines| && RunStart(lines, a)
    requires OldAt(lines, a) < OldAt(lines, RunEnd(lines, a))
    ensures OldAt(lines, RunEnd(lines, a)) !in ChangesOf(lines, newLines)
  {
    RunAt(lines, newLines, a);
    ChangesAreSeparate(lines, newLines);
    hide ChangesOf, OldAt, RunEnd, Info;
  }

  /** Over a run a..b, up to the unchanged line b or the end of the file. */
  lemma PatchedOverRun(lines: seq<DiffLine>, reference: seq<Bytes>, newLines: seq<Bytes>, a: nat)
    requires Aligns(lines, reference, newLines) && RunStart(lines, a)
    requires RebuiltTo(reference, newLines, ChangesOf(lines, newLines), OldAt(lines, a), NewAt(lines, a))
    ensures var changes, b := ChangesOf(lines, newLines), RunEnd(lines, a);
            var x := OldAt(lines, b);
            && x <= |reference| && NewAt(lines, b) <= |newLines|
            && Patched(reference, changes, x) + PutIn(changes, x) == newLines[..NewAt(lines, b)]
  {
    var changes, b := ChangesOf(lines, newLines), RunEnd(lines, a);
    CountsGrow(lines, a, b);
    CountsGrow(lines, b, |lines|);
    OldWholeCount(lines);
    RunPutsIn(lines, newLines, a);
    hide ChangesOf, OldAt, NewAt, RunEnd, Changed, Patched;
    if OldAt(lines, a) < OldAt(lines, b) {
      PatchedInRun(lines, reference, newLines, a, OldAt(lines, b));
      NothingBeginsAtRunEnd(lines, newLines, a);
    }
  }

  /** Up to every line that stands behind an unchanged one, the changes rebuild the new file. */
  lemma {:induction false} PatchedUpTo(lines: seq<DiffLine>, reference: seq<Bytes>, newLines: seq<Bytes>, i: nat)
    requires Aligns(lines, reference, newLines)
    requires i <= |lines| && Clean(lines, i)
    ensures RebuiltTo(reference, newLines, ChangesOf(lines, newLines), OldAt(lines, i), NewAt(lines, i))
    decreases i
  {
    if i > 0 {
      var changes := ChangesOf(lines, newLines);
      UnchangedIsKept(lines, newLines, i - 1);
      CountsAt(lines, i - 1);
      UnchangedLine(lines, reference, newLines, i - 1);
      hide ChangesOf, OldAt, NewAt, RunEnd, WellNumbered, TakenOut, Patched;
      if Clean(lines, i - 1) {
        UnchangedBeginsNothing(lines, newLines, i - 1);
        PatchedUpTo(lines, reference, newLines, i - 1);
      } else {
        var a := RunFrom(lines, i - 1);
        RunFromEnds(lines, i - 1);
        PatchedUpTo(lines, reference, newLines, a);
        PatchedOverRun(lines, reference, newLines, a);
      }
      KeepLine(reference, newLines, changes, OldAt(lines, i - 1), NewAt(lines, i - 1));
    } else {
      assert lines[..0] == [];
    }
  }

  lemma KeepLine(reference: seq<Bytes>, newLines: seq<Bytes>, changes: map<nat, ChangeInfo>, x: nat, n: nat)
    requires x < |reference| && n < |newLines| && reference[x] == newLines[n] && !TakenOut(changes, x)
    requires Patched(reference, changes, x) + PutIn(changes, x) == newLines[..n]
    ensures RebuiltTo(reference, newLines, changes, x + 1, n + 1)
  {
    hide TakenOut, PutIn;
    assert newLines[..n + 1] == newLines[..n] + [newLines[n]];
  }

  lemma UnchangedLine(lines: seq<DiffLine>, reference: seq<Bytes>, newLines: seq<Bytes>, i: nat)
    requires Aligns(lines, reference, newLines) && i < |lines| && !Changed(lines, i)
    ensures OldAt(lines, i) < |reference| && NewAt(lines, i) < |newLines|
    ensures reference[OldAt(lines, i)] == newLines[NewAt(lines, i)]
  {
  }

  /** The extracted changes are the whole difference: applied to the reference they give the file. */
  lemma ChangesRebuildTheFile(lines: seq<DiffLine>, reference: seq<Bytes>, newLines: seq<Bytes>)
    requires Aligns(lines, reference, newLines)
    ensures Rebuilt(reference, ChangesOf(lines, newLines)) == newLines
  {
    var changes, n := ChangesOf(lines, newLines), |lines|;
    WholeCount(lines);
    OldWholeCount(lines);
    if Clean(lines, n) {
      PatchedUpTo(lines, reference, newLines, n);
      NothingBehindTheEnd(lines, newLines);
    } else {
      var a := RunFrom(lines, n);
      RunFromEnds(lines, n);
      PatchedUpTo(lines, reference, newLines, a);
      PatchedOverRun(lines, reference, newLines, a);
    }
  }

  lemma NothingBehindTheEnd(lines: seq<DiffLine>, newLines: seq<Bytes>)
    requires NewCount(lines) == |newLines| && Clean(lines, |lines|)
    ensures OldCount(lines) !in ChangesOf(lines, newLines)
  {
    OldWholeCount(lines);
    hide ChangesOf, OldAt, NewAt, Info;
    if OldCount(lines) in ChangesOf(lines, newLines) {
      var a := KeyHasRun(lines, newLines, OldCount(lines));
      CountsAt(lines, |lines| - 1);
      CountsGrow(lines, a, |lines| - 1);
      assert false;
    }
  }
}
