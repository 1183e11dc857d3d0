/** The numbered edit script of two texts and its hunks. */
module DiffScript {
  import opened Texts
  import opened Content

  datatype Tag = Equal | Delete | Insert

  datatype Change = Change(tag: Tag, value: Bytes)

  datatype DiffLine = DiffLine(tag: Tag, value: Bytes, oldIndex: Option<nat>, newIndex: Option<nat>)

  datatype Hunk = Hunk(start: nat, end: nat, oldStart: nat, newStart: nat)

  datatype DiffResult = Same | Modified(hunks: seq<Hunk>, mergeHunks: seq<Hunk>, lines: seq<DiffLine>)

  const CONTEXT: nat := 3

  // ----- The diff library -----

  type Differ = (seq<Bytes>, seq<Bytes>) -> seq<Change>

  function OldOf(changes: seq<Change>): seq<Bytes> {
    if changes == [] then []
    else
      var last, before := changes[|changes| - 1], OldOf(changes[..|changes| - 1]);
      if last.tag == Insert then before else before + [last.value]
  }

  function NewOf(changes: seq<Change>): seq<Bytes> {
    if changes == [] then []
    else
      var last, before := changes[|changes| - 1], NewOf(changes[..|changes| - 1]);
      if last.tag == Delete then before else before + [last.value]
  }

  /** In a run of changes the deletions come first. */
  ghost predicate DeletesFirst(changes: seq<Change>) {
    forall i :: 0 <= i < |changes| - 1 && changes[i].tag == Insert ==> changes[i + 1].tag != Delete
  }

  /** What is asked of the diff library: a script from the old lines to the new ones. */
  ghost predicate Sound(diff: Differ) {
    forall oldSide, newSide {:trigger diff(oldSide, newSide)} ::
      OldOf(diff(oldSide, newSide)) == oldSide && NewOf(diff(oldSide, newSide)) == newSide
        && DeletesFirst(diff(oldSide, newSide))
  }

  // ----- Numbering -----

  function OldCount(lines: seq<DiffLine>): nat {
    if lines == [] then 0
    else OldCount(lines[..|lines| - 1]) + (if lines[|lines| - 1].tag == Insert then 0 else 1)
  }

  function NewCount(lines: seq<DiffLine>): nat {
    if lines == [] then 0
    else NewCount(lines[..|lines| - 1]) + (if lines[|lines| - 1].tag == Delete then 0 else 1)
  }

  /** Every line carries its side's counts of the lines before it, on the sides it belongs to. */
  ghost predicate WellNumbered(lines: seq<DiffLine>) {
    forall i :: 0 <= i < |lines| ==>
      && lines[i].oldIndex == (if lines[i].tag == Insert then None else Some(OldCount(lines[..i])))
      && lines[i].newIndex == (if lines[i].tag == Delete then None else Some(NewCount(lines[..i])))
  }

  /** The lines carry the values of the two sides at their numbers, and number all of them. */
  ghost predicate Aligns(lines: seq<DiffLine>, oldSide: seq<Bytes>, newSide: seq<Bytes>) {
    && WellNumbered(lines)
    && OldCount(lines) == |oldSide| && NewCount(lines) == |newSide|
    && (forall i :: 0 <= i < |lines| && lines[i].oldIndex.Some? ==>
          lines[i].oldIndex.value < |oldSide| && oldSide[lines[i].oldIndex.value] == lines[i].value)
    && (forall i :: 0 <= i < |lines| && lines[i].newIndex.Some? ==>
          lines[i].newIndex.value < |newSide| && newSide[lines[i].newIndex.value] == lines[i].value)
  }

  /** The lines of a script, each numbered by the lines before it. */
  function Numbered(changes: seq<Change>): (lines: seq<DiffLine>)
    ensures |lines| == |changes|
  {
    if changes == [] then []
    else
      var before, c := Numbered(changes[..|changes| - 1]), changes[|changes| - 1];
      before + [DiffLine(c.tag, c.value,
                         if c.tag == Insert then None else Some(OldCount(before)),
                         if c.tag == Delete then None else Some(NewCount(before)))]
  }

  /** The numbering loop. */
  method NumberLines(changes: seq<Change>) returns (lines: seq<DiffLine>)
    ensures lines == Numbered(changes)
  {
    lines := [];
    var oldIndex, newIndex := 0, 0;
    for i := 0 to |changes|
      invariant lines == Numbered(changes[..i])
      invariant oldIndex == OldCount(lines) && newIndex == NewCount(lines)
    {
      var change := changes[i];
      assert changes[..i + 1][..i] == changes[..i];
      var line;
      match change.tag {
        case Equal =>
          line := DiffLine(Equal, change.value, Some(oldIndex), Some(newIndex));
          oldIndex, newIndex := oldIndex + 1, newIndex + 1;
        case Delete =>
          line := DiffLine(Delete, change.value, Some(oldIndex), None);
          oldIndex := oldIndex + 1;
        case Insert =>
          line := DiffLine(Insert, change.value, None, Some(newIndex));
          newIndex := newIndex + 1;
      }
      assert (lines + [line])[..|lines|] == lines;
      lines := lines + [line];
    }
    assert changes[..|changes|] == changes;
  }

  lemma {:induction false} NumberedTags(changes: seq<Change>)
    ensures forall i :: 0 <= i < |changes| ==> Numbered(changes)[i].tag == changes[i].tag
  {
    if changes != [] {
      NumberedTags(changes[..|changes| - 1]);
    }
  }

  /** The numbers agree with the two sides, whatever the changes. */
  lemma {:induction false} NumberedAligns(changes: seq<Change>)
    ensures Aligns(Numbered(changes), OldOf(changes), NewOf(changes))
  {
    NothingAligns();
    hide Aligns, OldOf, NewOf;
    if changes != [] {
      var n := |changes| - 1;
      NumberedAligns(changes[..n]);
      SidesGrow(changes, n);
      assert changes[..n + 1] == changes;
      AlignsGrows(Numbered(changes[..n]), Numbered(changes)[n], OldOf(changes[..n]), NewOf(changes[..n]));
    }
  }

  lemma NothingAligns()
    ensures Aligns([], OldOf([]), NewOf([]))
    ensures OldCount([]) == 0 && NewCount([]) == 0
  {
  }

  lemma AlignsGrows(lines: seq<DiffLine>, line: DiffLine, oldSide: seq<Bytes>, newSide: seq<Bytes>)
    requires Aligns(lines, oldSide, newSide)
    requires line.oldIndex == (if line.tag == Insert then None else Some(OldCount(lines)))
    requires line.newIndex == (if line.tag == Delete then None else Some(NewCount(lines)))
    ensures Aligns(lines + [line], if line.tag == Insert then oldSide else oldSide + [line.value],
                                   if line.tag == Delete then newSide else newSide + [line.value])
    ensures OldCount(lines + [line]) == OldCount(lines) + (if line.tag == Insert then 0 else 1)
    ensures NewCount(lines + [line]) == NewCount(lines) + (if line.tag == Delete then 0 else 1)
  {
    var longer := lines + [line];
    assert longer[..|lines|] == lines;
    forall i | 0 <= i < |longer|
      ensures longer[..i] == if i < |lines| then lines[..i] else lines
    {
    }
  }

  lemma SidesGrow(changes: seq<Change>, i: nat)
    requires i < |changes|
    ensures var c := changes[i];
            && OldOf(changes[..i + 1])
                 == (if c.tag == Insert then OldOf(changes[..i]) else OldOf(changes[..i]) + [c.value])
            && NewOf(changes[..i + 1])
                 == (if c.tag == Delete then NewOf(changes[..i]) else NewOf(changes[..i]) + [c.value])
  {
    assert changes[..i + 1][..i] == changes[..i];
  }

  // ----- Hunks -----

  predicate Changed(lines: seq<DiffLine>, c: int) {
    0 <= c < |lines| && lines[c].tag != Equal
  }

  /** Line x is within `context` lines of a change. */
  ghost predicate Near(lines: seq<DiffLine>, context: nat, x: int) {
    0 <= x < |lines| && exists c :: Changed(lines, c) && c - context <= x <= c + context
  }

  ghost predicate InHunk(h: Hunk, x: int) {
    h.start <= x < h.end
  }

  /** Hunks with lines between each two, holding only lines near a change. */
  ghost predicate Apart(lines: seq<DiffLine>, context: nat, hunks: seq<Hunk>) {
    && (forall i :: 0 <= i < |hunks| ==> hunks[i].start < hunks[i].end <= |lines|)
    && (forall i, j :: 0 <= i < j < |hunks| ==> hunks[i].end < hunks[j].start)
    && (forall i, x :: 0 <= i < |hunks| && InHunk(hunks[i], x) ==> Near(lines, context, x))
  }

  ghost predicate Covered(hunks: seq<Hunk>, x: int) {
    exists i :: 0 <= i < |hunks| && InHunk(hunks[i], x)
  }

  /** The starting numbers are the counts of the lines before the hunk. */
  ghost predicate Counted(lines: seq<DiffLine>, h: Hunk) {
    h.start <= |lines| && h.oldStart == OldCount(lines[..h.start]) && h.newStart == NewCount(lines[..h.start])
  }

  /** The hunks are the maximal runs of lines within `context` lines of a change, in order. */
  ghost predicate HunksOf(lines: seq<DiffLine>, context: nat, hunks: seq<Hunk>) {
    && Apart(lines, context, hunks)
    && (forall x :: Near(lines, context, x) ==> Covered(hunks, x))
    && (forall i :: 0 <= i < |hunks| ==> Counted(lines, hunks[i]))
  }

  /** The indexes of the changed lines, in order. */
  function ChangeIndices(lines: seq<DiffLine>): (indices: seq<nat>)
    ensures forall c :: c in indices <==> Changed(lines, c)
    ensures forall i, j :: 0 <= i < j < |indices| ==> indices[i] < indices[j]
  {
    if lines == [] then []
    else
      var front := lines[..|lines| - 1];
      var before := ChangeIndices(front);
      assert forall c :: Changed(front, c) <==> Changed(lines, c) && c < |front|;
      assert forall i :: 0 <= i < |before| ==> before[i] in before && Changed(front, before[i]);
      before + (if lines[|lines| - 1].tag == Equal then [] else [|lines| - 1])
  }

  /** Counts on from the counts at `position` to those at `start`. */
  method CountTo(lines: seq<DiffLine>, position: nat, start: nat, oldAt: nat, newAt: nat)
      returns (oldStart: nat, newStart: nat)
    requires position <= start <= |lines|
    requires oldAt == OldCount(lines[..position]) && newAt == NewCount(lines[..position])
    ensures oldStart == OldCount(lines[..start]) && newStart == NewCount(lines[..start])
  {
    oldStart, newStart := oldAt, newAt;
    for i := position to start
      invariant oldStart == OldCount(lines[..i]) && newStart == NewCount(lines[..i])
    {
      assert lines[..i + 1][..i] == lines[..i];
      match lines[i].tag {
        case Equal => oldStart, newStart := oldStart + 1, newStart + 1;
        case Delete => oldStart := oldStart + 1;
        case Insert => newStart := newStart + 1;
      }
    }
  }

  function Minus(a: nat, b: nat): nat { if a < b then 0 else a - b }

  function Smaller(a: nat, b: nat): nat { if a < b then a else b }

  /** Everything near the changes `done` is covered by the finished hunks or by start..end. */
  ghost predicate CoveredSoFar(lines: seq<DiffLine>, context: nat, done: seq<nat>, hunks: seq<Hunk>, start: nat,
                               end: nat) {
    forall c, x :: c in done && 0 <= x < |lines| && c - context <= x <= c + context ==>
      Covered(hunks, x) || start <= x < end
  }

  /** With the changes `done` behind it, the last of them at `c`: the finished hunks, and the open
      one start..end. */
  ghost predicate Building(lines: seq<DiffLine>, context: nat, done: seq<nat>, c: nat, hunks: seq<Hunk>, start: nat,
                           end: nat) {
    && start <= Minus(c, context)
    && start < end == Smaller(c + context + 1, |lines|)
    && Apart(lines, context, hunks)
    && (forall k :: 0 <= k < |hunks| ==> hunks[k].end < start && Counted(lines, hunks[k]))
    && (forall x :: start <= x < end ==> Near(lines, context, x))
    && CoveredSoFar(lines, context, done, hunks, start, end)
  }

  lemma FirstHunk(lines: seq<DiffLine>, context: nat, c: nat)
    requires Changed(lines, c)
    ensures Building(lines, context, [c], c, [], Minus(c, context), Smaller(c + context + 1, |lines|))
  {
  }

  lemma WidenHunk(lines: seq<DiffLine>, context: nat, done: seq<nat>, last: nat, hunks: seq<Hunk>, start: nat,
                  end: nat, c: nat)
    requires Building(lines, context, done, last, hunks, start, end)
    requires last < c && Changed(lines, c) && Minus(c, context) <= end
    ensures Building(lines, context, done + [c], c, hunks, start, Smaller(c + context + 1, |lines|))
  {
    var next := Smaller(c + context + 1, |lines|);
    forall x | start <= x < next ensures Near(lines, context, x) {
      if x >= end { assert c - context <= x <= c + context; }
    }
    hide Near, Apart, Covered;
  }

  lemma NextHunk(lines: seq<DiffLine>, context: nat, done: seq<nat>, last: nat, hunks: seq<Hunk>, start: nat,
                 end: nat, h: Hunk, c: nat)
    requires Building(lines, context, done, last, hunks, start, end)
    requires Changed(lines, c) && end < Minus(c, context)
    requires h.start == start && h.end == end && Counted(lines, h)
    ensures Building(lines, context, done + [c], c, hunks + [h], Minus(c, context), Smaller(c + context + 1, |lines|))
  {
    CoverageGrows(hunks, h);
    forall x | Minus(c, context) <= x < Smaller(c + context + 1, |lines|) ensures Near(lines, context, x) {
    }
    hide Near, Covered;
  }

  lemma LastHunk(lines: seq<DiffLine>, context: nat, last: nat, hunks: seq<Hunk>, start: nat, end: nat, h: Hunk)
    requires Building(lines, context, ChangeIndices(lines), last, hunks, start, end)
    requires h.start == start && h.end == end && Counted(lines, h)
    ensures HunksOf(lines, context, hunks + [h])
  {
    hide ChangeIndices;
    CoverageGrows(hunks, h);
    hide Covered;
  }

  method BuildHunks(lines: seq<DiffLine>, context: nat) returns (hunks: seq<Hunk>)
    ensures HunksOf(lines, context, hunks)
  {
    hunks := [];
    if lines == [] { return; }
    var changes := ChangeIndices(lines);
    if changes == [] {
      NoHunks(lines, context);
      return;
    }
    hide HunksOf, Building, ChangeIndices, Changed, OldCount, NewCount;
    var position: nat, oldStart: nat, newStart: nat := 0, 0, 0;
    var hunkStart: nat, hunkEnd: nat := Minus(changes[0], context), Smaller(changes[0] + context + 1, |lines|);
    assert changes[0] in changes;
    FirstHunk(lines, context, changes[0]);
    assert changes[..1] == [changes[0]];
    for i := 1 to |changes|
      invariant position <= hunkStart <= |lines|
      invariant oldStart == OldCount(lines[..position]) && newStart == NewCount(lines[..position])
      invariant Building(lines, context, changes[..i], changes[i - 1], hunks, hunkStart, hunkEnd)
    {
      var c := changes[i];
      assert c in changes && changes[i - 1] < c;
      assert changes[..i + 1] == changes[..i] + [c];
      var cStart := Minus(c, context);
      if cStart <= hunkEnd {
        WidenHunk(lines, context, changes[..i], changes[i - 1], hunks, hunkStart, hunkEnd, c);
        hunkEnd := Smaller(c + context + 1, |lines|);
      } else {
        oldStart, newStart := CountTo(lines, position, hunkStart, oldStart, newStart);
        position := hunkStart;
        var h := Hunk(hunkStart, hunkEnd, oldStart, newStart);
        NextHunk(lines, context, changes[..i], changes[i - 1], hunks, hunkStart, hunkEnd, h, c);
        hunks := hunks + [h];
        hunkStart := cStart;
        hunkEnd := Smaller(c + context + 1, |lines|);
      }
    }
    oldStart, newStart := CountTo(lines, position, hunkStart, oldStart, newStart);
    var h := Hunk(hunkStart, hunkEnd, oldStart, newStart);
    assert changes[..|changes|] == changes;
    LastHunk(lines, context, changes[|changes| - 1], hunks, hunkStart, hunkEnd, h);
    hunks := hunks + [h];
  }

  lemma NoHunks(lines: seq<DiffLine>, context: nat)
    requires ChangeIndices(lines) == []
    ensures HunksOf(lines, context, [])
  {
    assert forall c :: Changed(lines, c) ==> c in ChangeIndices(lines);
  }

  lemma CoverageGrows(hunks: seq<Hunk>, h: Hunk)
    ensures forall x :: Covered(hunks + [h], x) <==> Covered(hunks, x) || InHunk(h, x)
  {
    forall x | Covered(hunks, x) ensures Covered(hunks + [h], x) {
      var i :| 0 <= i < |hunks| && InHunk(hunks[i], x);
      assert InHunk((hunks + [h])[i], x);
    }
    forall x | InHunk(h, x) ensures Covered(hunks + [h], x) {
      assert InHunk((hunks + [h])[|hunks|], x);
    }
  }

  /** Two hunk lists of the same script are the same list. */
  lemma {:induction false} HunksAreUnique(lines: seq<DiffLine>, context: nat, a: seq<Hunk>, b: seq<Hunk>)
    requires HunksOf(lines, context, a) && HunksOf(lines, context, b)
    ensures a == b
  {
    HunkPrefix(lines, context, a, b, |a|);
    HunkPrefix(lines, context, b, a, |b|);
  }

  lemma {:induction false} HunkPrefix(lines: seq<DiffLine>, context: nat, a: seq<Hunk>, b: seq<Hunk>, n: nat)
    requires HunksOf(lines, context, a) && HunksOf(lines, context, b)
    requires n <= |a|
    ensures n <= |b| && a[..n] == b[..n]
  {
    if n > 0 {
      var k := n - 1;
      HunkPrefix(lines, context, a, b, k);
      OneMore(lines, context, a, b, k);
      SameStart(lines, context, a, b, k);
      SameEnd(lines, context, a, b, k);
      SameEnd(lines, context, b, a, k);
      SameCounts(lines, context, a, b, k);
      hide HunksOf;
      assert a[..n] == a[..k] + [a[k]] && b[..n] == b[..k] + [b[k]];
    }
  }

  lemma OneMore(lines: seq<DiffLine>, context: nat, a: seq<Hunk>, b: seq<Hunk>, k: nat)
    requires HunksOf(lines, context, a) && HunksOf(lines, context, b)
    requires k < |a| && k <= |b| && a[..k] == b[..k]
    ensures k < |b|
  {
    assert InHunk(a[k], a[k].start);
    assert Covered(b, a[k].start);
    var j :| 0 <= j < |b| && InHunk(b[j], a[k].start);
    assert forall i :: 0 <= i < k ==> b[i] == b[..k][i] && a[i] == a[..k][i];
    assert j >= k;
  }

  lemma SameCounts(lines: seq<DiffLine>, context: nat, a: seq<Hunk>, b: seq<Hunk>, k: nat)
    requires HunksOf(lines, context, a) && HunksOf(lines, context, b)
    requires k < |a| && k < |b| && a[k].start == b[k].start && a[k].end == b[k].end
    ensures a[k] == b[k]
  {
    assert Counted(lines, a[k]) && Counted(lines, b[k]);
  }

  lemma SameStart(lines: seq<DiffLine>, context: nat, a: seq<Hunk>, b: seq<Hunk>, k: nat)
    requires HunksOf(lines, context, a) && HunksOf(lines, context, b)
    requires k < |a| && k < |b| && a[..k] == b[..k]
    ensures a[k].start == b[k].start
  {
    NotBefore(lines, context, a, b, k);
    NotBefore(lines, context, b, a, k);
  }

  lemma NotBefore(lines: seq<DiffLine>, context: nat, a: seq<Hunk>, b: seq<Hunk>, k: nat)
    requires HunksOf(lines, context, a) && HunksOf(lines, context, b)
    requires k < |a| && k < |b| && a[..k] == b[..k]
    ensures b[k].start <= a[k].start
  {
    hide Near, Counted;
    var x := a[k].start;
    assert InHunk(a[k], x);
    assert Covered(b, x);
    var j :| 0 <= j < |b| && InHunk(b[j], x);
    assert forall i :: 0 <= i < k ==> b[i] == b[..k][i] && a[i] == a[..k][i];
    assert j >= k;
  }

  /** The line after a hunk is in no hunk. */
  lemma EndIsBare(hunks: seq<Hunk>, k: nat)
    requires forall i :: 0 <= i < |hunks| ==> hunks[i].start < hunks[i].end
    requires forall i, j :: 0 <= i < j < |hunks| ==> hunks[i].end < hunks[j].start
    requires k < |hunks|
    ensures !Covered(hunks, hunks[k].end)
  {
  }

  lemma SameEnd(lines: seq<DiffLine>, context: nat, a: seq<Hunk>, b: seq<Hunk>, k: nat)
    requires HunksOf(lines, context, a) && HunksOf(lines, context, b)
    requires k < |a| && k < |b| && a[k].start == b[k].start
    ensures a[k].end <= b[k].end
  {
    if a[k].end > b[k].end {
      EndIsBare(b, k);
      assert InHunk(a[k], b[k].end);
      assert false;
    }
  }

  /** Each merge hunk lies in exactly one display hunk. */
  lemma MergeHunkInOneDisplayHunk(lines: seq<DiffLine>, display: seq<Hunk>, merge: seq<Hunk>, m: nat) returns (d: nat)
    requires HunksOf(lines, CONTEXT, display) && HunksOf(lines, 0, merge)
    requires m < |merge|
    ensures d < |display| && Contains(display[d], merge[m])
    ensures forall e :: 0 <= e < |display| && Contains(display[e], merge[m]) ==> e == d
  {
    var h := merge[m];
    forall x | InHunk(h, x) ensures Covered(display, x) {
      assert Near(lines, 0, x);
      assert Near(lines, CONTEXT, x);
    }
    hide Near, HunksOf;
    assert InHunk(h, h.start);
    d :| 0 <= d < |display| && InHunk(display[d], h.start);
    EndIsBare(display, d);
    assert !InHunk(h, display[d].end);
    forall e | 0 <= e < |display| && Contains(display[e], h) ensures e == d {
      assert InHunk(display[e], h.start);
    }
  }

  predicate Contains(display: Hunk, merge: Hunk) {
    display.start <= merge.start && merge.end <= display.end
  }

  /** Every changed line lies in exactly one merge hunk, and merge hunks hold nothing else. */
  lemma ChangeInOneMergeHunk(lines: seq<DiffLine>, merge: seq<Hunk>, x: nat)
    requires HunksOf(lines, 0, merge)
    ensures Changed(lines, x) <==> Covered(merge, x)
    ensures forall i, j :: 0 <= i < |merge| && 0 <= j < |merge| && InHunk(merge[i], x) && InHunk(merge[j], x) ==> i == j
  {
    assert Changed(lines, x) ==> Near(lines, 0, x);
    if Covered(merge, x) {
      var i :| 0 <= i < |merge| && InHunk(merge[i], x);
      assert Near(lines, 0, x);
    }
    forall i, j | 0 <= i < |merge| && 0 <= j < |merge| && InHunk(merge[i], x) && InHunk(merge[j], x) ensures i == j {
      assert i < j || j < i || i == j;
    }
  }

  // ----- The whole script -----

  function ScriptLines(diff: Differ, oldText: Bytes, newText: Bytes): seq<DiffLine> {
    if oldText == newText then [] else Numbered(diff(LinesOf(oldText), LinesOf(newText)))
  }

  ghost predicate DeletionsLead(lines: seq<DiffLine>) {
    forall i :: 0 <= i < |lines| - 1 && lines[i].tag == Insert ==> lines[i + 1].tag != Delete
  }

  /** What every script of two different texts is. */
  ghost predicate IsScript(lines: seq<DiffLine>, oldText: Bytes, newText: Bytes) {
    Aligns(lines, LinesOf(oldText), LinesOf(newText)) && DeletionsLead(lines)
  }

  lemma ScriptLinesAreScript(diff: Differ, oldText: Bytes, newText: Bytes)
    requires Sound(diff) && oldText != newText
    ensures IsScript(ScriptLines(diff, oldText, newText), oldText, newText)
  {
    var changes := diff(LinesOf(oldText), LinesOf(newText));
    NumberedAligns(changes);
    NumberedTags(changes);
    hide Aligns, Numbered;
  }

  method BuildScript(diff: Differ, oldText: Bytes, newText: Bytes) returns (result: DiffResult)
    requires Sound(diff)
    ensures oldText == newText <==> result.Same?
    ensures result.Modified? ==>
              && result.lines == ScriptLines(diff, oldText, newText)
              && IsScript(result.lines, oldText, newText)
              && HunksOf(result.lines, CONTEXT, result.hunks)
              && HunksOf(result.lines, 0, result.mergeHunks)
  {
    if oldText == newText {
      return Same;
    }
    var lines := NumberLines(diff(LinesOf(oldText), LinesOf(newText)));
    ScriptLinesAreScript(diff, oldText, newText);
    var hunks := BuildHunks(lines, CONTEXT);
    var mergeHunks := BuildHunks(lines, 0);
    return Modified(hunks, mergeHunks, lines);
  }
}
