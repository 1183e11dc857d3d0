/** Taking chosen hunks from one side of a pair into the other, byte for byte. */
module HunkApply {
  import opened Texts
  import opened Content
  import opened DiffScript

  datatype Direction = RightToLeft | LeftToRight

  datatype PairScript = PairScript(left: Text, right: Text, full: DiffResult)

  ghost predicate ReadableText(t: Text) {
    Formed(t) && Aligned(t)
  }

  ghost predicate Valid(script: PairScript) {
    && ReadableText(script.left) && ReadableText(script.right)
    && (script.full.Same? <==> script.left.decoded == script.right.decoded)
    && (script.full.Modified? ==>
          && IsScript(script.full.lines, script.left.decoded, script.right.decoded)
          && HunksOf(script.full.lines, CONTEXT, script.full.hunks)
          && HunksOf(script.full.lines, 0, script.full.mergeHunks))
  }

  /** The script of two texts; its hunks are determined by its lines. */
  ghost predicate ScriptOf(diff: Differ, left: Text, right: Text, script: PairScript) {
    && Valid(script) && script.left == left && script.right == right
    && (script.full.Modified? ==> script.full.lines == ScriptLines(diff, left.decoded, right.decoded))
  }

  method MakeScript(diff: Differ, left: Text, right: Text) returns (script: PairScript)
    requires Sound(diff) && ReadableText(left) && ReadableText(right)
    ensures ScriptOf(diff, left, right, script)
  {
    var full := BuildScript(diff, left.decoded, right.decoded);
    return PairScript(left, right, full);
  }

  function Target(script: PairScript, direction: Direction): Text {
    if direction == LeftToRight then script.right else script.left
  }

  function Source(script: PairScript, direction: Direction): Text {
    if direction == LeftToRight then script.left else script.right
  }

  /** The merge hunks inside the selected display hunks; numbers out of range select nothing. */
  function MergeHunksIn(display: seq<Hunk>, merge: seq<Hunk>, selected: set<nat>): set<nat> {
    set m: nat | m < |merge| && exists d :: d in selected && d < |display| && Contains(display[d], merge[m])
  }

  predicate InChosenHunk(hunks: seq<Hunk>, chosen: set<nat>, x: nat) {
    exists h: nat :: h < |hunks| && h in chosen && hunks[h].start <= x < hunks[h].end
  }

  /** Which side the line is taken from (true for the left), None if it is left out. */
  function Pick(line: DiffLine, chosen: bool, direction: Direction): Option<bool> {
    var fromLeft := if direction == LeftToRight then chosen else !chosen;
    match line.tag
    case Equal => Some(direction == RightToLeft)
    case Delete => if fromLeft then Some(true) else None
    case Insert => if fromLeft then None else Some(false)
  }

  /** The lines that make up the result, each with the side it is taken from. */
  function SelectedLines(lines: seq<DiffLine>, hunks: seq<Hunk>, chosen: set<nat>,
                         direction: Direction): (taken: seq<(DiffLine, bool)>)
  {
    if lines == [] then []
    else
      var n := |lines| - 1;
      var pick := Pick(lines[n], InChosenHunk(hunks, chosen, n), direction);
      SelectedLines(lines[..n], hunks, chosen, direction) + (if pick.None? then [] else [(lines[n], pick.value)])
  }

  /** The line has a number on the side it is taken from, and that side has the line. */
  predicate Takeable(left: Text, right: Text, entry: (DiffLine, bool)) {
    if entry.1 then entry.0.oldIndex.Some? && entry.0.oldIndex.value < |left.rawLines|
    else entry.0.newIndex.Some? && entry.0.newIndex.value < |right.rawLines|
  }

  ghost predicate AllTakeable(left: Text, right: Text, taken: seq<(DiffLine, bool)>) {
    forall i :: 0 <= i < |taken| ==> Takeable(left, right, taken[i])
  }

  function TakenBytes(left: Text, right: Text, entry: (DiffLine, bool)): Bytes
    requires Formed(left) && Formed(right)
  {
    if !Takeable(left, right, entry) then []
    else if entry.1 then RawLine(left, entry.0.oldIndex.value)
    else RawLine(right, entry.0.newIndex.value)
  }

  function Assembled(left: Text, right: Text, taken: seq<(DiffLine, bool)>): Bytes
    requires Formed(left) && Formed(right)
  {
    if taken == [] then []
    else Assembled(left, right, taken[..|taken| - 1]) + TakenBytes(left, right, taken[|taken| - 1])
  }

  function AppliedMergeHunks(script: PairScript, chosen: set<nat>, direction: Direction): Bytes
    requires Valid(script)
  {
    match script.full
    case Same => Target(script, direction).raw
    case Modified(_, mergeHunks, lines) =>
      Bom(Target(script, direction))
      + Assembled(script.left, script.right, SelectedLines(lines, mergeHunks, chosen, direction))
  }

  /** The content after the merge hunks inside the display hunks `selected` are taken over. */
  function Applied(script: PairScript, selected: set<nat>, direction: Direction): Bytes
    requires Valid(script)
  {
    var chosen := if script.full.Same? then {} else MergeHunksIn(script.full.hunks, script.full.mergeHunks, selected);
    AppliedMergeHunks(script, chosen, direction)
  }

  /** The copying loop. */
  method Assemble(left: Text, right: Text, start: Bytes, taken: seq<(DiffLine, bool)>) returns (result: Bytes)
    requires Formed(left) && Formed(right)
    requires AllTakeable(left, right, taken)
    ensures result == start + Assembled(left, right, taken)
  {
    hide Formed, RawLine, LinesOf, AllTakeable;
    result := start;
    for i := 0 to |taken|
      invariant result == start + Assembled(left, right, taken[..i])
    {
      EachTakeable(left, right, taken, i);
      var (line, fromLeft) := taken[i];
      var bytes := if fromLeft then RawLine(left, line.oldIndex.value) else RawLine(right, line.newIndex.value);
      assert bytes == TakenBytes(left, right, taken[i]);
      assert taken[..i + 1][..i] == taken[..i];
      result := result + bytes;
    }
    assert taken[..|taken|] == taken;
  }

  lemma EachTakeable(left: Text, right: Text, taken: seq<(DiffLine, bool)>, i: nat)
    requires AllTakeable(left, right, taken) && i < |taken|
    ensures Takeable(left, right, taken[i])
  {
  }

  method ApplyMergeHunks(script: PairScript, chosen: set<nat>, direction: Direction) returns (result: Bytes)
    requires Valid(script)
    ensures result == AppliedMergeHunks(script, chosen, direction)
  {
    var target := Target(script, direction);
    if script.full.Same? {
      return target.raw;
    }
    var lines := script.full.lines;
    assert lines[..|lines|] == lines;
    SelectedAreTakeable(script, chosen, direction, |lines|);
    hide Aligns, HunksOf, SelectedLines;
    var taken := SelectedLines(lines, script.full.mergeHunks, chosen, direction);
    assert taken == SelectedLines(lines[..|lines|], script.full.mergeHunks, chosen, direction);
    result := Assemble(script.left, script.right, Bom(target), taken);
  }

  /** Every selected line has the index of its side, within that side's lines. */
  lemma {:induction false} SelectedAreTakeable(script: PairScript, chosen: set<nat>, direction: Direction, k: nat)
    requires Valid(script) && script.full.Modified? && k <= |script.full.lines|
    ensures AllTakeable(script.left, script.right,
              SelectedLines(script.full.lines[..k], script.full.mergeHunks, chosen, direction))
  {
    hide Valid, InChosenHunk, OldCount, NewCount;
    if k > 0 {
      SelectedAreTakeable(script, chosen, direction, k - 1);
      LineIsNumbered(script, k - 1);
      var lines, hunks := script.full.lines, script.full.mergeHunks;
      assert lines[..k][..k - 1] == lines[..k - 1];
      var pick := Pick(lines[k - 1], InChosenHunk(hunks, chosen, k - 1), direction);
      var before, taken := SelectedLines(lines[..k - 1], hunks, chosen, direction),
          SelectedLines(lines[..k], hunks, chosen, direction);
      assert taken == if pick.None? then before else before + [(lines[k - 1], pick.value)];
      assert pick.Some? ==> Takeable(script.left, script.right, (lines[k - 1], pick.value));
    }
  }

  lemma LineIsNumbered(script: PairScript, i: nat)
    requires Valid(script) && script.full.Modified? && i < |script.full.lines|
    ensures var line := script.full.lines[i];
            && (line.tag != Insert ==>
                  && line.oldIndex == Some(OldCount(script.full.lines[..i]))
                  && line.oldIndex.value < |script.left.rawLines|)
            && (line.tag != Delete ==>
                  && line.newIndex == Some(NewCount(script.full.lines[..i]))
                  && line.newIndex.value < |script.right.rawLines|)
  {
  }

  method Apply(script: PairScript, selected: set<nat>, direction: Direction) returns (result: Bytes)
    requires Valid(script)
    ensures result == Applied(script, selected, direction)
  {
    hide Valid;
    var chosen := if script.full.Same? then {} else MergeHunksIn(script.full.hunks, script.full.mergeHunks, selected);
    result := ApplyMergeHunks(script, chosen, direction);
  }

  // ----- Line by line -----

  /** What line i adds to the result. */
  ghost function Piece(script: PairScript, chosen: set<nat>, direction: Direction, i: nat): Bytes
    requires Formed(script.left) && Formed(script.right)
    requires script.full.Modified? && i < |script.full.lines|
  {
    match Pick(script.full.lines[i], InChosenHunk(script.full.mergeHunks, chosen, i), direction)
    case None => []
    case Some(fromLeft) => TakenBytes(script.left, script.right, (script.full.lines[i], fromLeft))
  }

  /** What the first k lines add to the result. */
  ghost function Prefix(script: PairScript, chosen: set<nat>, direction: Direction, k: nat): Bytes
    requires Formed(script.left) && Formed(script.right)
    requires script.full.Modified? && k <= |script.full.lines|
  {
    Assembled(script.left, script.right,
              SelectedLines(script.full.lines[..k], script.full.mergeHunks, chosen, direction))
  }

  lemma PrefixGrows(script: PairScript, chosen: set<nat>, direction: Direction, k: nat)
    requires Formed(script.left) && Formed(script.right)
    requires script.full.Modified? && k < |script.full.lines|
    ensures Prefix(script, chosen, direction, k + 1)
            == Prefix(script, chosen, direction, k) + Piece(script, chosen, direction, k)
  {
    hide Formed, TakenBytes;
    var lines, hunks := script.full.lines, script.full.mergeHunks;
    assert lines[..k + 1][..k] == lines[..k];
    var before := SelectedLines(lines[..k], hunks, chosen, direction);
    var after := SelectedLines(lines[..k + 1], hunks, chosen, direction);
    var pick := Pick(lines[k], InChosenHunk(hunks, chosen, k), direction);
    if pick.Some? {
      assert after == before + [(lines[k], pick.value)];
      assert after[..|after| - 1] == before;
    } else {
      assert after == before;
    }
  }

  lemma AppliedIsPrefix(script: PairScript, chosen: set<nat>, direction: Direction)
    requires Valid(script) && script.full.Modified?
    ensures AppliedMergeHunks(script, chosen, direction)
         == Bom(Target(script, direction)) + Prefix(script, chosen, direction, |script.full.lines|)
  {
    hide Valid, Assembled, SelectedLines;
    assert script.full.lines[..|script.full.lines|] == script.full.lines;
  }

  // ----- Selecting nothing -----

  ghost function SideCount(lines: seq<DiffLine>, left: bool): nat {
    if left then OldCount(lines) else NewCount(lines)
  }

  ghost function SideLines(script: PairScript, left: bool): seq<Bytes>
    requires Formed(script.left) && Formed(script.right)
  {
    LinesOf(Body(if left then script.left else script.right))
  }

  /** Line k adds the next line of the side `left`, or nothing if it is not on that side. */
  ghost predicate AddsSide(script: PairScript, chosen: set<nat>, direction: Direction, left: bool, k: nat)
    requires Formed(script.left) && Formed(script.right)
    requires script.full.Modified? && k < |script.full.lines|
  {
    var lines := script.full.lines;
    var at := SideCount(lines[..k], left);
    if lines[k].tag == (if left then Insert else Delete)
    then Piece(script, chosen, direction, k) == [] && SideCount(lines[..k + 1], left) == at
    else at < |SideLines(script, left)| && Piece(script, chosen, direction, k) == SideLines(script, left)[at]
         && SideCount(lines[..k + 1], left) == at + 1
  }

  ghost predicate AllAddSide(script: PairScript, chosen: set<nat>, direction: Direction, left: bool, k: nat)
    requires Formed(script.left) && Formed(script.right)
    requires script.full.Modified? && k <= |script.full.lines|
  {
    forall i :: 0 <= i < k ==> AddsSide(script, chosen, direction, left, i)
  }

  /** If every line adds what one side has there, the result is that side. */
  lemma {:induction false} AddingUpASide(script: PairScript, chosen: set<nat>, direction: Direction, left: bool, k: nat)
    requires Formed(script.left) && Formed(script.right)
    requires script.full.Modified? && k <= |script.full.lines|
    requires AllAddSide(script, chosen, direction, left, k)
    ensures SideCount(script.full.lines[..k], left) <= |SideLines(script, left)|
    ensures Prefix(script, chosen, direction, k)
            == Flat(SideLines(script, left)[..SideCount(script.full.lines[..k], left)])
  {
    hide Piece, Formed, Prefix, SideLines, LinesOf;
    var lines, side := script.full.lines, SideLines(script, left);
    if k > 0 {
      AddingUpASide(script, chosen, direction, left, k - 1);
      PrefixGrows(script, chosen, direction, k - 1);
      assert AddsSide(script, chosen, direction, left, k - 1);
      var at := SideCount(lines[..k - 1], left);
      if SideCount(lines[..k], left) == at + 1 {
        assert side[..at + 1] == side[..at] + [side[at]];
        FlatAppend(side[..at], [side[at]]);
        assert Flat([side[at]]) == side[at];
      }
    } else {
      assert lines[..0] == [];
      EmptyPrefix(script, chosen, direction);
    }
  }

  lemma EmptyPrefix(script: PairScript, chosen: set<nat>, direction: Direction)
    requires Formed(script.left) && Formed(script.right) && script.full.Modified?
    ensures Prefix(script, chosen, direction, 0) == []
  {
  }

  lemma WholeSide(script: PairScript, chosen: set<nat>, direction: Direction, left: bool)
    requires Valid(script) && script.full.Modified?
    requires Formed(script.left) && Formed(script.right)
    requires AllAddSide(script, chosen, direction, left, |script.full.lines|)
    ensures AppliedMergeHunks(script, chosen, direction)
         == Bom(Target(script, direction)) + Body(if left then script.left else script.right)
  {
    var lines, side := script.full.lines, SideLines(script, left);
    AddingUpASide(script, chosen, direction, left, |lines|);
    AppliedIsPrefix(script, chosen, direction);
    assert lines[..|lines|] == lines;
    assert SideCount(lines, left) == |side|;
    assert side[..|side|] == side;
    LinesAreTheBytes(Body(if left then script.left else script.right));
  }

  lemma CountsStep(lines: seq<DiffLine>, k: nat)
    requires k < |lines|
    ensures OldCount(lines[..k + 1]) == OldCount(lines[..k]) + (if lines[k].tag == Insert then 0 else 1)
    ensures NewCount(lines[..k + 1]) == NewCount(lines[..k]) + (if lines[k].tag == Delete then 0 else 1)
  {
    assert lines[..k + 1][..k] == lines[..k];
  }

  lemma ValidTexts(script: PairScript)
    requires Valid(script)
    ensures Formed(script.left) && Formed(script.right)
  {
  }

  lemma UnchosenAddsTarget(script: PairScript, direction: Direction, i: nat)
    requires Valid(script) && script.full.Modified? && i < |script.full.lines|
    ensures AddsSide(script, {}, direction, direction == RightToLeft, i)
  {
    LineIsNumbered(script, i);
    CountsStep(script.full.lines, i);
    ValidTexts(script);
    hide Valid, OldCount, NewCount;
  }

  lemma NothingChosenAddsTarget(script: PairScript, direction: Direction)
    requires Valid(script) && script.full.Modified? && Formed(script.left) && Formed(script.right)
    ensures AllAddSide(script, {}, direction, direction == RightToLeft, |script.full.lines|)
  {
    hide Valid, Formed, AddsSide;
    var left := direction == RightToLeft;
    forall i: nat | i < |script.full.lines| ensures AddsSide(script, {}, direction, left, i) {
      UnchosenAddsTarget(script, direction, i);
    }
  }

  /** Selecting nothing gives the target's bytes exactly, in any encoding. */
  lemma NothingSelectedIsTarget(script: PairScript, direction: Direction)
    requires Valid(script)
    ensures Applied(script, {}, direction) == Target(script, direction).raw
  {
    ValidTexts(script);
    if script.full.Modified? {
      AppliedNothing(script, direction);
      hide Applied, Valid, AddsSide, AllAddSide, AppliedMergeHunks;
      NothingChosenAddsTarget(script, direction);
      WholeSide(script, {}, direction, direction == RightToLeft);
      BomAndBody(Target(script, direction));
    }
  }

  lemma AppliedNothing(script: PairScript, direction: Direction)
    requires Valid(script) && script.full.Modified?
    ensures Applied(script, {}, direction) == AppliedMergeHunks(script, {}, direction)
  {
    hide Valid, AppliedMergeHunks;
    assert MergeHunksIn(script.full.hunks, script.full.mergeHunks, {}) == {};
  }

  lemma BomAndBody(t: Text)
    requires t.bomLen <= |t.raw|
    ensures Bom(t) + Body(t) == t.raw
  {
  }

  // ----- Complementary selections -----

  /** The display hunks that are not in `selected`. */
  function Others(script: PairScript, selected: set<nat>): set<nat> {
    if script.full.Same? then {} else set d: nat | d < |script.full.hunks| && d !in selected
  }

  /** Of complementary selections, a changed line is in a chosen hunk of exactly one. */
  lemma ChosenByExactlyOne(script: PairScript, selected: set<nat>, x: nat)
    requires Valid(script) && script.full.Modified? && Changed(script.full.lines, x)
    ensures var display, merge := script.full.hunks, script.full.mergeHunks;
            InChosenHunk(merge, MergeHunksIn(display, merge, selected), x)
            <==> !InChosenHunk(merge, MergeHunksIn(display, merge, Others(script, selected)), x)
  {
    var lines, display, merge := script.full.lines, script.full.hunks, script.full.mergeHunks;
    ChangeInOneMergeHunk(lines, merge, x);
    var m: nat :| m < |merge| && InHunk(merge[m], x);
    var d := MergeHunkInOneDisplayHunk(lines, display, merge, m);
    OnlyItsHunkCounts(lines, merge, MergeHunksIn(display, merge, selected), x, m);
    OnlyItsHunkCounts(lines, merge, MergeHunksIn(display, merge, Others(script, selected)), x, m);
    assert m in MergeHunksIn(display, merge, selected) <==> d in selected;
    assert m in MergeHunksIn(display, merge, Others(script, selected)) <==> d in Others(script, selected);
  }

  lemma OnlyItsHunkCounts(lines: seq<DiffLine>, merge: seq<Hunk>, chosen: set<nat>, x: nat, m: nat)
    requires HunksOf(lines, 0, merge) && m < |merge| && InHunk(merge[m], x)
    ensures InChosenHunk(merge, chosen, x) <==> m in chosen
  {
    ChangeInOneMergeHunk(lines, merge, x);
    if InChosenHunk(merge, chosen, x) {
      var h: nat :| h < |merge| && h in chosen && merge[h].start <= x < merge[h].end;
      assert InHunk(merge[h], x);
    }
  }

  /** In UTF-8, a line both sides have is the same bytes on both. */
  lemma EqualLinesHaveEqualBytes(script: PairScript, i: nat)
    requires Valid(script) && script.full.Modified? && i < |script.full.lines|
    requires script.left.encoding == Utf8 && script.right.encoding == Utf8
    requires script.full.lines[i].tag == Equal
    ensures var line := script.full.lines[i];
            && line.oldIndex.Some? && line.oldIndex.value < |script.left.rawLines|
            && line.newIndex.Some? && line.newIndex.value < |script.right.rawLines|
            && RawLine(script.left, line.oldIndex.value) == RawLine(script.right, line.newIndex.value)
  {
  }

  /** What one line adds to the one result and to the other. */
  lemma PiecesAgree(script: PairScript, a: set<nat>, b: set<nat>, i: nat)
    requires Valid(script) && script.full.Modified? && i < |script.full.lines|
    requires script.left.encoding == Utf8 && script.right.encoding == Utf8
    requires Changed(script.full.lines, i) ==>
      (InChosenHunk(script.full.mergeHunks, a, i) <==> !InChosenHunk(script.full.mergeHunks, b, i))
    ensures Formed(script.left) && Formed(script.right)
    ensures Piece(script, a, LeftToRight, i) == Piece(script, b, RightToLeft, i)
  {
    ValidTexts(script);
    if script.full.lines[i].tag == Equal {
      EqualLinesHaveEqualBytes(script, i);
    } else {
      assert Changed(script.full.lines, i);
    }
    hide Valid, Formed, InChosenHunk;
  }

  lemma {:induction false} ComplementsAgree(script: PairScript, a: set<nat>, b: set<nat>, k: nat)
    requires Valid(script) && script.full.Modified? && k <= |script.full.lines|
    requires script.left.encoding == Utf8 && script.right.encoding == Utf8
    requires forall x: nat :: Changed(script.full.lines, x) ==>
      (InChosenHunk(script.full.mergeHunks, a, x) <==> !InChosenHunk(script.full.mergeHunks, b, x))
    ensures Prefix(script, a, LeftToRight, k) == Prefix(script, b, RightToLeft, k)
  {
    ValidTexts(script);
    hide Valid, Formed, Prefix, Piece, InChosenHunk;
    if k > 0 {
      ComplementsAgree(script, a, b, k - 1);
      PrefixGrows(script, a, LeftToRight, k - 1);
      PrefixGrows(script, b, RightToLeft, k - 1);
      PiecesAgree(script, a, b, k - 1);
    } else {
      EmptyPrefix(script, a, LeftToRight);
      EmptyPrefix(script, b, RightToLeft);
    }
  }

  /** For UTF-8 texts, taking any display hunks to the right and the others to the left gives the same
      body. */
  lemma ComplementarySelectionsMeet(script: PairScript, selected: set<nat>)
    requires Valid(script)
    requires script.left.encoding == Utf8 && script.right.encoding == Utf8
    ensures |Bom(script.right)| <= |Applied(script, selected, LeftToRight)|
    ensures |Bom(script.left)| <= |Applied(script, Others(script, selected), RightToLeft)|
    ensures Applied(script, selected, LeftToRight)[|Bom(script.right)|..]
         == Applied(script, Others(script, selected), RightToLeft)[|Bom(script.left)|..]
  {
    if script.full.Modified? {
      var lines, display, merge := script.full.lines, script.full.hunks, script.full.mergeHunks;
      forall x: nat | Changed(lines, x) {
        ChosenByExactlyOne(script, selected, x);
      }
      var a, b := MergeHunksIn(display, merge, selected), MergeHunksIn(display, merge, Others(script, selected));
      ComplementsAgree(script, a, b, |lines|);
      AppliedIsPrefix(script, a, LeftToRight);
      AppliedIsPrefix(script, b, RightToLeft);
    }
  }

  /** For UTF-8 texts, selecting every display hunk gives the source's body behind the target's BOM. */
  lemma EverythingSelectedIsSource(script: PairScript, selected: set<nat>, direction: Direction)
    requires Valid(script)
    requires script.left.encoding == Utf8 && script.right.encoding == Utf8
    requires script.full.Modified? ==> forall d: nat :: d < |script.full.hunks| ==> d in selected
    ensures Applied(script, selected, direction) == Bom(Target(script, direction)) + Body(Source(script, direction))
  {
    ValidTexts(script);
    BomAndBody(Target(script, direction));
    BomAndBody(Source(script, direction));
    if script.full.Modified? {
      var all := Others(script, {});
      assert Others(script, all) == {};
      SameAsInRange(script, selected, all, direction);
      NothingSelectedIsTarget(script, if direction == LeftToRight then RightToLeft else LeftToRight);
      hide Applied, Valid, Others, Formed;
      if direction == LeftToRight {
        ComplementarySelectionsMeet(script, all);
        TargetBomStays(script, all, LeftToRight);
      } else {
        ComplementarySelectionsMeet(script, {});
        TargetBomStays(script, all, RightToLeft);
      }
    }
  }

  /** The result begins with the target's BOM. */
  lemma TargetBomStays(script: PairScript, selected: set<nat>, direction: Direction)
    requires Valid(script) && script.full.Modified?
    ensures Bom(Target(script, direction)) <= Applied(script, selected, direction)
  {
    AppliedIsPrefix(script, MergeHunksIn(script.full.hunks, script.full.mergeHunks, selected), direction);
  }

  /** Numbers outside the range of the display hunks select nothing. */
  lemma SameAsInRange(script: PairScript, a: set<nat>, b: set<nat>, direction: Direction)
    requires Valid(script) && script.full.Modified?
    requires forall d: nat :: d < |script.full.hunks| ==> (d in a <==> d in b)
    ensures Applied(script, a, direction) == Applied(script, b, direction)
  {
    assert MergeHunksIn(script.full.hunks, script.full.mergeHunks, a)
           == MergeHunksIn(script.full.hunks, script.full.mergeHunks, b);
  }

  // ----- An absent target -----

  /** Selecting every display hunk onto an empty target gives the source's body, in any encoding. */
  lemma EverythingOntoNothing(script: PairScript, selected: set<nat>)
    requires Valid(script) && script.full.Modified?
    requires script.right.raw == []
    requires forall d: nat :: d < |script.full.hunks| ==> d in selected
    ensures Applied(script, selected, LeftToRight) == Body(script.left)
  {
    var chosen := MergeHunksIn(script.full.hunks, script.full.mergeHunks, selected);
    SameAsNone(script, selected);
    ValidTexts(script);
    forall i: nat | i < |script.full.lines| ensures AddsSide(script, chosen, LeftToRight, true, i) {
      DeletedAddsSource(script, selected, i);
    }
    hide AddsSide, Valid, Formed, AppliedMergeHunks, MergeHunksIn;
    WholeSide(script, chosen, LeftToRight, true);
    assert Bom(script.right) == [];
  }

  /** Onto an empty target every line is a deletion, and one that is taken. */
  lemma DeletedAddsSource(script: PairScript, selected: set<nat>, i: nat)
    requires Valid(script) && script.full.Modified? && Formed(script.left) && Formed(script.right)
    requires script.right.raw == [] && i < |script.full.lines|
    requires Others(script, selected) == {}
    requires MergeHunksIn(script.full.hunks, script.full.mergeHunks, {}) == {}
    ensures AddsSide(script, MergeHunksIn(script.full.hunks, script.full.mergeHunks, selected), LeftToRight, true, i)
  {
    LineIsNumbered(script, i);
    CountsStep(script.full.lines, i);
    assert script.full.lines[i].tag == Delete && Changed(script.full.lines, i);
    ChosenByExactlyOne(script, selected, i);
    hide Valid, MergeHunksIn;
  }

  lemma SameAsNone(script: PairScript, selected: set<nat>)
    requires script.full.Modified?
    requires forall d: nat :: d < |script.full.hunks| ==> d in selected
    ensures Others(script, selected) == {}
    ensures MergeHunksIn(script.full.hunks, script.full.mergeHunks, {}) == {}
  {
  }
}
