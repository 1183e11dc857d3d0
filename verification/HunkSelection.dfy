/** What a selection of display hunks does to each single line. */
module HunkSelection {
  import opened Content
  import opened DiffScript
  import opened HunkApply

  /** Line x of the script is shown in a hunk whose number, counted from 0, is selected. */
  ghost predicate InSelected(script: PairScript, selected: set<nat>, x: nat)
    requires script.full.Modified?
  {
    exists d :: d in selected && d < |script.full.hunks|
                && script.full.hunks[d].start <= x < script.full.hunks[d].end
  }

  /** A changed line is taken from the source exactly if it is shown in a selected hunk. */
  lemma TakenExactlyInSelected(script: PairScript, selected: set<nat>, x: nat)
    requires Valid(script) && script.full.Modified? && Changed(script.full.lines, x)
    ensures var display, merge := script.full.hunks, script.full.mergeHunks;
            InChosenHunk(merge, MergeHunksIn(display, merge, selected), x) <==> InSelected(script, selected, x)
  {
    var lines, display, merge := script.full.lines, script.full.hunks, script.full.mergeHunks;
    ChangeInOneMergeHunk(lines, merge, x);
    var m: nat :| m < |merge| && InHunk(merge[m], x);
    var d := MergeHunkInOneDisplayHunk(lines, display, merge, m);
    OnlyItsHunkCounts(lines, merge, MergeHunksIn(display, merge, selected), x, m);
    forall e: nat | e < |display| && display[e].start <= x < display[e].end ensures e == d {
      assert InHunk(display[d], x) && InHunk(display[e], x);
      HunksDoNotMeet(lines, display, d, e, x);
    }
    hide Valid, HunksOf;
    assert m in MergeHunksIn(display, merge, selected) <==> d in selected;
  }

  lemma HunksDoNotMeet(lines: seq<DiffLine>, hunks: seq<Hunk>, i: nat, j: nat, x: nat)
    requires HunksOf(lines, CONTEXT, hunks) && i < |hunks| && j < |hunks|
    requires InHunk(hunks[i], x) && InHunk(hunks[j], x)
    ensures i == j
  {
  }

  /** A line is shown exactly if a changed line is at most three lines away. */
  lemma ShownNearChanges(script: PairScript, x: nat)
    requires Valid(script) && script.full.Modified? && x < |script.full.lines|
    ensures (exists d: nat :: d < |script.full.hunks| && script.full.hunks[d].start <= x < script.full.hunks[d].end)
       <==> exists c: nat :: c < |script.full.lines| && script.full.lines[c].tag != Equal && c <= x + 3 && x <= c + 3
  {
    var lines, display := script.full.lines, script.full.hunks;
    assert Near(lines, CONTEXT, x) <==> Covered(display, x) by {
      if Covered(display, x) {
        var i: nat :| i < |display| && InHunk(display[i], x);
        assert Near(lines, CONTEXT, x);
      }
    }
    assert Covered(display, x) <==> exists d: nat :: d < |display| && InHunk(display[d], x);
    if c: nat :| c < |lines| && lines[c].tag != Equal && c <= x + 3 && x <= c + 3 {
      assert Changed(lines, c);
    }
  }

  /** What line i of the script leaves in the result: the target's line where both sides have one or it
      is not selected, the source's line where it is. */
  ghost function LeavesLine(script: PairScript, selected: set<nat>, direction: Direction, i: nat): Bytes
    requires Valid(script) && script.full.Modified? && i < |script.full.lines|
  {
    LineIsNumbered(script, i);
    var before, tag := script.full.lines[..i], script.full.lines[i].tag;
    var take := InSelected(script, selected, i);
    if direction == LeftToRight then
      if tag == Delete then (if take then LinesOf(Body(script.left))[OldCount(before)] else [])
      else if tag == Insert && take then []
      else LinesOf(Body(script.right))[NewCount(before)]
    else
      if tag == Insert then (if take then LinesOf(Body(script.right))[NewCount(before)] else [])
      else if tag == Delete && take then []
      else LinesOf(Body(script.left))[OldCount(before)]
  }

  ghost function LeavesLines(script: PairScript, selected: set<nat>, direction: Direction, k: nat): Bytes
    requires Valid(script) && script.full.Modified? && k <= |script.full.lines|
  {
    if k == 0 then []
    else LeavesLines(script, selected, direction, k - 1) + LeavesLine(script, selected, direction, k - 1)
  }

  lemma PieceIsLine(script: PairScript, selected: set<nat>, direction: Direction, i: nat)
    requires Valid(script) && script.full.Modified? && i < |script.full.lines|
    requires Formed(script.left) && Formed(script.right)
    ensures Piece(script, MergeHunksIn(script.full.hunks, script.full.mergeHunks, selected), direction, i)
         == LeavesLine(script, selected, direction, i)
  {
    LineIsNumbered(script, i);
    if Changed(script.full.lines, i) {
      TakenExactlyInSelected(script, selected, i);
    }
    hide Valid, Formed, InChosenHunk, MergeHunksIn, InSelected, OldCount, NewCount, LinesOf;
  }

  lemma {:induction false} PrefixIsLines(script: PairScript, selected: set<nat>, direction: Direction, k: nat)
    requires Valid(script) && script.full.Modified? && k <= |script.full.lines|
    requires Formed(script.left) && Formed(script.right)
    ensures Prefix(script, MergeHunksIn(script.full.hunks, script.full.mergeHunks, selected), direction, k)
         == LeavesLines(script, selected, direction, k)
  {
    hide Valid, Formed, Prefix, Piece, LeavesLine, MergeHunksIn;
    var chosen := MergeHunksIn(script.full.hunks, script.full.mergeHunks, selected);
    if k > 0 {
      PrefixIsLines(script, selected, direction, k - 1);
      PrefixGrows(script, chosen, direction, k - 1);
      PieceIsLine(script, selected, direction, k - 1);
    } else {
      EmptyPrefix(script, chosen, direction);
    }
  }

  /** For every selection, direction and encoding: behind the target's BOM stand the source's lines where
      a change is shown in a selected hunk, and the target's lines everywhere else. */
  lemma SelectionIsExact(script: PairScript, selected: set<nat>, direction: Direction)
    requires Valid(script) && script.full.Modified?
    requires Formed(script.left) && Formed(script.right)
    ensures Applied(script, selected, direction)
         == (if direction == LeftToRight then Bom(script.right) else Bom(script.left))
            + LeavesLines(script, selected, direction, |script.full.lines|)
  {
    AppliedIsPrefix(script, MergeHunksIn(script.full.hunks, script.full.mergeHunks, selected), direction);
    PrefixIsLines(script, selected, direction, |script.full.lines|);
    hide Valid, Formed, Prefix, LeavesLines, AppliedMergeHunks, MergeHunksIn;
  }
}
