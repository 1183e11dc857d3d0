/** Which reference lines are in conflict, told from the edits line by line. */
module ConflictLines {
  import opened Content
  import opened DiffScript
  import opened Changes
  import opened Overlaps
  import opened Conflict

  /** The edit that begins at line k takes reference line x out, or puts lines in right before it. */
  ghost predicate Touches(edits: Edits, k: nat, x: nat) {
    k in edits && if edits[k].refLineCount == 0 then x == k else k <= x < k + edits[k].refLineCount
  }

  /** An edit of each side takes out one and the same line, or puts lines in before it, and they put in
      different lines. */
  ghost predicate AtOdds(left: Edits, right: Edits, l: nat, r: nat) {
    && l in left && r in right && left[l].replacement != right[r].replacement
    && exists x :: Touches(left, l, x) && Touches(right, r, x)
  }

  lemma ClashesAreOdds(left: Edits, right: Edits, l: nat, r: nat)
    requires l in left && r in right
    ensures Clash(left, right, l, r) <==> AtOdds(left, right, l, r)
  {
    if Clash(left, right, l, r) {
      var x := if l == EndOf(left, l) then l else if r == EndOf(right, r) then r else Max(l, r);
      assert Touches(left, l, x) && Touches(right, r, x);
    }
  }

  lemma {:induction false} NothingPatched(reference: seq<Bytes>, x: nat)
    requires x <= |reference|
    ensures Patched(reference, map[], x) == reference[..x]
  {
    if x > 0 {
      NothingPatched(reference, x - 1);
      assert reference[..x] == reference[..x - 1] + [reference[x - 1]];
    }
  }

  /** The edits of a side are its whole difference: applied to the reference they give the side. */
  lemma EditsRebuildTheSide(diff: Differ, reference: Bytes, side: Bytes)
    requires Sound(diff)
    ensures Rebuilt(LinesOf(reference), EditsOf(diff, reference, side)) == LinesOf(side)
  {
    if reference == side {
      NothingPatched(LinesOf(reference), |LinesOf(reference)|);
    } else {
      ScriptLinesAreScript(diff, reference, side);
      ChangesRebuildTheFile(ScriptLines(diff, reference, side), LinesOf(reference), LinesOf(side));
    }
  }

  /** The edits at l and r lie inside the region. */
  ghost predicate HoldsBoth(region: ConflictRegion, left: Edits, right: Edits, l: nat, r: nat) {
    && l in left && r in right
    && region.start <= l && l + left[l].refLineCount <= region.end
    && region.start <= r && r + right[r].refLineCount <= region.end
  }

  /** Two edits that are at odds lie inside one region, and the region shows the lines they put in. */
  lemma OddsAreReported(diff: Differ, reference: Bytes, left: Bytes, right: Bytes, regions: seq<ConflictRegion>,
                        l: nat, r: nat)
      returns (i: nat)
    requires Sound(diff)
    requires ConflictsOf(diff, reference, left, right, regions)
    requires AtOdds(EditsOf(diff, reference, left), EditsOf(diff, reference, right), l, r)
    ensures var leftEdits, rightEdits := EditsOf(diff, reference, left), EditsOf(diff, reference, right);
            && i < |regions| && HoldsBoth(regions[i], leftEdits, rightEdits, l, r)
            && (forall line :: line in leftEdits[l].replacement ==> TrimLf(line) in regions[i].leftLines)
            && (forall line :: line in rightEdits[r].replacement ==> TrimLf(line) in regions[i].rightLines)
  {
    hide EditsOf, ConflictsOf, Clash, TrimLf;
    ClashesAreOdds(EditsOf(diff, reference, left), EditsOf(diff, reference, right), l, r);
    i := ClashesAreReported(diff, reference, left, right, regions, l, r);
  }

  /** What is known of the joined regions behind the reported ones. */
  lemma JoinedFrom(diff: Differ, reference: Bytes, left: Bytes, right: Bytes, regions: seq<ConflictRegion>)
      returns (pairs: seq<(nat, nat)>, found: seq<Overlap>, merged: seq<Overlap>)
    requires Sound(diff)
    requires ConflictsOf(diff, reference, left, right, regions)
    ensures FindsAll(EditsOf(diff, reference, left), EditsOf(diff, reference, right), pairs, found)
    ensures JoinedOf(multiset(found), merged) && ShownFrom(merged, LinesOf(left), LinesOf(right), regions)
  {
    hide EditsOf, FindsAll, JoinedOf, ShownFrom;
    merged :| Joins(EditsOf(diff, reference, left), EditsOf(diff, reference, right), merged)
           && ShownFrom(merged, LinesOf(left), LinesOf(right), regions);
    pairs, found :| FindsAll(EditsOf(diff, reference, left), EditsOf(diff, reference, right), pairs, found)
                 && JoinedOf(multiset(found), merged);
  }

  /** A found region inside a joined one comes from two edits at odds. */
  lemma OddsOf(left: Edits, right: Edits, pairs: seq<(nat, nat)>, found: seq<Overlap>, f: Overlap)
      returns (l: nat, r: nat)
    requires FindsAll(left, right, pairs, found) && f in multiset(found)
    ensures AtOdds(left, right, l, r) && l in left && r in right && f == Region(left, right, l, r)
  {
    hide Clash, AtOdds;
    var j :| 0 <= j < |found| && found[j] == f;
    l, r := pairs[j].0, pairs[j].1;
    ClashesAreOdds(left, right, l, r);
  }

  /** Every region holds two edits at odds, one of which begins where the region does. */
  lemma RegionsHoldOdds(diff: Differ, reference: Bytes, left: Bytes, right: Bytes, regions: seq<ConflictRegion>, i: nat)
      returns (l: nat, r: nat)
    requires Sound(diff)
    requires ConflictsOf(diff, reference, left, right, regions) && i < |regions|
    ensures var leftEdits, rightEdits := EditsOf(diff, reference, left), EditsOf(diff, reference, right);
            AtOdds(leftEdits, rightEdits, l, r) && HoldsBoth(regions[i], leftEdits, rightEdits, l, r)
    ensures l == regions[i].start || r == regions[i].start
  {
    hide EditsOf, ConflictsOf, FindsAll, AllComponents, AllHoused, InOrder, AtOdds;
    var pairs, found, merged := JoinedFrom(diff, reference, left, right, regions);
    var f := Opening(multiset(found), merged, i);
    l, r := OddsOf(EditsOf(diff, reference, left), EditsOf(diff, reference, right), pairs, found, f);
    assert regions[i] == Shown(merged[i], LinesOf(left), LinesOf(right));
  }

  /** Every line of a region is taken out by one of two edits at odds inside it. */
  lemma RegionLinesAreInOdds(diff: Differ, reference: Bytes, left: Bytes, right: Bytes, regions: seq<ConflictRegion>,
                             i: nat, x: nat)
      returns (l: nat, r: nat)
    requires Sound(diff)
    requires ConflictsOf(diff, reference, left, right, regions)
    requires i < |regions| && regions[i].start <= x < regions[i].end
    ensures var leftEdits, rightEdits := EditsOf(diff, reference, left), EditsOf(diff, reference, right);
            && AtOdds(leftEdits, rightEdits, l, r) && HoldsBoth(regions[i], leftEdits, rightEdits, l, r)
            && (Touches(leftEdits, l, x) || Touches(rightEdits, r, x))
  {
    hide EditsOf, ConflictsOf, FindsAll, AllComponents, AllHoused;
    var pairs, found, merged := JoinedFrom(diff, reference, left, right, regions);
    assert regions[i] == Shown(merged[i], LinesOf(left), LinesOf(right));
    var f := Covering(multiset(found), merged, i, x);
    var j := Home(multiset(found), merged, f);
    assert j == i;
    l, r := OddsOf(EditsOf(diff, reference, left), EditsOf(diff, reference, right), pairs, found, f);
  }

  lemma InsertedLine(edit: ChangeInfo, newLines: seq<Bytes>, x: nat)
    requires x in edit.fileLines && exists n: nat :: IsStretch(edit, newLines, n)
    ensures x < |newLines| && newLines[x] in edit.replacement
  {
    var n: nat :| IsStretch(edit, newLines, n);
    assert newLines[x] == edit.replacement[x - n];
  }

  lemma NumberOfOdds(left: Edits, right: Edits, pairs: seq<(nat, nat)>, found: seq<Overlap>, o: Overlap, x: nat)
      returns (l: nat, r: nat)
    requires FindsAll(left, right, pairs, found) && Component(multiset(found), o) && x in o.left
    ensures AtOdds(left, right, l, r) && l in left && r in right && x in left[l].fileLines
    ensures o.start <= l && l + left[l].refLineCount <= o.end && o.start <= r && r + right[r].refLineCount <= o.end
  {
    hide FindsAll, AtOdds, Cell, Joint;
    var f :| f in multiset(found) && Within(f, o) && x in f.left;
    l, r := OddsOf(left, right, pairs, found, f);
  }

  /** A region shows only lines that edits at odds inside it put in. */
  lemma ShownLinesAreOdds(diff: Differ, reference: Bytes, left: Bytes, right: Bytes, regions: seq<ConflictRegion>,
                          i: nat, k: nat)
      returns (l: nat, r: nat)
    requires Sound(diff)
    requires ConflictsOf(diff, reference, left, right, regions)
    requires i < |regions| && k < |regions[i].leftLines|
    ensures var leftEdits, rightEdits := EditsOf(diff, reference, left), EditsOf(diff, reference, right);
            && AtOdds(leftEdits, rightEdits, l, r) && HoldsBoth(regions[i], leftEdits, rightEdits, l, r)
            && exists line :: line in leftEdits[l].replacement && regions[i].leftLines[k] == TrimLf(line)
  {
    hide EditsOf, ConflictsOf, FindsAll, AllComponents, AllHoused, InOrder, AtOdds, Ascending, Separate, TrimLf,
         Component, IsStretch, Region;
    var pairs, found, merged := JoinedFrom(diff, reference, left, right, regions);
    var o := merged[i];
    var x := ShownNumber(merged, LinesOf(left), LinesOf(right), regions, i, k);
    ComponentOf(multiset(found), merged, i);
    l, r := NumberOfOdds(EditsOf(diff, reference, left), EditsOf(diff, reference, right), pairs, found, o, x);
    EditsAreGood(diff, reference, left);
    InsertedLine(EditsOf(diff, reference, left)[l], LinesOf(left), x);
  }

  lemma ShownNumber(merged: seq<Overlap>, left: seq<Bytes>, right: seq<Bytes>, regions: seq<ConflictRegion>, i: nat,
                    k: nat)
      returns (x: nat)
    requires ShownFrom(merged, left, right, regions)
    requires i < |regions| && k < |regions[i].leftLines|
    ensures regions[i].start == merged[i].start && regions[i].end == merged[i].end
    ensures x in merged[i].left && x < |left| && regions[i].leftLines[k] == TrimLf(left[x])
  {
    hide Ascending, TrimLf;
    assert regions[i] == Shown(merged[i], left, right);
    x := Ascending(merged[i].left)[k];
    assert x in Ascending(merged[i].left);
  }

  /** A line is shown without the line feeds at its end, and otherwise as it is. */
  lemma {:induction false} TrimLfTrims(line: Bytes)
    ensures TrimLf(line) <= line
    ensures forall i :: |TrimLf(line)| <= i < |line| ==> line[i] == LF
    ensures TrimLf(line) != [] ==> TrimLf(line)[|TrimLf(line)| - 1] != LF
  {
    if line != [] && line[|line| - 1] == LF {
      TrimLfTrims(line[..|line| - 1]);
    }
  }
}
