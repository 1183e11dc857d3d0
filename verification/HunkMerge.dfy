/** Merging selected hunks of one file from left to right. */
module HunkMerge {
  import opened Texts
  import opened Content
  import opened DiffScript
  import opened HunkApply
  import opened Conflict

  /** One side of the file, as far as it could be read. */
  datatype Prepared = Absent | NonFile | Unavailable | BinaryFile(bytes: Bytes) | TextFile(text: Text)

  datatype Side = Ready(prepared: Prepared) | Broken(reason: string)

  datatype View = View(left: Side, right: Side, reference: Side)

  datatype HunkError = BinaryContent | NotRegular | OutOfRange(index: nat,
      total: nat) | Conflicting | Invalid(reason: string)

  datatype Merged = Done(content: Bytes, total: nat) | NothingToMerge | Failed(error: HunkError)

  ghost predicate Readable(side: Side) {
    side.Ready? && side.prepared.TextFile? ==> ReadableText(side.prepared.text)
  }

  const EMPTY_TEXT := Text([], [], Utf8, 0, [])

  lemma EmptyTextIsReadable()
    ensures ReadableText(EMPTY_TEXT)
  {
    assert EMPTY_TEXT.raw[0..] == [];
    assert LinesOf([]) == [];
  }

  function TextOrEmpty(prepared: Prepared): Text {
    if prepared.TextFile? then prepared.text else EMPTY_TEXT
  }

  function RawOf(prepared: Prepared): Option<Bytes> {
    match prepared
    case TextFile(text) => Some(text.raw)
    case BinaryFile(bytes) => Some(bytes)
    case _ => None
  }

  predicate Unmergeable(side: Side) {
    side.Broken? || side.prepared.Unavailable? || side.prepared.NonFile?
  }

  predicate AllText(view: View) {
    && view.left.Ready? && view.left.prepared.TextFile?
    && view.right.Ready? && view.right.prepared.TextFile?
    && view.reference.Ready? && view.reference.prepared.TextFile?
  }

  /** Three sides conflict by their lines if all are text, and as whole files, all different, otherwise. */
  ghost predicate Decides(diff: Differ, view: View, conflicting: bool)
    requires Sound(diff)
  {
    if Unmergeable(view.left) || Unmergeable(view.right) || Unmergeable(view.reference) then !conflicting
    else if AllText(view) then
      exists regions ::
        && ConflictsOf(diff, view.reference.prepared.text.decoded, view.left.prepared.text.decoded,
                       view.right.prepared.text.decoded, regions)
        && (conflicting <==> regions != [])
    else
      conflicting <==>
        && RawOf(view.left.prepared) != RawOf(view.reference.prepared)
        && RawOf(view.right.prepared) != RawOf(view.reference.prepared)
        && RawOf(view.left.prepared) != RawOf(view.right.prepared)
  }

  /** Two sides that can be compared as files are equal: both absent, or both with the same bytes. */
  ghost predicate SameFile(a: Prepared, b: Prepared) {
    match a
    case Absent => b == Absent
    case TextFile(text) => (b.TextFile? && b.text.raw == text.raw) || (b.BinaryFile? && b.bytes == text.raw)
    case BinaryFile(bytes) => (b.TextFile? && b.text.raw == bytes) || (b.BinaryFile? && b.bytes == bytes)
    case _ => false
  }

  ghost predicate IsFile(side: Side) {
    side.Ready? && (side.prepared.Absent? || side.prepared.TextFile? || side.prepared.BinaryFile?)
  }

  /** Three files that are not all text conflict exactly if no two of them are the same; three texts
      conflict exactly if there is a conflict among their lines. */
  lemma ConflictsExactly(diff: Differ, view: View, conflicting: bool)
    requires Sound(diff) && IsFile(view.left) && IsFile(view.right) && IsFile(view.reference)
    requires Decides(diff, view, conflicting)
    ensures var left, right, reference := view.left.prepared, view.right.prepared, view.reference.prepared;
            if left.TextFile? && right.TextFile? && reference.TextFile?
            then exists regions ::
                   && ConflictsOf(diff, reference.text.decoded, left.text.decoded, right.text.decoded, regions)
                   && (conflicting <==> regions != [])
            else conflicting <==> !SameFile(left, reference) && !SameFile(right, reference) && !SameFile(left, right)
  {
    hide ConflictsOf;
  }

  method HasConflicts(diff: Differ, view: View) returns (conflicting: bool)
    requires Sound(diff)
    ensures Decides(diff, view, conflicting)
  {
    if Unmergeable(view.left) || Unmergeable(view.right) || Unmergeable(view.reference) {
      return false;
    }
    if AllText(view) {
      var regions := TextConflicts(diff, view.reference.prepared.text, view.left.prepared.text,
                                   view.right.prepared.text);
      return regions != [];
    }
    var left, right, reference := RawOf(view.left.prepared), RawOf(view.right.prepared), RawOf(view.reference.prepared);
    return left != reference && right != reference && left != right;
  }

  /** Both sides can be merged by hunks: each is text or absent. */
  predicate Mergeable(view: View) {
    && view.left.Ready? && (view.left.prepared.TextFile? || view.left.prepared.Absent?)
    && view.right.Ready? && (view.right.prepared.TextFile? || view.right.prepared.Absent?)
  }

  function LeftText(view: View): Text
    requires Mergeable(view)
  {
    TextOrEmpty(view.left.prepared)
  }

  function RightText(view: View): Text
    requires Mergeable(view)
  {
    TextOrEmpty(view.right.prepared)
  }

  /** The sides can be compared: both are text of one encoding or absent, and a reference that is asked
      for could be read. */
  predicate Comparable(view: View, reference: bool) {
    && Mergeable(view)
    && (view.left.prepared.TextFile? && view.right.prepared.TextFile? ==>
          LeftText(view).encoding == RightText(view).encoding)
    && (reference ==> view.reference.Ready? && !view.reference.prepared.Unavailable?)
  }

  predicate Incomparable(merged: Merged) {
    merged.Failed? && (merged.error.BinaryContent? || merged.error.NotRegular? || merged.error.Invalid?)
  }

  /** The first index that is out of range. */
  ghost predicate FirstOutOfRange(selected: seq<nat>, total: nat, index: nat) {
    exists k :: 0 <= k < |selected| && selected[k] == index >= total && forall j :: 0 <= j < k ==> selected[j] < total
  }

  function BomKept(view: View): Bytes
    requires Mergeable(view) && LeftText(view).bomLen <= |LeftText(view).raw|
  {
    if view.right.prepared.Absent? then Bom(LeftText(view)) else []
  }

  /** The selected hunks were applied to the right side, behind the BOM of the left if the right side is
      absent; an index out of range is refused. */
  ghost predicate AppliedAs(diff: Differ, view: View, selected: seq<nat>, merged: Merged)
    requires Sound(diff) && Mergeable(view) && Readable(view.left) && Readable(view.right)
  {
    exists script ::
      && ScriptOf(diff, LeftText(view), RightText(view), script)
      && LeftText(view).bomLen <= |LeftText(view).raw|
      && match merged
         case NothingToMerge => script.full.Same?
         case Failed(error) =>
           script.full.Modified? && error.OutOfRange? && error.total == |script.full.hunks|
           && FirstOutOfRange(selected, error.total, error.index)
         case Done(content, total) =>
           script.full.Modified? && total == |script.full.hunks|
             && (forall index :: index in selected ==> index < total)
           && content == BomKept(view) + Applied(script, (set index | index in selected), LeftToRight)
  }

  /** What selecting nothing and selecting everything gives: the target's bytes; the source's bytes, BOM
      included, onto an absent target; and in UTF-8 the source's body behind the target's BOM. */
  ghost predicate AtTheExtremes(view: View, selected: seq<nat>, total: nat, content: Bytes)
    requires Mergeable(view) && Readable(view.left) && Readable(view.right)
  {
    var left, right := LeftText(view), RightText(view);
    var all := forall d: nat :: d < total ==> d in selected;
    && left.bomLen <= |left.raw| && right.bomLen <= |right.raw|
    && (selected == [] && view.right.prepared.TextFile? ==> content == right.raw)
    && (view.right.prepared.Absent? && all ==> content == left.raw)
    && (view.left.prepared.TextFile? && view.right.prepared.TextFile? && left.encoding == Utf8
          && right.encoding == Utf8 && all ==>
          content == Bom(right) + Body(left))
  }

  method MergePrepared(diff: Differ, view: View, selected: seq<nat>, reference: bool) returns (merged: Merged)
    requires Sound(diff)
    requires Readable(view.left) && Readable(view.right)
    ensures Incomparable(merged) <==> !Comparable(view, reference)
    ensures view.left.Broken? ==> merged == Failed(Invalid(view.left.reason))
    ensures view.left.Ready? && view.right.Broken? ==> merged == Failed(Invalid(view.right.reason))
    ensures view.left.Ready? && view.right.Ready?
            && (view.left.prepared.BinaryFile? || view.right.prepared.BinaryFile?) ==>
              merged == Failed(BinaryContent)
    // A three-way merge is refused exactly where the sides conflict, and a two-way merge never is.
    ensures Comparable(view, reference) && reference ==>
              exists conflicting :: Decides(diff, view, conflicting) && (merged == Failed(Conflicting) <==> conflicting)
    ensures merged == Failed(Conflicting) ==> reference
    ensures Comparable(view, reference) && merged != Failed(Conflicting) ==> AppliedAs(diff, view, selected, merged)
    ensures merged.Done? ==> Mergeable(view) && AtTheExtremes(view, selected, merged.total, merged.content)
  {
    hide ReadableText, ConflictsOf, Decides, AppliedAs, AtTheExtremes, ScriptOf, Sound;
    if view.left.Broken? {
      return Failed(Invalid(view.left.reason));
    }
    if view.right.Broken? {
      return Failed(Invalid(view.right.reason));
    }
    var left, right := view.left.prepared, view.right.prepared;
    if left.BinaryFile? || right.BinaryFile? {
      return Failed(BinaryContent);
    }
    if left.NonFile? || left.Unavailable? || right.NonFile? || right.Unavailable? {
      return Failed(NotRegular);
    }
    if reference && view.reference.Broken? {
      return Failed(Invalid("three-way comparison incomplete: " + view.reference.reason));
    }
    EmptyTextIsReadable();
    var leftText, rightText := TextOrEmpty(left), TextOrEmpty(right);
    if !left.Absent? && !right.Absent? && leftText.encoding != rightText.encoding {
      return Failed(Invalid("Hunk merge requires the same content encoding on both sides"));
    }
    if reference && view.reference.prepared.Unavailable? {
      return Failed(Invalid("three-way comparison incomplete"));
    }
    if reference {
      var conflicting := HasConflicts(diff, view);
      if conflicting {
        return Failed(Conflicting);
      }
    }
    var script := MakeScript(diff, leftText, rightText);
    merged := MergeScript(diff, view, selected, script);
  }

  /** Applies the selected hunks of the script of the two sides. */
  method MergeScript(diff: Differ, view: View, selected: seq<nat>, script: PairScript) returns (merged: Merged)
    requires Sound(diff) && Mergeable(view) && Readable(view.left) && Readable(view.right)
    requires ScriptOf(diff, LeftText(view), RightText(view), script)
    ensures AppliedAs(diff, view, selected, merged) && !Incomparable(merged) && merged != Failed(Conflicting)
    ensures merged.Done? ==> AtTheExtremes(view, selected, merged.total, merged.content)
  {
    ScriptSays(diff, view, script);
    hide ReadableText, ScriptOf, Valid, Sound, AtTheExtremes, AppliedAs, Applied, FirstOutOfRange;
    if script.full.Same? {
      NothingApplies(diff, view, selected, script);
      return NothingToMerge;
    }
    var total := |script.full.hunks|;
    for i := 0 to |selected|
      invariant forall k :: 0 <= k < i ==> selected[k] < total
    {
      if selected[i] >= total {
        IsFirst(selected, total, i);
        RangeFails(diff, view, selected, script, selected[i]);
        return Failed(OutOfRange(selected[i], total));
      }
    }
    var content := Apply(script, (set index | index in selected), LeftToRight);
    WhatWasApplied(view, script, selected);
    SelectionApplies(diff, view, selected, script);
    assert content == [] + content;
    if view.right.prepared.Absent? {
      content := Bom(LeftText(view)) + content;
    }
    return Done(content, total);
  }

  lemma NothingApplies(diff: Differ, view: View, selected: seq<nat>, script: PairScript)
    requires Sound(diff) && Mergeable(view) && Readable(view.left) && Readable(view.right)
    requires ScriptOf(diff, LeftText(view), RightText(view), script) && script.full.Same?
    ensures AppliedAs(diff, view, selected, NothingToMerge)
  {
    ScriptSays(diff, view, script);
    hide ScriptOf, Readable;
  }

  lemma IsFirst(selected: seq<nat>, total: nat, i: nat)
    requires i < |selected| && selected[i] >= total && forall k :: 0 <= k < i ==> selected[k] < total
    ensures FirstOutOfRange(selected, total, selected[i])
  {
  }

  lemma RangeFails(diff: Differ, view: View, selected: seq<nat>, script: PairScript, index: nat)
    requires Sound(diff) && Mergeable(view) && Readable(view.left) && Readable(view.right)
    requires ScriptOf(diff, LeftText(view), RightText(view), script) && script.full.Modified?
    requires FirstOutOfRange(selected, |script.full.hunks|, index)
    ensures AppliedAs(diff, view, selected, Failed(OutOfRange(index, |script.full.hunks|)))
  {
    ScriptSays(diff, view, script);
    hide ScriptOf, Readable, FirstOutOfRange;
  }

  lemma SelectionApplies(diff: Differ, view: View, selected: seq<nat>, script: PairScript)
    requires Sound(diff) && Mergeable(view) && Readable(view.left) && Readable(view.right)
    requires ScriptOf(diff, LeftText(view), RightText(view), script) && script.full.Modified? && Valid(script)
    requires LeftText(view).bomLen <= |LeftText(view).raw|
    requires forall k :: 0 <= k < |selected| ==> selected[k] < |script.full.hunks|
    ensures AppliedAs(diff, view, selected,
                      Done(BomKept(view) + Applied(script, (set index | index in selected), LeftToRight),
                           |script.full.hunks|))
  {
    hide ScriptOf, Readable, Applied, Valid, Bom;
  }

  lemma ScriptSays(diff: Differ, view: View, script: PairScript)
    requires Mergeable(view) && ScriptOf(diff, LeftText(view), RightText(view), script)
    ensures Valid(script) && script.left == LeftText(view) && script.right == RightText(view)
    ensures script.left.bomLen <= |script.left.raw| && script.right.bomLen <= |script.right.raw|
  {
  }

  /** What everything selected gives, for a script and the indexes that were selected. */
  lemma EverythingApplied(script: PairScript, chosen: set<nat>)
    requires Valid(script) && script.full.Modified?
    requires forall d: nat :: d < |script.full.hunks| ==> d in chosen
    ensures script.left.bomLen <= |script.left.raw| && script.right.bomLen <= |script.right.raw|
    ensures script.right.raw == [] ==> Bom(script.left) + Applied(script, chosen, LeftToRight) == script.left.raw
    ensures script.left.encoding == Utf8 && script.right.encoding == Utf8 ==>
              Applied(script, chosen, LeftToRight) == Bom(script.right) + Body(script.left)
  {
    ValidTexts(script);
    if script.right.raw == [] {
      EverythingOntoNothing(script, chosen);
    }
    if script.left.encoding == Utf8 && script.right.encoding == Utf8 {
      EverythingSelectedIsSource(script, chosen, LeftToRight);
    }
    hide Applied, Valid, Formed;
    BomAndBody(script.left);
  }

  lemma NothingApplied(script: PairScript, chosen: set<nat>)
    requires Valid(script) && chosen == {}
    ensures script.left.bomLen <= |script.left.raw| && script.right.bomLen <= |script.right.raw|
    ensures Applied(script, chosen, LeftToRight) == script.right.raw
  {
    ValidTexts(script);
    NothingSelectedIsTarget(script, LeftToRight);
    hide Applied, Valid, Formed;
  }

  lemma WhatWasApplied(view: View, script: PairScript, selected: seq<nat>)
    requires Mergeable(view) && Readable(view.left) && Readable(view.right)
    requires Valid(script) && script.full.Modified? && script.left == LeftText(view) && script.right == RightText(view)
    ensures LeftText(view).bomLen <= |LeftText(view).raw|
    ensures AtTheExtremes(view, selected, |script.full.hunks|,
                          BomKept(view) + Applied(script, (set index | index in selected), LeftToRight))
  {
    var chosen := set index | index in selected;
    ValidTexts(script);
    hide Applied, Valid, Formed, ReadableText;
    assert view.right.prepared.TextFile? ==>
           BomKept(view) + Applied(script, chosen, LeftToRight) == Applied(script, chosen, LeftToRight);
    if selected == [] {
      assert chosen == {};
      NothingApplied(script, chosen);
    }
    if forall d: nat :: d < |script.full.hunks| ==> d in selected {
      EverythingApplied(script, chosen);
    }
  }
}
