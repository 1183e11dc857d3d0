/** Three-way conflicts: reference lines that both sides changed differently. */
module Conflict {
  import opened Content
  import opened DiffScript
  import opened Changes
  import opened Overlaps

  type Edits = map<nat, ChangeInfo>

  datatype ConflictRegion = ConflictRegion(start: nat, end: nat, leftLines: seq<Bytes>, rightLines: seq<Bytes>)

  ghost predicate IsLeast(numbers: set<nat>, least: nat) {
    least in numbers && forall x :: x in numbers ==> least <= x
  }

  ghost predicate AscendingList(list: seq<nat>, numbers: set<nat>) {
    && (forall x :: x in list <==> x in numbers)
    && (forall i, j :: 0 <= i < j < |list| ==> list[i] < list[j])
  }

  /** The numbers in ascending order. */
  function Ascending(numbers: set<nat>): (list: seq<nat>)
    ensures AscendingList(list, numbers)
  {
    if numbers == {} then []
    else
      LeastExists(numbers);
      var least :| least in numbers && forall x :: x in numbers ==> least <= x;
      LeastFirst(numbers, least, Ascending(numbers - {least}));
      [least] + Ascending(numbers - {least})
  }

  lemma LeastFirst(numbers: set<nat>, least: nat, tail: seq<nat>)
    requires IsLeast(numbers, least) && AscendingList(tail, numbers - {least})
    ensures AscendingList([least] + tail, numbers)
  {
    assert forall i :: 0 <= i < |tail| ==> tail[i] in tail;
  }

  lemma {:induction false} LeastExists(numbers: set<nat>)
    requires numbers != {}
    ensures exists least :: IsLeast(numbers, least)
  {
    var some :| some in numbers;
    var others := numbers - {some};
    assert forall x :: x in numbers ==> x == some || x in others;
    if others == {} {
      assert IsLeast(numbers, some);
    } else {
      LeastExists(others);
      var least :| IsLeast(others, least);
      assert IsLeast(numbers, Min(some, least));
    }
  }

  // ----- Which edits meet -----

  /** Ranges overlap; two insertions overlap at the same place, an insertion with a range around it. */
  predicate RangesMeet(lStart: nat, lEnd: nat, rStart: nat, rEnd: nat) {
    if lStart == lEnd && rStart == rEnd then lStart == rStart
    else if lStart == lEnd then rStart <= lStart < rEnd
    else if rStart == rEnd then lStart <= rStart < lEnd
    else lStart < rEnd && rStart < lEnd
  }

  predicate Clash(left: Edits, right: Edits, l: nat, r: nat)
    requires l in left && r in right
  {
    RangesMeet(l, EndOf(left, l), r, EndOf(right, r)) && left[l].replacement != right[r].replacement
  }

  function Region(left: Edits, right: Edits, l: nat, r: nat): Overlap
    requires l in left && r in right
  {
    Overlap(Min(l, r), Max(EndOf(left, l), EndOf(right, r)), left[l].fileLines, right[r].fileLines)
  }

  /** `found` lists the region of each clashing pair of edits once; `pairs` names the pairs. */
  ghost predicate Finds(left: Edits, right: Edits, pairs: seq<(nat, nat)>, found: seq<Overlap>) {
    && |found| == |pairs|
    && (forall i :: 0 <= i < |pairs| ==>
          && pairs[i].0 in left && pairs[i].1 in right
          && Clash(left, right, pairs[i].0, pairs[i].1) && found[i] == Region(left, right, pairs[i].0, pairs[i].1))
    && (forall i, j :: 0 <= i < j < |pairs| ==> pairs[i] != pairs[j])
  }

  ghost predicate FindsAll(left: Edits, right: Edits, pairs: seq<(nat, nat)>, found: seq<Overlap>) {
    && Finds(left, right, pairs, found)
    && (forall l, r :: l in left && r in right && Clash(left, right, l, r) ==> (l, r) in pairs)
  }

  lemma NotBefore(list: seq<nat>, numbers: set<nat>, i: nat)
    requires AscendingList(list, numbers) && i < |list|
    ensures list[i] !in list[..i]
  {
  }

  lemma FindsOneMore(left: Edits, right: Edits, pairs: seq<(nat, nat)>, found: seq<Overlap>, l: nat, r: nat)
    requires Finds(left, right, pairs, found) && (l, r) !in pairs
    requires l in left && r in right && Clash(left, right, l, r)
    ensures Finds(left, right, pairs + [(l, r)], found + [Region(left, right, l, r)])
  {
    hide Clash, Region;
  }

  /** The inner loop: the right edits that clash with the left edit `l`. */
  method FindClashesWith(left: Edits, right: Edits, l: nat) returns (found: seq<Overlap>, ghost pairs: seq<(nat, nat)>)
    requires l in left
    ensures Finds(left, right, pairs, found)
    ensures forall p :: p in pairs ==> p.0 == l
    ensures forall r :: r in right && Clash(left, right, l, r) ==> (l, r) in pairs
  {
    hide Ascending, Finds, Region, RangesMeet, EndOf;
    found, pairs := [], [];
    FindsNothing(left, right);
    var keys := Ascending(right.Keys);
    for j := 0 to |keys|
      invariant Finds(left, right, pairs, found)
      invariant forall p :: p in pairs ==> p.0 == l && p.1 in keys[..j]
      invariant forall b :: 0 <= b < j && Clash(left, right, l, keys[b]) ==> (l, keys[b]) in pairs
    {
      var r := keys[j];
      assert r in keys && r in right;
      if RangesMeet(l, EndOf(left, l), r, EndOf(right, r)) && left[l].replacement != right[r].replacement {
        NotBefore(keys, right.Keys, j);
        FindsOneMore(left, right, pairs, found, l, r);
        found := found + [Region(left, right, l, r)];
        pairs := pairs + [(l, r)];
      }
      assert keys[..j + 1] == keys[..j] + [r];
    }
    forall r | r in right && Clash(left, right, l, r) ensures (l, r) in pairs {
      assert r in keys;
    }
  }

  /** The nested loops over both sides' edits in order. */
  method FindClashes(left: Edits, right: Edits) returns (found: seq<Overlap>, ghost pairs: seq<(nat, nat)>)
    ensures FindsAll(left, right, pairs, found)
  {
    hide Ascending, Clash, Finds;
    found, pairs := [], [];
    FindsNothing(left, right);
    var keys := Ascending(left.Keys);
    for i := 0 to |keys|
      invariant Finds(left, right, pairs, found)
      invariant forall p :: p in pairs ==> p.0 in keys[..i]
      invariant forall a, r :: 0 <= a < i && r in right && Clash(left, right, keys[a], r) ==> (keys[a], r) in pairs
    {
      var l := keys[i];
      NotBefore(keys, left.Keys, i);
      assert l in keys && l in left;
      ghost var morePairs;
      var more;
      more, morePairs := FindClashesWith(left, right, l);
      FindsMore(left, right, pairs, found, morePairs, more);
      found := found + more;
      pairs := pairs + morePairs;
    }
    forall l, r | l in left && r in right && Clash(left, right, l, r) ensures (l, r) in pairs {
      assert l in keys;
    }
  }

  lemma FindsNothing(left: Edits, right: Edits)
    ensures Finds(left, right, [], [])
  {
  }

  lemma FindsMore(left: Edits, right: Edits, pairs: seq<(nat, nat)>, found: seq<Overlap>, morePairs: seq<(nat, nat)>,
                  more: seq<Overlap>)
    requires Finds(left, right, pairs, found) && Finds(left, right, morePairs, more)
    requires forall p, q :: p in pairs && q in morePairs ==> p != q
    ensures Finds(left, right, pairs + morePairs, found + more)
  {
    hide Clash;
    var all := pairs + morePairs;
    forall i, j | 0 <= i < j < |all| ensures all[i] != all[j] {
      if i < |pairs| <= j {
        assert all[i] in pairs && all[j] in morePairs;
      }
    }
  }

  // ----- What is found can be joined -----

  lemma Touching(left: Edits, right: Edits, l: nat, r: nat, m: nat, s: nat)
    requires Separate(left) && Separate(right)
    requires l in left && r in right && m in left && s in right
    requires Clash(left, right, l, r) && Clash(left, right, m, s)
    requires var f, g := Region(left, right, l, r), Region(left, right, m, s);
             f.start == f.end && (g.start == f.start || Covers(g, f.start))
    ensures l == m && r == s
  {
  }

  lemma {:induction false} FoundIsWellFormed(left: Edits, right: Edits, pairs: seq<(nat, nat)>, found: seq<Overlap>)
    requires Separate(left) && Separate(right)
    requires Finds(left, right, pairs, found)
    ensures WellFormed(multiset(found))
  {
    var all := multiset(found);
    forall f | f in all && f.start == f.end
      ensures all[f] == 1
      ensures forall g :: g in all && g != f ==> g.start != f.start && !Covers(g, f.start)
    {
      var i :| 0 <= i < |found| && found[i] == f;
      forall j | 0 <= j < |found| && (found[j].start == f.start || Covers(found[j], f.start)) ensures j == i {
        Touching(left, right, pairs[i].0, pairs[i].1, pairs[j].0, pairs[j].1);
      }
      OnlyOnce(found, i);
      forall g | g in all && g != f ensures g.start != f.start && !Covers(g, f.start) {
        var j :| 0 <= j < |found| && found[j] == g;
      }
    }
  }

  lemma OnlyOnce(found: seq<Overlap>, i: nat)
    requires i < |found| && forall j :: 0 <= j < |found| && found[j] == found[i] ==> j == i
    ensures multiset(found)[found[i]] == 1
  {
    assert found == found[..i] + [found[i]] + found[i + 1..];
    assert found[i] !in found[..i] && found[i] !in found[i + 1..];
  }

  // ----- Looking the lines up -----

  function Zipped(numbers: seq<nat>, lines: seq<Bytes>): map<nat, Bytes> {
    if numbers == [] || lines == [] then map[] else Zipped(numbers[1..], lines[1..])[numbers[0] := lines[0]]
  }

  /** Each inserted line by its number, over the edits at `keys`. */
  function LinesByIndex(edits: Edits, keys: seq<nat>): map<nat, Bytes>
    requires forall k :: k in keys ==> k in edits
  {
    if keys == [] then map[]
    else Zipped(Ascending(edits[keys[0]].fileLines), edits[keys[0]].replacement) + LinesByIndex(edits, keys[1..])
  }

  lemma {:induction false} ZippedStretch(numbers: seq<nat>, lines: seq<Bytes>, newLines: seq<Bytes>, n: nat)
    requires |numbers| == |lines| && n + |lines| <= |newLines|
    requires forall i :: 0 <= i < |numbers| ==> numbers[i] == n + i && lines[i] == newLines[n + i]
    ensures var m := Zipped(numbers, lines);
            && (forall x :: x in m <==> x in numbers)
            && (forall x :: x in m ==> x < |newLines| && m[x] == newLines[x])
  {
    if numbers != [] {
      ZippedStretch(numbers[1..], lines[1..], newLines, n + 1);
      assert numbers == [numbers[0]] + numbers[1..];
    }
  }

  lemma {:induction false} AscendingInterval(numbers: seq<nat>, n: nat, m: nat)
    requires n <= m
    requires forall x: nat :: x in numbers <==> n <= x < m
    requires forall i, j :: 0 <= i < j < |numbers| ==> numbers[i] < numbers[j]
    ensures |numbers| == m - n && forall i :: 0 <= i < |numbers| ==> numbers[i] == n + i
    decreases m - n
  {
    if n == m {
      assert forall i :: 0 <= i < |numbers| ==> numbers[i] in numbers;
    } else {
      assert n in numbers;
      var k :| 0 <= k < |numbers| && numbers[k] == n;
      assert numbers[0] in numbers;
      assert k == 0;
      var tail := numbers[1..];
      forall x: nat ensures x in tail <==> n + 1 <= x < m {
        if x in tail {
          var i :| 0 <= i < |tail| && tail[i] == x;
          assert numbers[0] < numbers[i + 1] && numbers[i + 1] in numbers;
        }
        if n + 1 <= x < m {
          assert x in numbers;
          var i :| 0 <= i < |numbers| && numbers[i] == x;
          assert tail[i - 1] == x;
        }
      }
      AscendingInterval(tail, n + 1, m);
    }
  }

  lemma EditLookups(edit: ChangeInfo, newLines: seq<Bytes>, n: nat)
    requires IsStretch(edit, newLines, n)
    ensures var m := Zipped(Ascending(edit.fileLines), edit.replacement);
            m.Keys == edit.fileLines && OwnLines(m, newLines)
  {
    hide Zipped, Interval;
    var numbers := Ascending(edit.fileLines);
    AscendingInterval(numbers, n, n + |edit.replacement|);
    ZippedStretch(numbers, edit.replacement, newLines, n);
  }

  /** What is looked up are lines of the file by their own numbers. */
  ghost predicate OwnLines(lines: map<nat, Bytes>, newLines: seq<Bytes>) {
    forall x :: x in lines ==> x < |newLines| && lines[x] == newLines[x]
  }

  lemma {:induction false} LookupsHold(edits: Edits, keys: seq<nat>, newLines: seq<Bytes>)
    requires Faithful(edits, newLines)
    requires forall k :: k in keys ==> k in edits
    ensures OwnLines(LinesByIndex(edits, keys), newLines)
    ensures forall k :: k in keys ==> edits[k].fileLines <= LinesByIndex(edits, keys).Keys
  {
    hide Ascending, Zipped, IsStretch;
    if keys != [] {
      var k := keys[0];
      LookupsHold(edits, keys[1..], newLines);
      assert k in keys;
      var n: nat :| IsStretch(edits[k], newLines, n);
      EditLookups(edits[k], newLines, n);
      var first, others := Zipped(Ascending(edits[k].fileLines), edits[k].replacement), LinesByIndex(edits, keys[1..]);
      assert LinesByIndex(edits, keys) == first + others;
      assert (first + others).Keys == first.Keys + others.Keys;
      forall key | key in keys ensures edits[key].fileLines <= LinesByIndex(edits, keys).Keys {
        assert key == k || key in keys[1..];
      }
    }
  }

  /** Without the line feeds at the end. */
  function TrimLf(line: Bytes): Bytes {
    if line != [] && line[|line| - 1] == LF then TrimLf(line[..|line| - 1]) else line
  }

  /** The file's own lines of these numbers, as they are shown. */
  function ShownLines(newLines: seq<Bytes>, numbers: seq<nat>): (shown: seq<Bytes>)
    requires forall x :: x in numbers ==> x < |newLines|
    ensures |shown| == |numbers|
  {
    seq(|numbers|, i requires 0 <= i < |numbers| => assert numbers[i] in numbers; TrimLf(newLines[numbers[i]]))
  }

  function Looked(lines: map<nat, Bytes>, numbers: seq<nat>): seq<Bytes>
    requires forall x :: x in numbers ==> x in lines
  {
    seq(|numbers|, i requires 0 <= i < |numbers| => assert numbers[i] in numbers; TrimLf(lines[numbers[i]]))
  }

  // ----- Conflicts -----

  function EditsOf(diff: Differ, reference: Bytes, side: Bytes): Edits
    requires Sound(diff)
  {
    if reference == side then map[]
    else
      ScriptLinesAreScript(diff, reference, side);
      ChangesOf(ScriptLines(diff, reference, side), LinesOf(side))
  }

  lemma EditsAreGood(diff: Differ, reference: Bytes, side: Bytes)
    requires Sound(diff)
    ensures Separate(EditsOf(diff, reference, side))
    ensures Faithful(EditsOf(diff, reference, side), LinesOf(side))
  {
    if reference != side {
      ScriptLinesAreScript(diff, reference, side);
      ChangesAreSeparate(ScriptLines(diff, reference, side), LinesOf(side));
      ChangesAreFaithful(ScriptLines(diff, reference, side), LinesOf(side));
    }
  }

  /** The numbers in the joined regions are numbers of the files' lines. */
  ghost predicate NumbersExist(merged: seq<Overlap>, left: seq<Bytes>, right: seq<Bytes>) {
    forall o :: o in merged ==> (forall x :: x in o.left ==> x < |left|) && (forall x :: x in o.right ==> x < |right|)
  }

  function Shown(o: Overlap, left: seq<Bytes>, right: seq<Bytes>): ConflictRegion
    requires (forall x :: x in o.left ==> x < |left|) && (forall x :: x in o.right ==> x < |right|)
  {
    ConflictRegion(o.start, o.end, ShownLines(left, Ascending(o.left)), ShownLines(right, Ascending(o.right)))
  }

  /** `merged` joins the clashes of the two sides' edits. */
  ghost predicate Joins(left: Edits, right: Edits, merged: seq<Overlap>) {
    exists pairs, found :: FindsAll(left, right, pairs, found) && JoinedOf(multiset(found), merged)
  }

  ghost predicate ShownFrom(merged: seq<Overlap>, left: seq<Bytes>, right: seq<Bytes>, regions: seq<ConflictRegion>) {
    && NumbersExist(merged, left, right)
    && |regions| == |merged|
    && (forall i :: 0 <= i < |merged| ==> merged[i] in merged && regions[i] == Shown(merged[i], left, right))
  }

  /** The conflicts of three texts. */
  ghost predicate ConflictsOf(diff: Differ, reference: Bytes, left: Bytes, right: Bytes, regions: seq<ConflictRegion>)
    requires Sound(diff)
  {
    exists merged ::
      && Joins(EditsOf(diff, reference, left), EditsOf(diff, reference, right), merged)
      && ShownFrom(merged, LinesOf(left), LinesOf(right), regions)
  }

  method ExtractEdits(diff: Differ, reference: Bytes, side: Bytes) returns (edits: Edits)
    requires Sound(diff)
    ensures edits == EditsOf(diff, reference, side)
  {
    var script := BuildScript(diff, reference, side);
    if script.Same? {
      return map[];
    }
    edits := ExtractChanges(script.lines, LinesOf(side));
  }

  /** Every number in a joined region is the number of an inserted line of some edit. */
  lemma NumbersAreEdits(left: Edits, right: Edits, pairs: seq<(nat, nat)>, found: seq<Overlap>, o: Overlap)
    requires Finds(left, right, pairs, found) && Component(multiset(found), o)
    ensures forall x :: x in o.left ==> exists k :: k in left && x in left[k].fileLines
    ensures forall x :: x in o.right ==> exists k :: k in right && x in right[k].fileLines
  {
    hide Clash;
    forall x | x in o.left ensures exists k :: k in left && x in left[k].fileLines {
      var f :| f in multiset(found) && Within(f, o) && x in f.left;
      var j :| 0 <= j < |found| && found[j] == f;
      assert pairs[j].0 in left && x in left[pairs[j].0].fileLines;
    }
    forall x | x in o.right ensures exists k :: k in right && x in right[k].fileLines {
      var f :| f in multiset(found) && Within(f, o) && x in f.right;
      var j :| 0 <= j < |found| && found[j] == f;
      assert pairs[j].1 in right && x in right[pairs[j].1].fileLines;
    }
  }

  /** `lines` holds the files' own lines for all these numbers. */
  ghost predicate Lists(lines: map<nat, Bytes>, numbers: set<nat>, newLines: seq<Bytes>) {
    forall x :: x in numbers ==> x in lines && x < |newLines| && lines[x] == newLines[x]
  }

  /** The region as it is reported, its lines looked up by number. */
  method Render(merged: seq<Overlap>, leftLines: map<nat, Bytes>, rightLines: map<nat, Bytes>,
                ghost left: seq<Bytes>, ghost right: seq<Bytes>)
      returns (regions: seq<ConflictRegion>)
    requires forall o :: o in merged ==> Lists(leftLines, o.left, left) && Lists(rightLines, o.right, right)
    ensures ShownFrom(merged, left, right, regions)
  {
    hide Ascending, TrimLf;
    regions := [];
    for i := 0 to |merged|
      invariant NumbersExist(merged, left, right)
      invariant |regions| == i && forall k :: 0 <= k < i ==>
                merged[k] in merged && regions[k] == Shown(merged[k], left, right)
    {
      var o := merged[i];
      assert o in merged;
      var region := ConflictRegion(o.start, o.end, Looked(leftLines, Ascending(o.left)),
                                   Looked(rightLines, Ascending(o.right)));
      assert region == Shown(o, left, right);
      regions := regions + [region];
    }
  }

  lemma MergedAreListed(left: Edits, right: Edits, pairs: seq<(nat, nat)>, found: seq<Overlap>, merged: seq<Overlap>,
                        leftNew: seq<Bytes>, rightNew: seq<Bytes>)
    requires Finds(left, right, pairs, found) && JoinedOf(multiset(found), merged)
    requires Faithful(left, leftNew) && Faithful(right, rightNew)
    ensures var leftLines, rightLines :=
            LinesByIndex(left, Ascending(left.Keys)), LinesByIndex(right, Ascending(right.Keys));
            forall o :: o in merged ==> Lists(leftLines, o.left, leftNew) && Lists(rightLines, o.right, rightNew)
  {
    hide Finds, InOrder, AllHoused, AllComponents, Component, Faithful, LinesByIndex;
    LookupsHold(left, Ascending(left.Keys), leftNew);
    LookupsHold(right, Ascending(right.Keys), rightNew);
    forall o | o in merged
      ensures Lists(LinesByIndex(left, Ascending(left.Keys)), o.left, leftNew)
      ensures Lists(LinesByIndex(right, Ascending(right.Keys)), o.right, rightNew)
    {
      var i :| 0 <= i < |merged| && merged[i] == o;
      ComponentOf(multiset(found), merged, i);
      NumbersAreEdits(left, right, pairs, found, o);
    }
  }

  method TextConflicts(diff: Differ, reference: Text, left: Text, right: Text) returns (regions: seq<ConflictRegion>)
    requires Sound(diff)
    ensures ConflictsOf(diff, reference.decoded, left.decoded, right.decoded, regions)
  {
    hide JoinedOf, FindsAll, Finds, WellFormed, Separate, Faithful, EditsOf, Ascending, LinesByIndex, ShownFrom;
    var leftEdits := ExtractEdits(diff, reference.decoded, left.decoded);
    var rightEdits := ExtractEdits(diff, reference.decoded, right.decoded);
    EditsAreGood(diff, reference.decoded, left.decoded);
    EditsAreGood(diff, reference.decoded, right.decoded);
    ghost var leftNew, rightNew := LinesOf(left.decoded), LinesOf(right.decoded);
    ghost var pairs;
    var found;
    found, pairs := FindClashes(leftEdits, rightEdits);
    AllAreSome(leftEdits, rightEdits, pairs, found);
    FoundIsWellFormed(leftEdits, rightEdits, pairs, found);
    var merged := MergeOverlapping(found);
    assert Joins(leftEdits, rightEdits, merged);
    MergedAreListed(leftEdits, rightEdits, pairs, found, merged, leftNew, rightNew);
    var leftLines := LinesByIndex(leftEdits, Ascending(leftEdits.Keys));
    var rightLines := LinesByIndex(rightEdits, Ascending(rightEdits.Keys));
    regions := Render(merged, leftLines, rightLines, leftNew, rightNew);
  }

  lemma AllAreSome(left: Edits, right: Edits, pairs: seq<(nat, nat)>, found: seq<Overlap>)
    requires FindsAll(left, right, pairs, found)
    ensures Finds(left, right, pairs, found)
  {
  }

  // ----- Sides exchanged -----

  function Flipped(o: Overlap): Overlap {
    Overlap(o.start, o.end, o.right, o.left)
  }

  function FlippedAll(regions: seq<Overlap>): (flipped: seq<Overlap>)
    ensures |flipped| == |regions| && forall i :: 0 <= i < |regions| ==> flipped[i] == Flipped(regions[i])
  {
    seq(|regions|, i requires 0 <= i < |regions| => Flipped(regions[i]))
  }

  function Exchanged(regions: seq<ConflictRegion>): (exchanged: seq<ConflictRegion>)
    ensures |exchanged| == |regions|
  {
    seq(|regions|, i requires 0 <= i < |regions| =>
      ConflictRegion(regions[i].start, regions[i].end, regions[i].rightLines, regions[i].leftLines))
  }

  lemma FlippedOrder(out: seq<Overlap>)
    requires InOrder(out)
    ensures InOrder(FlippedAll(out))
  {
  }

  /** Joining does not tell the sides apart. */
  lemma FlippedJoin(found: multiset<Overlap>, other: multiset<Overlap>, out: seq<Overlap>)
    requires forall f :: f in found <==> Flipped(f) in other
    requires JoinedOf(found, out)
    ensures JoinedOf(other, FlippedAll(out))
  {
    var flipped := FlippedAll(out);
    hide AllComponents, AllHoused, Component, InOrder, FlippedAll;
    FlippedOrder(out);
    forall i | 0 <= i < |out| ensures Component(other, flipped[i]) {
      ComponentOf(found, out, i);
      FlippedComponent(found, other, out[i]);
    }
    forall g | g in other ensures Housed(g, flipped) {
      assert Flipped(Flipped(g)) == g;
      var i := Home(found, out, Flipped(g));
      assert Within(g, flipped[i]);
    }
    AllAre(other, flipped);
  }

  lemma FlippedComponent(found: multiset<Overlap>, other: multiset<Overlap>, o: Overlap)
    requires forall f :: f in found <==> Flipped(f) in other
    requires Component(found, o)
    ensures Component(other, Flipped(o))
  {
    var p := Flipped(o);
    var first :| first in found && Within(first, o) && first.start == o.start;
    assert Flipped(first) in other && Within(Flipped(first), p);
    forall x | p.start <= x < p.end ensures Cell(other, x) {
      assert Cell(found, x);
      var f :| f in found && Covers(f, x);
      assert Flipped(f) in other && Covers(Flipped(f), x);
    }
    forall x | p.start < x < p.end ensures Joint(other, x) {
      assert Joint(found, x);
      var f :| f in found && f.start < x < f.end;
      assert Flipped(f) in other && Flipped(f).start < x < Flipped(f).end;
    }
    FlippedNumbers(found, other, o);
    Assemble(other, p);
  }

  lemma FlippedNumbers(found: multiset<Overlap>, other: multiset<Overlap>, o: Overlap)
    requires forall f :: f in found <==> Flipped(f) in other
    requires Component(found, o)
    ensures forall x :: x in o.right <==> exists f :: f in other && Within(f, Flipped(o)) && x in f.left
    ensures forall x :: x in o.left <==> exists f :: f in other && Within(f, Flipped(o)) && x in f.right
  {
    assert forall g :: g in other ==> Flipped(Flipped(g)) == g;
    forall x | x in o.right ensures exists f :: f in other && Within(f, Flipped(o)) && x in f.left {
      var f :| f in found && Within(f, o) && x in f.right;
      assert Flipped(f) in other && Within(Flipped(f), Flipped(o)) && x in Flipped(f).left;
    }
    forall x | x in o.left ensures exists f :: f in other && Within(f, Flipped(o)) && x in f.right {
      var f :| f in found && Within(f, o) && x in f.left;
      assert Flipped(f) in other && Within(Flipped(f), Flipped(o)) && x in Flipped(f).right;
    }
    forall g | g in other && Within(g, Flipped(o)) ensures g.left <= o.right && g.right <= o.left {
      assert Flipped(g) in found && Within(Flipped(g), o);
    }
  }

  lemma FoundBothWays(left: Edits, right: Edits, pairs: seq<(nat, nat)>, found: seq<Overlap>,
                      pairs': seq<(nat, nat)>, found': seq<Overlap>)
    requires FindsAll(left, right, pairs, found) && FindsAll(right, left, pairs', found')
    ensures forall f :: f in multiset(found) <==> Flipped(f) in multiset(found')
  {
    forall f | f in multiset(found) ensures Flipped(f) in multiset(found') {
      var i :| 0 <= i < |found| && found[i] == f;
      var (l, r) := pairs[i];
      assert Clash(right, left, r, l);
      assert (r, l) in pairs';
      var j :| 0 <= j < |pairs'| && pairs'[j] == (r, l);
      assert found'[j] == Flipped(f);
    }
    forall f | Flipped(f) in multiset(found') ensures f in multiset(found) {
      var i :| 0 <= i < |found'| && found'[i] == Flipped(f);
      var (r, l) := pairs'[i];
      assert Clash(left, right, l, r);
      assert (l, r) in pairs;
      var j :| 0 <= j < |pairs| && pairs[j] == (l, r);
      assert found[j] == f;
    }
  }

  /** Exchanging left and right gives the same reference ranges with the lines exchanged, although the
      clashes are found and sorted in another order. */
  lemma ConflictsAreSymmetric(diff: Differ, reference: Bytes, left: Bytes, right: Bytes, a: seq<ConflictRegion>,
                              b: seq<ConflictRegion>)
    requires Sound(diff)
    requires ConflictsOf(diff, reference, left, right, a)
    requires ConflictsOf(diff, reference, right, left, b)
    ensures b == Exchanged(a)
  {
    hide EditsOf, Separate, Faithful, FindsAll, Finds, JoinedOf, WellFormed, Ascending, ShownLines;
    var leftEdits, rightEdits := EditsOf(diff, reference, left), EditsOf(diff, reference, right);
    var merged: seq<Overlap> :|
        Joins(leftEdits, rightEdits, merged) && ShownFrom(merged, LinesOf(left), LinesOf(right), a);
    var merged': seq<Overlap> :|
        Joins(rightEdits, leftEdits, merged') && ShownFrom(merged', LinesOf(right), LinesOf(left), b);
    var pairs: seq<(nat, nat)>, found: seq<Overlap> :|
        FindsAll(leftEdits, rightEdits, pairs, found) && JoinedOf(multiset(found), merged);
    var pairs': seq<(nat, nat)>, found': seq<Overlap> :|
        FindsAll(rightEdits, leftEdits, pairs', found') && JoinedOf(multiset(found'), merged');
    EditsAreGood(diff, reference, left);
    EditsAreGood(diff, reference, right);
    FoundBothWays(leftEdits, rightEdits, pairs, found, pairs', found');
    FlippedJoin(multiset(found), multiset(found'), merged);
    AllAreSome(rightEdits, leftEdits, pairs', found');
    FoundIsWellFormed(rightEdits, leftEdits, pairs', found');
    JoinedIsUnique(multiset(found'), FlippedAll(merged), merged');
    forall i | 0 <= i < |a| ensures b[i] == Exchanged(a)[i] {
      assert merged'[i] == Flipped(merged[i]);
    }
  }

  // ----- When there is nothing to report, and what is reported -----

  lemma FirstPairClashes(left: Edits, right: Edits, pairs: seq<(nat, nat)>, found: seq<Overlap>)
    requires Finds(left, right, pairs, found) && pairs != []
    ensures pairs[0].0 in left && pairs[0].1 in right && Clash(left, right, pairs[0].0, pairs[0].1)
  {
  }

  lemma NothingFound(left: Edits, right: Edits, merged: seq<Overlap>)
    requires Joins(left, right, merged)
    requires forall l, r :: l in left && r in right ==> !Clash(left, right, l, r)
    ensures merged == []
  {
    hide Clash, InOrder, AllHoused, AllComponents, RangesMeet;
    var pairs: seq<(nat, nat)>, found: seq<Overlap> :|
        FindsAll(left, right, pairs, found) && JoinedOf(multiset(found), merged);
    if pairs != [] {
      FirstPairClashes(left, right, pairs, found);
      assert false;
    }
    if merged != [] {
      var f := Opening(multiset(found), merged, 0);
      assert false;
    }
  }

  /** No conflict when the sides are equal or one of them is the reference. */
  lemma NoConflictWithoutTwoEdits(diff: Differ, reference: Bytes, left: Bytes, right: Bytes,
                                  regions: seq<ConflictRegion>)
    requires Sound(diff)
    requires ConflictsOf(diff, reference, left, right, regions)
    requires left == right || left == reference || right == reference
    ensures regions == []
  {
    hide Separate, Faithful, FindsAll, Joins;
    var leftEdits, rightEdits := EditsOf(diff, reference, left), EditsOf(diff, reference, right);
    var merged: seq<Overlap> :|
        Joins(leftEdits, rightEdits, merged) && ShownFrom(merged, LinesOf(left), LinesOf(right), regions);
    EditsAreGood(diff, reference, left);
    forall l, r | l in leftEdits && r in rightEdits ensures !Clash(leftEdits, rightEdits, l, r) {
      OwnEditsDoNotMeet(leftEdits, l, r);
    }
    NothingFound(leftEdits, rightEdits, merged);
  }

  lemma OwnEditsDoNotMeet(edits: Edits, l: nat, r: nat)
    requires Separate(edits) && l in edits && r in edits
    ensures !Clash(edits, edits, l, r)
  {
  }

  /** The reported regions are in order and disjoint. */
  lemma RegionsAreDisjoint(diff: Differ, reference: Bytes, left: Bytes, right: Bytes, regions: seq<ConflictRegion>)
    requires Sound(diff)
    requires ConflictsOf(diff, reference, left, right, regions)
    ensures forall j, k :: 0 <= j < k < |regions| ==>
            regions[j].start < regions[k].start && regions[j].end <= regions[k].start
  {
    hide EditsOf, Ascending, FindsAll;
    var merged: seq<Overlap> :| Joins(EditsOf(diff, reference, left), EditsOf(diff, reference, right), merged)
                             && ShownFrom(merged, LinesOf(left), LinesOf(right), regions);
  }

  lemma ClashIsJoined(left: Edits, right: Edits, merged: seq<Overlap>, l: nat, r: nat) returns (i: nat)
    requires Joins(left, right, merged)
    requires l in left && r in right && Clash(left, right, l, r)
    ensures i < |merged|
    ensures merged[i].start <= l && EndOf(left, l) <= merged[i].end && merged[i].start <= r
            && EndOf(right, r) <= merged[i].end
    ensures left[l].fileLines <= merged[i].left && right[r].fileLines <= merged[i].right
  {
    hide Clash, InOrder, AllHoused, AllComponents;
    var pairs: seq<(nat, nat)>, found: seq<Overlap> :|
        FindsAll(left, right, pairs, found) && JoinedOf(multiset(found), merged);
    assert (l, r) in pairs;
    var p :| 0 <= p < |pairs| && pairs[p] == (l, r);
    i := Home(multiset(found), merged, found[p]);
    ComponentOf(multiset(found), merged, i);
  }

  /** Two edits that overlap and differ lie inside one reported region, which shows the lines both put
      in. */
  lemma ClashesAreReported(diff: Differ, reference: Bytes, left: Bytes, right: Bytes, regions: seq<ConflictRegion>,
                           l: nat, r: nat)
      returns (i: nat)
    requires Sound(diff)
    requires ConflictsOf(diff, reference, left, right, regions)
    requires var leftEdits, rightEdits := EditsOf(diff, reference, left), EditsOf(diff, reference, right);
             l in leftEdits && r in rightEdits && Clash(leftEdits, rightEdits, l, r)
    ensures var leftEdits, rightEdits := EditsOf(diff, reference, left), EditsOf(diff, reference, right);
            && i < |regions|
            && regions[i].start <= l && EndOf(leftEdits, l) <= regions[i].end
            && regions[i].start <= r && EndOf(rightEdits, r) <= regions[i].end
            && (forall line :: line in leftEdits[l].replacement ==> TrimLf(line) in regions[i].leftLines)
            && (forall line :: line in rightEdits[r].replacement ==> TrimLf(line) in regions[i].rightLines)
  {
    hide EditsOf, Separate, Faithful, Ascending, TrimLf, Joins, Clash, ShownLines;
    var leftEdits, rightEdits := EditsOf(diff, reference, left), EditsOf(diff, reference, right);
    var merged: seq<Overlap> :|
        Joins(leftEdits, rightEdits, merged) && ShownFrom(merged, LinesOf(left), LinesOf(right), regions);
    i := ClashIsJoined(leftEdits, rightEdits, merged, l, r);
    EditsAreGood(diff, reference, left);
    EditsAreGood(diff, reference, right);
    assert merged[i] in merged;
    EditIsShown(leftEdits, l, LinesOf(left), merged[i].left);
    EditIsShown(rightEdits, r, LinesOf(right), merged[i].right);
  }

  lemma EditIsShown(edits: Edits, k: nat, newLines: seq<Bytes>, numbers: set<nat>)
    requires Faithful(edits, newLines) && k in edits
    requires edits[k].fileLines <= numbers && forall x :: x in numbers ==> x < |newLines|
    ensures forall line :: line in edits[k].replacement ==> TrimLf(line) in ShownLines(newLines, Ascending(numbers))
  {
    hide Ascending, TrimLf;
    var n: nat :| IsStretch(edits[k], newLines, n);
    var list := Ascending(numbers);
    forall line | line in edits[k].replacement ensures TrimLf(line) in ShownLines(newLines, list) {
      var i :| 0 <= i < |edits[k].replacement| && edits[k].replacement[i] == line;
      assert n + i in edits[k].fileLines && n + i in list;
      var j :| 0 <= j < |list| && list[j] == n + i;
      assert ShownLines(newLines, list)[j] == TrimLf(line);
    }
  }
}
