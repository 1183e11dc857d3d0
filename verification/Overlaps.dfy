/** Regions of the reference that both sides changed, and joining the ones that overlap. */
module Overlaps {
  import Sorting

  datatype Overlap = Overlap(start: nat, end: nat, left: set<nat>, right: set<nat>)

  function Min(a: nat, b: nat): nat { if a < b then a else b }

  function Max(a: nat, b: nat): nat { if a < b then b else a }

  predicate StartsFirst(a: Overlap, b: Overlap) {
    a.start <= b.start
  }

  /** Sorting puts the regions in the order of their starts and keeps them all. */
  lemma SortingSorts(found: seq<Overlap>)
    ensures Sorting.InOrder(Sorting.Sorted(found, StartsFirst), StartsFirst)
    ensures multiset(Sorting.Sorted(found, StartsFirst)) == multiset(found)
  {
    assert Sorting.IsOrder(StartsFirst);
    Sorting.SortedInOrder(found, StartsFirst);
    Sorting.SortedIsPermutation(found, StartsFirst);
  }

  // ----- What joining is to produce -----

  predicate Covers(f: Overlap, x: int) {
    f.start <= x < f.end
  }

  /** An empty region stands where no other region begins or passes. */
  ghost predicate LoneInsertions(found: multiset<Overlap>) {
    forall f :: f in found && f.start == f.end ==>
      found[f] == 1 && forall g :: g in found && g != f ==> g.start != f.start && !Covers(g, f.start)
  }

  ghost predicate WellFormed(found: multiset<Overlap>) {
    (forall f :: f in found ==> f.start <= f.end) && LoneInsertions(found)
  }

  /** f is part of the joined region o. */
  predicate Within(f: Overlap, o: Overlap) {
    o.start <= f.start && f.end <= o.end && (f.start < o.end || o.start == o.end)
  }

  /** Line x of o is covered by a region. */
  ghost predicate Cell(found: multiset<Overlap>, x: int) {
    exists f :: f in found && Covers(f, x)
  }

  /** A region passes from line x - 1 to line x. */
  ghost predicate Joint(found: multiset<Overlap>, x: int) {
    exists f :: f in found && f.start < x < f.end
  }

  /** o is made of the regions within it and of nothing else, and no cut goes between them. */
  ghost predicate Component(found: multiset<Overlap>, o: Overlap) {
    && (exists f :: f in found && Within(f, o) && f.start == o.start)
    && (forall x :: o.start <= x < o.end ==> Cell(found, x))
    && (forall x :: o.start < x < o.end ==> Joint(found, x))
    && (forall x :: x in o.left <==> exists f :: f in found && Within(f, o) && x in f.left)
    && (forall x :: x in o.right <==> exists f :: f in found && Within(f, o) && x in f.right)
  }

  predicate InOrder(out: seq<Overlap>) {
    && (forall i :: 0 <= i < |out| ==> out[i].start <= out[i].end)
    && (forall i, j :: 0 <= i < j < |out| ==> out[i].start < out[j].start && out[i].end <= out[j].start)
  }

  ghost predicate AllComponents(found: multiset<Overlap>, out: seq<Overlap>) {
    forall i :: 0 <= i < |out| ==> Component(found, out[i])
  }

  ghost predicate Housed(f: Overlap, out: seq<Overlap>) {
    exists i :: 0 <= i < |out| && Within(f, out[i])
  }

  ghost predicate AllHoused(found: multiset<Overlap>, out: seq<Overlap>) {
    forall f :: f in found ==> Housed(f, out)
  }

  /** The joined regions in order, every found region part of one of them. */
  ghost predicate JoinedOf(found: multiset<Overlap>, out: seq<Overlap>) {
    InOrder(out) && AllComponents(found, out) && AllHoused(found, out)
  }

  // ----- Only one result is possible -----

  lemma Home(found: multiset<Overlap>, out: seq<Overlap>, f: Overlap) returns (i: nat)
    requires AllHoused(found, out) && f in found
    ensures i < |out| && Within(f, out[i])
  {
    assert Housed(f, out);
    i :| 0 <= i < |out| && Within(f, out[i]);
  }

  lemma Opening(found: multiset<Overlap>, out: seq<Overlap>, k: nat) returns (f: Overlap)
    requires AllComponents(found, out) && k < |out|
    ensures f in found && Within(f, out[k]) && f.start == out[k].start
  {
    assert Component(found, out[k]);
    f :| f in found && Within(f, out[k]) && f.start == out[k].start;
  }

  lemma Covering(found: multiset<Overlap>, out: seq<Overlap>, k: nat, x: int) returns (f: Overlap)
    requires AllComponents(found, out) && k < |out| && out[k].start <= x < out[k].end
    ensures f in found && Covers(f, x)
  {
    assert Component(found, out[k]);
    assert Cell(found, x);
    f :| f in found && Covers(f, x);
  }

  lemma Crossing(found: multiset<Overlap>, out: seq<Overlap>, k: nat, x: int) returns (f: Overlap)
    requires AllComponents(found, out) && k < |out| && out[k].start < x < out[k].end
    ensures f in found && f.start < x < f.end
  {
    assert Component(found, out[k]);
    assert Joint(found, x);
    f :| f in found && f.start < x < f.end;
  }

  /** An insertion and a region that passes or begins there cannot both be found. */
  lemma NotWithInsertion(found: multiset<Overlap>, f: Overlap, g: Overlap)
    requires LoneInsertions(found) && f in found && g in found
    requires f.start == f.end && f != g
    ensures g.start != f.start && !Covers(g, f.start)
  {
  }

  lemma StartNotBefore(found: multiset<Overlap>, a: seq<Overlap>, b: seq<Overlap>, k: nat)
    requires WellFormed(found) && JoinedOf(found, a) && JoinedOf(found, b)
    requires k < |a| && k <= |b| && a[..k] == b[..k]
    ensures k < |b| && b[k].start <= a[k].start
  {
    hide AllComponents, AllHoused, LoneInsertions;
    var f := Opening(found, a, k);
    var j := Home(found, b, f);
    assert forall i :: 0 <= i < k ==> b[i] == b[..k][i] && a[i] == a[..k][i];
    assert j >= k;
  }

  lemma EndNotBehind(found: multiset<Overlap>, a: seq<Overlap>, b: seq<Overlap>, k: nat)
    requires WellFormed(found) && JoinedOf(found, a) && JoinedOf(found, b)
    requires k < |a| && k < |b| && a[k].start == b[k].start
    ensures b[k].end <= a[k].end
  {
    hide AllComponents, AllHoused, LoneInsertions;
    if b[k].end > a[k].end {
      var x := a[k].end;
      if a[k].start == x {
        var f := Opening(found, a, k);
        var g := Covering(found, b, k, x);
        NotWithInsertion(found, f, g);
        assert false;
      } else {
        var f := Crossing(found, b, k, x);
        var j := Home(found, a, f);
        assert false;
      }
    }
  }

  lemma SameSets(found: multiset<Overlap>, o: Overlap, p: Overlap)
    requires Component(found, o) && Component(found, p)
    requires o.start == p.start && o.end == p.end
    ensures o == p
  {
    assert forall f :: Within(f, o) <==> Within(f, p);
    forall x ensures x in o.left <==> x in p.left {
      if x in o.left {
        var f :| f in found && Within(f, o) && x in f.left;
        assert Within(f, p);
      }
      if x in p.left {
        var f :| f in found && Within(f, p) && x in f.left;
        assert Within(f, o);
      }
    }
    forall x ensures x in o.right <==> x in p.right {
      if x in o.right {
        var f :| f in found && Within(f, o) && x in f.right;
        assert Within(f, p);
      }
      if x in p.right {
        var f :| f in found && Within(f, p) && x in f.right;
        assert Within(f, o);
      }
    }
  }

  lemma {:induction false} JoinedPrefix(found: multiset<Overlap>, a: seq<Overlap>, b: seq<Overlap>, n: nat)
    requires WellFormed(found) && JoinedOf(found, a) && JoinedOf(found, b)
    requires n <= |a|
    ensures n <= |b| && a[..n] == b[..n]
  {
    hide WellFormed, InOrder, AllHoused, Component;
    if n > 0 {
      var k := n - 1;
      JoinedPrefix(found, a, b, k);
      StartNotBefore(found, a, b, k);
      StartNotBefore(found, b, a, k);
      EndNotBehind(found, a, b, k);
      EndNotBehind(found, b, a, k);
      SameSets(found, a[k], b[k]);
      assert a[..n] == a[..k] + [a[k]] && b[..n] == b[..k] + [b[k]];
    }
  }

  /** Whatever order the regions were found and sorted in, joining gives one result. */
  lemma JoinedIsUnique(found: multiset<Overlap>, a: seq<Overlap>, b: seq<Overlap>)
    requires WellFormed(found) && JoinedOf(found, a) && JoinedOf(found, b)
    ensures a == b
  {
    hide WellFormed, JoinedOf;
    JoinedPrefix(found, a, b, |a|);
    JoinedPrefix(found, b, a, |b|);
  }

  // ----- Joining -----

  lemma FirstRegion(r: Overlap)
    requires r.start <= r.end
    ensures JoinedOf(multiset{r}, [r])
  {
    var found := multiset{r};
    assert r in found && Within(r, r);
    assert forall x :: r.start <= x < r.end ==> Covers(r, x);
    assert Within(r, [r][0]);
  }

  lemma NoRegions()
    ensures JoinedOf(multiset{}, [])
  {
  }

  /** The last region widened by r. */
  function Widened(last: Overlap, r: Overlap): Overlap {
    Overlap(last.start, Max(last.end, r.end), last.left + r.left, last.right + r.right)
  }

  /** A region that begins inside the last joined region is taken into it. */
  lemma TakenIn(found: multiset<Overlap>, out: seq<Overlap>, r: Overlap)
    requires WellFormed(found + multiset{r}) && JoinedOf(found, out) && out != []
    requires forall f :: f in found ==> f.start <= r.start
    requires r.start < out[|out| - 1].end
    ensures JoinedOf(found + multiset{r}, out[..|out| - 1] + [Widened(out[|out| - 1], r)])
  {
    hide AllComponents, AllHoused, LoneInsertions, Component;
    var n := |out| - 1;
    var last, all := out[n], found + multiset{r};
    var wide := Widened(last, r);
    var joined := out[..n] + [wide];
    var first := Opening(found, out, n);
    assert first in found;
    NotAnInsertion(found, out, r);
    LastTakesIn(found, out, r);
    forall i | 0 <= i < |joined| ensures Component(all, joined[i]) {
      if i < n {
        ComponentOf(found, out, i);
        ComponentStays(found, r, out[i]);
      }
    }
    forall f | f in all ensures Housed(f, joined) {
      if f in found {
        var i := Home(found, out, f);
        assert if i < n then joined[i] == out[i] else Within(f, joined[n]);
      } else {
        assert f == r && Within(r, joined[n]);
      }
    }
    AllAre(all, joined);
  }

  lemma ComponentOf(found: multiset<Overlap>, out: seq<Overlap>, i: nat)
    requires AllComponents(found, out) && i < |out|
    ensures Component(found, out[i])
  {
  }

  lemma AllAre(found: multiset<Overlap>, out: seq<Overlap>)
    requires forall i :: 0 <= i < |out| ==> Component(found, out[i])
    requires forall f :: f in found ==> Housed(f, out)
    ensures AllComponents(found, out) && AllHoused(found, out)
  {
  }

  lemma NotAnInsertion(found: multiset<Overlap>, out: seq<Overlap>, r: Overlap)
    requires WellFormed(found + multiset{r}) && JoinedOf(found, out) && out != []
    requires out[|out| - 1].start <= r.start < out[|out| - 1].end
    ensures r.start < r.end
  {
    hide AllComponents, AllHoused, LoneInsertions;
    assert r in found + multiset{r};
    if r.start == r.end {
      var g := Covering(found, out, |out| - 1, r.start);
      NotWithInsertion(found + multiset{r}, r, g);
      assert false;
    }
  }

  lemma LastTakesIn(found: multiset<Overlap>, out: seq<Overlap>, r: Overlap)
    requires JoinedOf(found, out) && out != []
    requires forall f :: f in found ==> f.start <= f.end && f.start <= r.start
    requires out[|out| - 1].start <= r.start < out[|out| - 1].end && r.start < r.end
    ensures Component(found + multiset{r}, Widened(out[|out| - 1], r))
  {
    hide AllComponents, AllHoused, Component;
    var n := |out| - 1;
    var last, all, wide := out[n], found + multiset{r}, Widened(out[n], r);
    ComponentOf(found, out, n);
    forall f | f in found ensures Within(f, wide) <==> Within(f, last) {
      var i := Home(found, out, f);
    }
    CellsOfWidened(found, last, r);
    WithinUnion(found, r, last, wide);
    var first := Opening(found, out, n);
    assert first in all && Within(first, wide);
    Assemble(all, wide);
  }

  lemma Assemble(found: multiset<Overlap>, o: Overlap)
    requires exists f :: f in found && Within(f, o) && f.start == o.start
    requires (forall x :: o.start <= x < o.end ==> Cell(found, x))
             && (forall x :: o.start < x < o.end ==> Joint(found, x))
    requires forall x :: x in o.left <==> exists f :: f in found && Within(f, o) && x in f.left
    requires forall x :: x in o.right <==> exists f :: f in found && Within(f, o) && x in f.right
    ensures Component(found, o)
  {
  }

  lemma CellsOfWidened(found: multiset<Overlap>, last: Overlap, r: Overlap)
    requires Component(found, last) && last.start <= r.start < last.end
    ensures var all, wide := found + multiset{r}, Widened(last, r);
            (forall x :: wide.start <= x < wide.end ==> Cell(all, x))
              && (forall x :: wide.start < x < wide.end ==> Joint(all, x))
  {
    var all, wide := found + multiset{r}, Widened(last, r);
    assert r in all;
    forall x | wide.start <= x < wide.end ensures Cell(all, x) {
      if x < last.end {
        assert Cell(found, x);
        var f :| f in found && Covers(f, x);
        assert f in all;
      } else {
        assert Covers(r, x);
      }
    }
    forall x | wide.start < x < wide.end ensures Joint(all, x) {
      if x < last.end {
        assert Joint(found, x);
        var f :| f in found && f.start < x < f.end;
        assert f in all;
      } else {
        assert r.start < x < r.end;
      }
    }
  }

  lemma WithinUnion(found: multiset<Overlap>, r: Overlap, last: Overlap, wide: Overlap)
    requires Component(found, last)
    requires wide.left == last.left + r.left && wide.right == last.right + r.right
    requires Within(r, wide)
    requires forall f :: f in found ==> (Within(f, wide) <==> Within(f, last))
    ensures var all := found + multiset{r};
            && (forall x :: x in wide.left <==> exists f :: f in all && Within(f, wide) && x in f.left)
            && (forall x :: x in wide.right <==> exists f :: f in all && Within(f, wide) && x in f.right)
  {
    var all := found + multiset{r};
    assert r in all;
    assert forall f :: f in all <==> f in found || f == r;
  }

  /** A joined region is untouched by a region that is not within it. */
  lemma ComponentStays(found: multiset<Overlap>, r: Overlap, o: Overlap)
    requires Component(found, o) && !Within(r, o)
    ensures Component(found + multiset{r}, o)
  {
    var all := found + multiset{r};
    assert forall f :: f in all <==> f in found || f == r;
    forall x | o.start <= x < o.end ensures Cell(all, x) {
      assert Cell(found, x);
      var f :| f in found && Covers(f, x);
      assert f in all;
    }
    forall x | o.start < x < o.end ensures Joint(all, x) {
      assert Joint(found, x);
      var f :| f in found && f.start < x < f.end;
      assert f in all;
    }
  }

  /** A region that begins at or behind the end of the last one stands on its own. */
  lemma PutBehind(found: multiset<Overlap>, out: seq<Overlap>, r: Overlap)
    requires WellFormed(found + multiset{r}) && JoinedOf(found, out) && out != []
    requires forall f :: f in found ==> f.start <= r.start
    requires r.start >= out[|out| - 1].end
    ensures JoinedOf(found + multiset{r}, out + [r])
  {
    hide AllComponents, AllHoused, LoneInsertions, Component, Within;
    var all, longer := found + multiset{r}, out + [r];
    BehindTheLast(found, out, r);
    StandsAlone(found, out, r);
    assert r in all;
    Proper(all, r);
    OneMoreInOrder(out, r);
    hide InOrder;
    forall i | 0 <= i < |longer| ensures Component(all, longer[i]) {
      if i < |out| {
        ComponentOf(found, out, i);
        BehindAll(out, r, i);
        ComponentStays(found, r, out[i]);
      }
    }
    forall f | f in all ensures Housed(f, longer) {
      if f in found {
        var i := Home(found, out, f);
        assert longer[i] == out[i];
      } else {
        WithinItself(r);
        assert longer[|out|] == r;
      }
    }
    AllAre(all, longer);
  }

  lemma BehindAll(out: seq<Overlap>, r: Overlap, i: nat)
    requires InOrder(out) && i < |out| && r.start <= r.end
    requires out[|out| - 1].start < r.start && out[|out| - 1].end <= r.start
    ensures !Within(r, out[i])
  {
  }

  lemma WithinItself(r: Overlap)
    requires r.start <= r.end
    ensures Within(r, r)
  {
  }

  lemma OneMoreInOrder(out: seq<Overlap>, r: Overlap)
    requires InOrder(out) && out != [] && r.start <= r.end
    requires out[|out| - 1].start < r.start && out[|out| - 1].end <= r.start
    ensures InOrder(out + [r])
  {
  }

  lemma BehindTheLast(found: multiset<Overlap>, out: seq<Overlap>, r: Overlap)
    requires WellFormed(found + multiset{r}) && JoinedOf(found, out) && out != []
    requires r.start >= out[|out| - 1].end
    ensures out[|out| - 1].start < r.start
  {
    hide AllComponents, AllHoused;
    var all, last := found + multiset{r}, out[|out| - 1];
    if last.start == r.start {
      var first := Opening(found, out, |out| - 1);
      assert false;
    }
  }

  lemma StandsAlone(found: multiset<Overlap>, out: seq<Overlap>, r: Overlap)
    requires WellFormed(found + multiset{r}) && JoinedOf(found, out) && out != []
    requires r.start >= out[|out| - 1].end
    ensures Component(found + multiset{r}, r)
  {
    hide AllComponents, AllHoused;
    var all := found + multiset{r};
    assert r in all;
    forall f | f in found ensures !Within(f, r) {
      if Within(f, r) {
        var i := Home(found, out, f);
        assert false;
      }
    }
    assert Within(r, r);
    assert forall x :: r.start <= x < r.end ==> Covers(r, x);
    assert forall f :: f in all <==> f in found || f == r;
  }

  /** Sorts by start, then joins each region to the last one if it begins inside it. */
  method MergeOverlapping(found: seq<Overlap>) returns (merged: seq<Overlap>)
    requires WellFormed(multiset(found))
    ensures JoinedOf(multiset(found), merged)
  {
    hide JoinedOf, WellFormed;
    if |found| <= 1 {
      merged := found;
      if found == [] {
        NoRegions();
      } else {
        assert found == [found[0]];
        Proper(multiset(found), found[0]);
        FirstRegion(found[0]);
      }
      return;
    }
    var regions := Sorting.Sorted(found, StartsFirst);
    SortingSorts(found);
    assert |regions| == |multiset(regions)| == |found|;
    merged := [regions[0]];
    Proper(multiset(regions), regions[0]);
    FirstRegion(regions[0]);
    assert regions[..1] == [regions[0]];
    for i := 1 to |regions|
      invariant merged != []
      invariant JoinedOf(multiset(regions[..i]), merged)
    {
      var region, last := regions[i], merged[|merged| - 1];
      NextRegion(regions, i);
      if region.start < last.end {
        TakenIn(multiset(regions[..i]), merged, region);
        merged := merged[..|merged| - 1] + [Widened(last, region)];
      } else {
        PutBehind(multiset(regions[..i]), merged, region);
        merged := merged + [region];
      }
    }
    assert regions[..|regions|] == regions;
  }

  lemma Proper(found: multiset<Overlap>, f: Overlap)
    requires WellFormed(found) && f in found
    ensures f.start <= f.end
  {
  }

  lemma NextRegion(regions: seq<Overlap>, i: nat)
    requires i < |regions| && Sorting.InOrder(regions, StartsFirst) && WellFormed(multiset(regions))
    ensures multiset(regions[..i + 1]) == multiset(regions[..i]) + multiset{regions[i]}
    ensures WellFormed(multiset(regions[..i]) + multiset{regions[i]})
    ensures forall f :: f in multiset(regions[..i]) ==> f.start <= regions[i].start
  {
    assert regions[..i + 1] == regions[..i] + [regions[i]];
    assert regions == regions[..i + 1] + regions[i + 1..];
    var part, whole := multiset(regions[..i + 1]), multiset(regions);
    assert whole == part + multiset(regions[i + 1..]);
    assert forall f :: f in part ==> f in whole && part[f] <= whole[f];
  }
}
