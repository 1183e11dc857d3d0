/** Where a scan starts: from the named directories and the include values to a tidy list of paths. */
module Starts {
  import opened Texts
  import opened RelativePath

  datatype Start = Start(path: string, withSelf: bool, descend: bool, group: nat)

  datatype ScanScope = Whole | StartsAt(starts: seq<Start>)

  function Value(path: string): Start { Start(path, true, true, 0) }

  function Below(path: string, group: nat): Start { Start(path, false, true, group) }

  function Check(path: string, group: nat): Start { Start(path, false, false, group) }

  // ----- From directories and include values -----

  function ValueStarts(values: seq<string>): (starts: seq<Start>) {
    seq(|values|, i requires 0 <= i < |values| => Value(values[i]))
  }

  function BelowStarts(dirs: seq<string>): (starts: seq<Start>) {
    seq(|dirs|, i requires 0 <= i < |dirs| => Below(dirs[i], i))
  }

  /** The include values at or below `dir`. */
  function Inner(dir: string, group: nat, values: seq<string>): (starts: seq<Start>)
    ensures forall s :: s in starts <==>
      exists v :: v in values && CoveredBy(Normalized(v), dir) && s == Start(v, true, true, group)
  {
    if values == [] then []
    else
      (if CoveredBy(Normalized(values[0]), dir) then [Start(values[0], true, true, group)] else [])
      + Inner(dir, group, values[1..])
  }

  /** The starts of one directory under the include values. */
  function Narrowed(dir: string, group: nat, values: seq<string>): seq<Start> {
    var dirPath := Normalized(dir);
    if exists v :: v in values && CoveredBy(dirPath, Normalized(v)) then [Below(dir, group)]
    else [Check(dir, group)] + Inner(dirPath, group, values)
  }

  function NarrowedAll(dirs: seq<string>, group: nat, values: seq<string>): seq<Start> {
    if dirs == [] then [] else Narrowed(dirs[0], group, values) + NarrowedAll(dirs[1..], group + 1, values)
  }

  function ScopeFor(dirs: Option<seq<string>>, include_: Option<seq<string>>): ScanScope {
    match (dirs, include_)
    case (None, None) => Whole
    case (None, Some(values)) => StartsAt(ValueStarts(values))
    case (Some(dirs), None) => StartsAt(BelowStarts(dirs))
    case (Some(dirs), Some(values)) => StartsAt(NarrowedAll(dirs, 0, values))
  }

  /** A start collects everything at or below it. */
  predicate Reaches(s: Start, path: string) {
    s.descend && CoveredBy(path, Normalized(s.path))
  }

  ghost predicate InSome(paths: seq<string>, path: string) {
    exists d :: d in paths && CoveredBy(path, Normalized(d))
  }

  ghost predicate InScope(scope: ScanScope, path: string) {
    scope.Whole? || exists s :: s in scope.starts && Reaches(s, path)
  }

  lemma {:induction false} NarrowedReaches(dir: string, group: nat, values: seq<string>, path: string)
    ensures (exists s :: s in Narrowed(dir, group, values) && Reaches(s, path))
       <==> CoveredBy(path, Normalized(dir)) && InSome(values, path)
  {
    var dirPath, starts := Normalized(dir), Narrowed(dir, group, values);
    hide Normalized, Inner;
    if v :| v in values && CoveredBy(dirPath, Normalized(v)) {
      assert starts == [Below(dir, group)];
      if CoveredBy(path, dirPath) {
        CoverIsTransitive(path, dirPath, Normalized(v));
        assert starts[0] in starts && Reaches(starts[0], path);
      }
      assert forall s :: s in starts ==> s == Below(dir, group);
    } else {
      if s :| s in starts && Reaches(s, path) {
        var v :| v in values && CoveredBy(Normalized(v), dirPath) && s == Start(v, true, true, group);
        CoverIsTransitive(path, Normalized(v), dirPath);
      }
      if CoveredBy(path, dirPath) && InSome(values, path) {
        var v :| v in values && CoveredBy(path, Normalized(v));
        CoversAreComparable(path, dirPath, Normalized(v));
        assert Start(v, true, true, group) in starts;
      }
    }
  }

  lemma CoverIsTransitive(path: string, a: string, b: string)
    requires CoveredBy(path, a) && CoveredBy(a, b)
    ensures CoveredBy(path, b)
  {
    if a != "" && b != "" {
      WithinIsTransitive(path, a, b);
    }
  }

  lemma CoversAreComparable(path: string, a: string, b: string)
    requires CoveredBy(path, a) && CoveredBy(path, b)
    ensures CoveredBy(a, b) || CoveredBy(b, a)
  {
    if a != "" && b != "" {
      Comparable(path, a, b);
    }
  }

  lemma {:induction false} NarrowedAllReaches(dirs: seq<string>, group: nat, values: seq<string>, path: string)
    ensures (exists s :: s in NarrowedAll(dirs, group, values) && Reaches(s, path))
       <==> InSome(dirs, path) && InSome(values, path)
  {
    hide Narrowed, Reaches, CoveredBy;
    if dirs != [] {
      NarrowedReaches(dirs[0], group, values, path);
      NarrowedAllReaches(dirs[1..], group + 1, values, path);
      assert dirs == [dirs[0]] + dirs[1..];
      var first, others := Narrowed(dirs[0], group, values), NarrowedAll(dirs[1..], group + 1, values);
      assert forall s :: s in first + others <==> s in first || s in others;
    }
  }

  /** What is scanned is what lies in some named directory and in some include value, where neither
      restricts if it is not given. */
  lemma ScopeIsTheIntersection(dirs: Option<seq<string>>, include_: Option<seq<string>>, path: string)
    ensures InScope(ScopeFor(dirs, include_), path)
       <==> (dirs.None? || InSome(dirs.value, path)) && (include_.None? || InSome(include_.value, path))
  {
    hide CoveredBy, Normalized;
    match (dirs, include_) {
      case (None, None) =>
      case (None, Some(values)) =>
        var starts := ValueStarts(values);
        if v :| v in values && CoveredBy(path, Normalized(v)) {
          var i :| 0 <= i < |values| && values[i] == v;
          assert starts[i] in starts && Reaches(starts[i], path);
        }
      case (Some(named), None) =>
        var starts := BelowStarts(named);
        if d :| d in named && CoveredBy(path, Normalized(d)) {
          var i :| 0 <= i < |named| && named[i] == d;
          assert starts[i] in starts && Reaches(starts[i], path);
        }
      case (Some(named), Some(values)) =>
        NarrowedAllReaches(named, 0, values, path);
    }
  }

  /** How a start of a scan comes about. With named directories, start `s` of the directory with number i
      is the directory itself, to be read below if no include value restricts it and only checked
      otherwise, or an include value inside it. Without them it is an include value. */
  ghost predicate IsStart(dirs: Option<seq<string>>, include_: Option<seq<string>>, s: Start) {
    if dirs.None? then include_.Some? && s.withSelf && s.descend && s.path in include_.value && s.group == 0
    else s.group < |dirs.value| && IsStartOf(dirs.value[s.group], include_, s)
  }

  ghost predicate IsStartOf(dir: string, include_: Option<seq<string>>, s: Start) {
    var open_ := include_.None? || exists v :: v in include_.value && CoveredBy(Normalized(dir), Normalized(v));
    || (s.path == dir && !s.withSelf && s.descend == open_)
    || (!open_ && s.withSelf && s.descend && s.path in include_.value && CoveredBy(Normalized(s.path), Normalized(dir)))
  }

  lemma NarrowedStarts(dir: string, group: nat, values: seq<string>, s: Start)
    ensures s in Narrowed(dir, group, values) <==> s.group == group && IsStartOf(dir, Some(values), s)
  {
    hide CoveredBy, Normalized;
    var dirPath := Normalized(dir);
    if s.withSelf && s.descend && s.group == group && s.path in values && CoveredBy(Normalized(s.path), dirPath) {
      assert s == Start(s.path, true, true, group);
    }
  }

  lemma {:induction false} NarrowedAllStarts(dirs: seq<string>, group: nat, values: seq<string>, s: Start)
    ensures s in NarrowedAll(dirs, group, values)
       <==> group <= s.group < group + |dirs| && IsStartOf(dirs[s.group - group], Some(values), s)
  {
    hide Narrowed, IsStartOf, CoveredBy;
    if dirs != [] {
      assert s in NarrowedAll(dirs, group, values)
        <==> s in Narrowed(dirs[0], group, values) || s in NarrowedAll(dirs[1..], group + 1, values);
      NarrowedStarts(dirs[0], group, values, s);
      NarrowedAllStarts(dirs[1..], group + 1, values, s);
      if group < s.group < group + |dirs| {
        assert dirs[1..][s.group - (group + 1)] == dirs[s.group - group];
      }
    }
  }

  /** The starts are exactly these: every include value that is scanned from is listed itself, a named
      directory is not, and every directory counts in a group of its own together with what is inside it. */
  lemma StartsExactly(dirs: Option<seq<string>>, include_: Option<seq<string>>, s: Start)
    requires dirs.Some? || include_.Some?
    ensures ScopeFor(dirs, include_).StartsAt?
    ensures s in ScopeFor(dirs, include_).starts <==> IsStart(dirs, include_, s)
  {
    hide CoveredBy, Normalized, ValueStarts, BelowStarts, NarrowedAll, IsStartOf;
    match (dirs, include_) {
      case (None, Some(values)) =>
        ValueStartsAre(values, s);
      case (Some(named), None) =>
        BelowStartsAre(named, s);
      case (Some(named), Some(values)) =>
        NarrowedAllStarts(named, 0, values, s);
    }
  }

  lemma ValueStartsAre(values: seq<string>, s: Start)
    ensures s in ValueStarts(values) <==> s.withSelf && s.descend && s.path in values && s.group == 0
  {
    if s.withSelf && s.descend && s.path in values && s.group == 0 {
      var i :| 0 <= i < |values| && values[i] == s.path;
      assert ValueStarts(values)[i] == s;
    }
  }

  lemma BelowStartsAre(dirs: seq<string>, s: Start)
    ensures s in BelowStarts(dirs) <==> s.group < |dirs| && IsStartOf(dirs[s.group], None, s)
  {
    if s.group < |dirs| && IsStartOf(dirs[s.group], None, s) {
      assert BelowStarts(dirs)[s.group] == s;
    }
  }
}
