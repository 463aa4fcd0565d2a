/** Annotation spans from the concept extractor's results: flattening them into
    (start, end, tag, content) edits and cleaning those into a sorted, non-overlapping list. */
module ExtractorUtils {
  import opened Wrappers
  import opened Json

  /** An annotation: character offsets, the tag to annotate with, and the matched text. */
  datatype Edit = Edit(start: int, end: int, tag: string, content: string)

  /** One matching of a concept: its text and the (start, end) offsets where it occurs. */
  datatype Matching = Matching(text: string, positions: seq<(int, int)>)

  /** A concept from the extractor: the attributes a tag pattern may refer to (`prefLabel`,
      `uri`, ...) and its matchings; a shadow concept has no `matchings` key. */
  datatype ExtractedConcept = ExtractedConcept(attributes: map<string, Json>, matchings: Option<seq<Matching>>)

  /** Python's `str.format` applied to a tag pattern, a concept's attributes and the offsets. */
  type TagRenderer = (string, ExtractedConcept, int, int) -> string

  const DefaultTag := "{prefLabel}"

  /** The tag pattern in use: the given one, or the concept's preferred label. */
  function TagPattern(tag: Option<string>): string
  {
    if tag.Some? then tag.value else DefaultTag
  }

  /** Without a tag every concept is tagged with its preferred label; a given tag is used as is. */
  lemma TagPatternChoice()
    ensures TagPattern(None) == "{prefLabel}"
    ensures forall t :: TagPattern(Some(t)) == t
  {
  }

  // ---------------------------------------------------------------------------
  // Flattening

  function MakeEdit(pattern: string, render: TagRenderer, c: ExtractedConcept, m: Matching, p: (int, int)): Edit
  {
    Edit(p.0, p.1, render(pattern, c, p.0, p.1), m.text)
  }

  /** The edits of one matching, one per position, in order. */
  function PositionEdits(pattern: string, render: TagRenderer, c: ExtractedConcept, m: Matching): seq<Edit>
  {
    seq(|m.positions|, k requires 0 <= k < |m.positions| => MakeEdit(pattern, render, c, m, m.positions[k]))
  }

  /** The edits of a list of matchings of one concept, in order. */
  function MatchingEdits(pattern: string, render: TagRenderer, c: ExtractedConcept, ms: seq<Matching>): seq<Edit>
  {
    if ms == [] then []
    else MatchingEdits(pattern, render, c, ms[..|ms| - 1]) + PositionEdits(pattern, render, c, ms[|ms| - 1])
  }

  /** The edits of one concept: none for a shadow concept. */
  function ConceptEdits(pattern: string, render: TagRenderer, c: ExtractedConcept): seq<Edit>
  {
    if c.matchings.None? then [] else MatchingEdits(pattern, render, c, c.matchings.value)
  }

  /** The edits of a list of concepts: concept by concept, matching by matching, position by position. */
  function Flatten(pattern: string, render: TagRenderer, cs: seq<ExtractedConcept>): seq<Edit>
  {
    if cs == [] then []
    else Flatten(pattern, render, cs[..|cs| - 1]) + ConceptEdits(pattern, render, cs[|cs| - 1])
  }

  /** Flattening a concatenation flattens each part in turn: the edits follow input order. */
  lemma {:induction false} FlattenAppend(pattern: string, render: TagRenderer, a: seq<ExtractedConcept>, b: seq<ExtractedConcept>)
    ensures Flatten(pattern, render, a + b) == Flatten(pattern, render, a) + Flatten(pattern, render, b)
  {
    if b != [] {
      var n := |b| - 1;
      assert (a + b)[..|a + b| - 1] == a + b[..n];
      assert (a + b)[|a + b| - 1] == b[n];
      FlattenAppend(pattern, render, a, b[..n]);
    } else {
      assert a + b == a;
    }
  }

  /** A shadow concept contributes no edits, wherever it stands. */
  lemma ShadowConceptContributesNothing(pattern: string, render: TagRenderer,
                                        a: seq<ExtractedConcept>, c: ExtractedConcept, b: seq<ExtractedConcept>)
    requires c.matchings.None?
    ensures Flatten(pattern, render, a + [c] + b) == Flatten(pattern, render, a + b)
  {
    FlattenAppend(pattern, render, a + [c], b);
    FlattenAppend(pattern, render, a, b);
    assert (a + [c])[..|a|] == a;
    assert Flatten(pattern, render, a + [c]) == Flatten(pattern, render, a) + ConceptEdits(pattern, render, c);
  }

  /** The number of (concept, matching, position) triples of a list of concepts. */
  function PositionCount(cs: seq<ExtractedConcept>): nat
  {
    if cs == [] then 0
    else PositionCount(cs[..|cs| - 1])
         + (if cs[|cs| - 1].matchings.None? then 0 else MatchingPositionCount(cs[|cs| - 1].matchings.value))
  }

  function MatchingPositionCount(ms: seq<Matching>): nat
  {
    if ms == [] then 0 else MatchingPositionCount(ms[..|ms| - 1]) + |ms[|ms| - 1].positions|
  }

  lemma {:induction false} MatchingEditsCount(pattern: string, render: TagRenderer, c: ExtractedConcept, ms: seq<Matching>)
    ensures |MatchingEdits(pattern, render, c, ms)| == MatchingPositionCount(ms)
  {
    if ms != [] { MatchingEditsCount(pattern, render, c, ms[..|ms| - 1]); }
  }

  /** There are exactly as many edits as (concept, matching, position) triples. */
  lemma {:induction false} FlattenCount(pattern: string, render: TagRenderer, cs: seq<ExtractedConcept>)
    ensures |Flatten(pattern, render, cs)| == PositionCount(cs)
  {
    if cs != [] {
      FlattenCount(pattern, render, cs[..|cs| - 1]);
      var c := cs[|cs| - 1];
      if c.matchings.Some? { MatchingEditsCount(pattern, render, c, c.matchings.value); }
    }
  }

  /** Edit `e` is the one for position `k` of matching `j` of concept `c`. */
  predicate MatchingTriple(pattern: string, render: TagRenderer, c: ExtractedConcept, ms: seq<Matching>, j: int, k: int, e: Edit)
  {
    0 <= j < |ms| && 0 <= k < |ms[j].positions| && e == MakeEdit(pattern, render, c, ms[j], ms[j].positions[k])
  }

  lemma {:induction false} MatchingEditsMembers(pattern: string, render: TagRenderer, c: ExtractedConcept, ms: seq<Matching>, e: Edit)
    ensures e in MatchingEdits(pattern, render, c, ms) <==> exists j, k :: MatchingTriple(pattern, render, c, ms, j, k, e)
  {
    if ms != [] {
      var n := |ms| - 1;
      var init := ms[..n];
      MatchingEditsMembers(pattern, render, c, init, e);
      if e in MatchingEdits(pattern, render, c, init) {
        var j, k :| MatchingTriple(pattern, render, c, init, j, k, e);
        assert MatchingTriple(pattern, render, c, ms, j, k, e);
      } else if e in PositionEdits(pattern, render, c, ms[n]) {
        var k :| 0 <= k < |ms[n].positions| && PositionEdits(pattern, render, c, ms[n])[k] == e;
        assert MatchingTriple(pattern, render, c, ms, n, k, e);
      }
      if exists j, k :: MatchingTriple(pattern, render, c, ms, j, k, e) {
        var j, k :| MatchingTriple(pattern, render, c, ms, j, k, e);
        if j < n {
          assert MatchingTriple(pattern, render, c, init, j, k, e);
        } else {
          assert PositionEdits(pattern, render, c, ms[n])[k] == e;
        }
      }
    }
  }

  /** Edit `e` is the one for position `k` of matching `j` of concept `i` of `cs`. */
  predicate Triple(pattern: string, render: TagRenderer, cs: seq<ExtractedConcept>, i: int, j: int, k: int, e: Edit)
  {
    0 <= i < |cs| && cs[i].matchings.Some? && MatchingTriple(pattern, render, cs[i], cs[i].matchings.value, j, k, e)
  }

  /** The edits are exactly those of the triples: each copies its position's start and end,
      renders the tag from the pattern, and carries the matching's text. */
  lemma {:induction false} FlattenMembers(pattern: string, render: TagRenderer, cs: seq<ExtractedConcept>, e: Edit)
    ensures e in Flatten(pattern, render, cs) <==> exists i, j, k :: Triple(pattern, render, cs, i, j, k, e)
  {
    if cs != [] {
      var n := |cs| - 1;
      var init := cs[..n];
      var c := cs[n];
      FlattenMembers(pattern, render, init, e);
      if c.matchings.Some? { MatchingEditsMembers(pattern, render, c, c.matchings.value, e); }
      if e in Flatten(pattern, render, init) {
        var i, j, k :| Triple(pattern, render, init, i, j, k, e);
        assert Triple(pattern, render, cs, i, j, k, e);
      } else if e in ConceptEdits(pattern, render, c) {
        var j, k :| MatchingTriple(pattern, render, c, c.matchings.value, j, k, e);
        assert Triple(pattern, render, cs, n, j, k, e);
      }
      if exists i, j, k :: Triple(pattern, render, cs, i, j, k, e) {
        var i, j, k :| Triple(pattern, render, cs, i, j, k, e);
        if i < n {
          assert Triple(pattern, render, init, i, j, k, e);
        } else {
          assert MatchingTriple(pattern, render, c, c.matchings.value, j, k, e);
        }
      }
    }
  }

  // ---------------------------------------------------------------------------
  // Removing overlaps: the specification

  predicate StrictlyIncreasingStarts(s: seq<Edit>)
  {
    forall i, j :: 0 <= i < j < |s| ==> s[i].start < s[j].start
  }

  predicate DistinctStarts(s: seq<Edit>)
  {
    forall i, j :: 0 <= i < j < |s| ==> s[i].start != s[j].start
  }

  /** Each kept span starts after the previous one ended. */
  predicate NonOverlapping(s: seq<Edit>)
  {
    forall i :: 0 <= i < |s| - 1 ==> s[i].end < s[i + 1].start
  }

  /** `e` is one of the spans of `m` with the largest end among those starting where it starts. */
  predicate LongestAt(m: set<Edit>, e: Edit)
  {
    e in m && forall x :: x in m && x.start == e.start ==> x.end <= e.end
  }

  /** `reps` holds one longest span of `m` for each start offset of `m`, ordered by start. */
  ghost predicate Representatives(m: set<Edit>, reps: seq<Edit>)
  {
    && StrictlyIncreasingStarts(reps)
    && (forall i {:trigger LongestAt(m, reps[i])} :: 0 <= i < |reps| ==> LongestAt(m, reps[i]))
    && (forall x :: x in m ==> exists i :: 0 <= i < |reps| && reps[i].start == x.start)
  }

  /** The greedy scan at the end of `remove_overlaps`: the spans kept so far and the end of the last one
      (-1 before any). */
  function Scan(s: seq<Edit>): (seq<Edit>, int)
  {
    if s == [] then ([], -1)
    else
      var (kept, offset) := Scan(s[..|s| - 1]);
      var e := s[|s| - 1];
      if e.start <= offset then (kept, offset) else (kept + [e], e.end)
  }

  /** `clean` is what `remove_overlaps` may return for `input`: the greedy scan of some choice of
      longest span per start (which of several equally long spans is kept is left open). */
  ghost predicate CleanedFrom(input: seq<Edit>, clean: seq<Edit>)
  {
    exists reps :: Representatives((set x | x in input), reps) && clean == Scan(reps).0
  }

  /** The scan keeps a subset of its input. */
  lemma {:induction false} ScanSubset(s: seq<Edit>)
    ensures forall x :: x in Scan(s).0 ==> x in s
  {
    if s != [] {
      ScanSubset(s[..|s| - 1]);
      assert forall x :: x in s[..|s| - 1] ==> x in s;
    }
  }

  /** The offset is the end of the last span kept, or -1. */
  lemma {:induction false} ScanOffset(s: seq<Edit>)
    ensures Scan(s).1 == if Scan(s).0 == [] then -1 else Scan(s).0[|Scan(s).0| - 1].end
  {
    if s != [] { ScanOffset(s[..|s| - 1]); }
  }

  /** Scanning spans in strictly increasing start order keeps them in that order and each kept
      span starts after the previous kept one ended. */
  lemma {:induction false} ScanOrdered(s: seq<Edit>)
    requires StrictlyIncreasingStarts(s)
    ensures StrictlyIncreasingStarts(Scan(s).0) && NonOverlapping(Scan(s).0)
  {
    if s != [] {
      var n := |s| - 1;
      var init := s[..n];
      ScanOrdered(init);
      ScanSubset(init);
      ScanOffset(init);
      var kept0 := Scan(init).0;
      forall x | x in kept0 ensures x.start < s[n].start {
        var j :| 0 <= j < n && init[j] == x;
      }
      if s[n].start > Scan(init).1 {
        var kept := kept0 + [s[n]];
        assert Scan(s).0 == kept;
        forall i, j | 0 <= i < j < |kept| ensures kept[i].start < kept[j].start {
          if j == |kept0| { assert kept[i] in kept0; }
        }
      }
    }
  }

  /** `x` starts inside one of the spans of `kept`, after its start. */
  ghost predicate StartsInside(kept: seq<Edit>, x: Edit)
  {
    exists i :: 0 <= i < |kept| && kept[i].start < x.start <= kept[i].end
  }

  /** The last span, when dropped and starting at 0 or later, starts inside the last span kept. */
  lemma LastDroppedInside(s: seq<Edit>)
    requires s != [] && StrictlyIncreasingStarts(s)
    requires s[|s| - 1] !in Scan(s).0 && s[|s| - 1].start >= 0
    ensures StartsInside(Scan(s).0, s[|s| - 1])
  {
    var n := |s| - 1;
    var init := s[..n];
    var e := s[n];
    ScanSubset(init);
    ScanOffset(init);
    var kept := Scan(s).0;
    assert e.start <= Scan(init).1;
    assert kept == Scan(init).0 && kept != [];
    var i := |kept| - 1;
    assert kept[i] in init;
    var j :| 0 <= j < n && init[j] == kept[i];
    assert kept[i].start < e.start <= kept[i].end;
  }

  /** Every span the scan drops starts inside a span kept before it, or before offset 0. */
  lemma {:induction false} ScanDropped(s: seq<Edit>)
    requires StrictlyIncreasingStarts(s)
    ensures forall x :: x in s && x !in Scan(s).0 ==> x.start < 0 || StartsInside(Scan(s).0, x)
  {
    if s != [] {
      var n := |s| - 1;
      var init := s[..n];
      var e := s[n];
      assert StrictlyIncreasingStarts(init);
      ScanDropped(init);
      var kept0 := Scan(init).0;
      var kept := Scan(s).0;
      assert kept0 <= kept;
      assert s == init + [e];
      forall x | x in s && x !in kept && x.start >= 0 ensures StartsInside(kept, x) {
        if x == e {
          LastDroppedInside(s);
        } else {
          assert x in init && x !in kept0;
          var i :| 0 <= i < |kept0| && kept0[i].start < x.start <= kept0[i].end;
          assert kept[i] == kept0[i];
        }
      }
    }
  }

  /** A first span that starts at 0 or later is kept first. */
  lemma {:induction false} ScanFirst(s: seq<Edit>)
    requires |s| > 0 && s[0].start >= 0
    ensures |Scan(s).0| > 0 && Scan(s).0[0] == s[0]
  {
    if |s| > 1 {
      var init := s[..|s| - 1];
      assert init[0] == s[0];
      ScanFirst(init);
    } else {
      assert s[..0] == [];
    }
  }

  /** What `remove_overlaps` promises: a duplicate-free subset of its input, strictly ordered by
      start, each span starting after the previous one ended, each the longest of those sharing
      its start; and when the input is non-empty with no negative start, the first span kept
      starts where the earliest input span starts. */
  lemma CleanedProperties(input: seq<Edit>, clean: seq<Edit>)
    requires CleanedFrom(input, clean)
    ensures forall x :: x in clean ==> x in input
    ensures StrictlyIncreasingStarts(clean)
    ensures forall i, j :: 0 <= i < j < |clean| ==> clean[i] != clean[j]
    ensures NonOverlapping(clean)
    ensures forall x, y :: x in clean && y in input && y.start == x.start ==> y.end <= x.end
    ensures |input| > 0 && (forall y :: y in input ==> y.start >= 0) ==>
      |clean| > 0 && forall y :: y in input ==> clean[0].start <= y.start
  {
    var m := set x | x in input;
    var reps: seq<Edit> :| Representatives(m, reps) && clean == Scan(reps).0;
    ScanSubset(reps);
    ScanOrdered(reps);
    forall x | x in clean ensures x in input && LongestAt(m, x) {
      var i :| 0 <= i < |reps| && reps[i] == x;
      assert LongestAt(m, reps[i]);
    }
    if |input| > 0 && (forall y :: y in input ==> y.start >= 0) {
      FirstSurvivor(input, m, reps);
    }
  }

  lemma FirstSurvivor(input: seq<Edit>, m: set<Edit>, reps: seq<Edit>)
    requires m == set x | x in input
    requires Representatives(m, reps)
    requires |input| > 0 && forall y :: y in input ==> y.start >= 0
    ensures |Scan(reps).0| > 0 && forall y :: y in input ==> Scan(reps).0[0].start <= y.start
  {
    assert input[0] in m;
    var i0 :| 0 <= i0 < |reps| && reps[i0].start == input[0].start;
    assert LongestAt(m, reps[0]);
    ScanFirst(reps);
    forall y | y in input ensures reps[0].start <= y.start {
      assert y in m;
      var i :| 0 <= i < |reps| && reps[i].start == y.start;
    }
  }

  /** Every input span is accounted for: its start is the start of a kept span, or lies inside
      a kept span, or is negative. */
  lemma CleanedCoversInput(input: seq<Edit>, clean: seq<Edit>)
    requires CleanedFrom(input, clean)
    ensures forall y :: y in input ==>
      y.start < 0 || (exists i :: 0 <= i < |clean| && clean[i].start == y.start) || StartsInside(clean, y)
  {
    var m := set x | x in input;
    var reps: seq<Edit> :| Representatives(m, reps) && clean == Scan(reps).0;
    ScanDropped(reps);
    forall y | y in input && y.start >= 0 && !StartsInside(clean, y)
      ensures exists i :: 0 <= i < |clean| && clean[i].start == y.start
    {
      assert y in m;
      var j :| 0 <= j < |reps| && reps[j].start == y.start;
      assert reps[j] in reps;
      assert reps[j] in clean;
      var i :| 0 <= i < |clean| && clean[i] == reps[j];
    }
  }

  // ---------------------------------------------------------------------------
  // Removing overlaps: the steps of the source

  /** `sorted(members, key=end)[-1]`: the last of the spans with the largest end. */
  function LastLongest(ms: seq<Edit>): (r: Edit)
    requires |ms| > 0
    ensures r in ms && forall x :: x in ms ==> x.end <= r.end
  {
    if |ms| == 1 then ms[0]
    else
      var best := LastLongest(ms[..|ms| - 1]);
      assert forall x :: x in ms ==> x in ms[..|ms| - 1] || x == ms[|ms| - 1];
      if ms[|ms| - 1].end >= best.end then ms[|ms| - 1] else best
  }

  /** The grouping step of `remove_overlaps`: the distinct spans grouped by start offset. */
  method GroupByStart(matches: seq<Edit>) returns (groups: map<int, seq<Edit>>)
    ensures forall s :: s in groups ==> |groups[s]| > 0
    ensures forall s, x :: s in groups ==> (x in groups[s] <==> x in matches && x.start == s)
    ensures forall x :: x in matches ==> x.start in groups
  {
    var pending := set x | x in matches;
    groups := map[];
    while pending != {}
      invariant forall x :: x in pending ==> x in matches
      invariant forall s :: s in groups ==> |groups[s]| > 0
      invariant forall s, x :: s in groups ==> (x in groups[s] <==> x in matches && x !in pending && x.start == s)
      invariant forall x :: x in matches && x !in pending ==> x.start in groups
      decreases pending
    {
      var e :| e in pending;
      var members := if e.start in groups then groups[e.start] else [];
      groups := groups[e.start := members + [e]];
      pending := pending - {e};
    }
  }

  /** The trimming step of `remove_overlaps`: each group of several spans is cut down to its last longest span. */
  method KeepLongest(groups: map<int, seq<Edit>>) returns (trimmed: map<int, seq<Edit>>)
    requires forall s :: s in groups ==> |groups[s]| > 0
    ensures trimmed.Keys == groups.Keys
    ensures forall s :: s in groups ==> trimmed[s] == if |groups[s]| > 1 then [LastLongest(groups[s])] else groups[s]
  {
    trimmed := groups;
    var todo := groups.Keys;
    while todo != {}
      invariant todo <= groups.Keys && trimmed.Keys == groups.Keys
      invariant forall s :: s in todo ==> trimmed[s] == groups[s]
      invariant forall s :: s in groups && s !in todo ==>
        trimmed[s] == if |groups[s]| > 1 then [LastLongest(groups[s])] else groups[s]
      decreases todo
    {
      HasMember(todo);
      var k :| k in todo;
      if |trimmed[k]| > 1 {
        trimmed := trimmed[k := [LastLongest(trimmed[k])]];
      }
      todo := todo - {k};
    }
  }

  /** A non-empty set of offsets has a member to pick. */
  lemma HasMember(s: set<int>)
    requires s != {}
    ensures exists k :: k in s
  {
    if forall k :: k !in s {
      assert false;
    }
  }

  /** `v[0] for v in groups.values()`, in whatever order the keys come. */
  method FirstOfEach(groups: map<int, seq<Edit>>) returns (firsts: seq<Edit>)
    requires forall s :: s in groups ==> |groups[s]| > 0 && groups[s][0].start == s
    ensures DistinctStarts(firsts)
    ensures forall i :: 0 <= i < |firsts| ==> firsts[i].start in groups && firsts[i] == groups[firsts[i].start][0]
    ensures forall s :: s in groups ==> exists i :: 0 <= i < |firsts| && firsts[i].start == s
  {
    firsts := [];
    var todo := groups.Keys;
    while todo != {}
      invariant forall s :: s in todo ==> s in groups
      invariant DistinctStarts(firsts)
      invariant forall i :: 0 <= i < |firsts| ==> firsts[i].start in groups && firsts[i].start !in todo && firsts[i] == groups[firsts[i].start][0]
      invariant forall s :: s in groups && s !in todo ==> exists i :: 0 <= i < |firsts| && firsts[i].start == s
      decreases todo
    {
      HasMember(todo);
      var k :| k in todo;
      ghost var prev := firsts;
      firsts := firsts + [groups[k][0]];
      todo := todo - {k};
      forall s | s in groups && s !in todo ensures exists i :: 0 <= i < |firsts| && firsts[i].start == s {
        if s == k {
          assert firsts[|prev|].start == s;
        } else {
          var i :| 0 <= i < |prev| && prev[i].start == s;
          assert firsts[i].start == s;
        }
      }
    }
  }

  /** Puts `e` before the first span that does not start before it. */
  function InsertByStart(e: Edit, s: seq<Edit>): seq<Edit>
  {
    if s == [] then [e]
    else if e.start <= s[0].start then [e] + s
    else [s[0]] + InsertByStart(e, s[1..])
  }

  /** Inserting adds exactly the one span. */
  lemma {:induction false} InsertByStartPermutes(e: Edit, s: seq<Edit>)
    ensures multiset(InsertByStart(e, s)) == multiset(s) + multiset{e}
  {
    if s != [] && e.start > s[0].start {
      InsertByStartPermutes(e, s[1..]);
      assert s == [s[0]] + s[1..];
    }
  }

  /** The spans after inserting are the inserted one and the ones before. */
  lemma {:induction false} InsertByStartMembers(e: Edit, s: seq<Edit>)
    ensures forall x :: x in InsertByStart(e, s) <==> x == e || x in s
  {
    if s != [] && e.start > s[0].start {
      InsertByStartMembers(e, s[1..]);
      assert s == [s[0]] + s[1..];
    }
  }

  lemma {:induction false} InsertByStartOrdered(e: Edit, s: seq<Edit>)
    requires StrictlyIncreasingStarts(s)
    requires forall x :: x in s ==> x.start != e.start
    ensures StrictlyIncreasingStarts(InsertByStart(e, s))
  {
    if s != [] && e.start > s[0].start {
      var rest := InsertByStart(e, s[1..]);
      assert forall x :: x in s[1..] ==> x in s;
      InsertByStartOrdered(e, s[1..]);
      InsertByStartMembers(e, s[1..]);
      forall j | 0 <= j < |rest| ensures s[0].start < rest[j].start {
        assert rest[j] in rest;
        if rest[j] != e {
          var k :| 0 <= k < |s[1..]| && s[1..][k] == rest[j];
          assert s[k + 1] == rest[j];
        }
      }
    }
  }

  /** The `sorted` step of `remove_overlaps`: the spans sorted by start. Python orders the tuples
      lexicographically, which for distinct starts is the order of the starts. */
  function SortByStart(s: seq<Edit>): (r: seq<Edit>)
    ensures multiset(r) == multiset(s)
  {
    if s == [] then []
    else
      assert s == [s[0]] + s[1..];
      InsertByStartPermutes(s[0], SortByStart(s[1..]));
      InsertByStart(s[0], SortByStart(s[1..]))
  }

  /** Spans with distinct starts come out strictly ordered by start. */
  lemma {:induction false} SortByStartOrdered(s: seq<Edit>)
    requires DistinctStarts(s)
    ensures StrictlyIncreasingStarts(SortByStart(s))
  {
    if s != [] {
      var sortedRest := SortByStart(s[1..]);
      SortByStartOrdered(s[1..]);
      forall x | x in sortedRest ensures x.start != s[0].start {
        assert x in multiset(s[1..]);
        var k :| 0 <= k < |s[1..]| && s[1..][k] == x;
        assert s[k + 1] == x;
      }
      InsertByStartOrdered(s[0], sortedRest);
    }
  }

  /** The greedy loop of `remove_overlaps`, which drops every span starting at or before the end of the
      last span kept. */
  method DropOverlapping(spans: seq<Edit>) returns (clean: seq<Edit>)
    ensures clean == Scan(spans).0
  {
    var offset := -1;
    clean := [];
    var i := 0;
    while i < |spans|
      invariant 0 <= i <= |spans|
      invariant (clean, offset) == Scan(spans[..i])
    {
      var e := spans[i];
      assert spans[..i + 1][..i] == spans[..i];
      if e.start > offset {
        clean := clean + [e];
        offset := e.end;
      }
      i := i + 1;
    }
    assert spans[..i] == spans;
  }

  /** After grouping and trimming, the first span of each group is a longest span at its start. */
  lemma TrimmedLongest(matches: seq<Edit>, groups: map<int, seq<Edit>>, trimmed: map<int, seq<Edit>>)
    requires forall s :: s in groups ==> |groups[s]| > 0
    requires forall s, x :: s in groups ==> (x in groups[s] <==> x in matches && x.start == s)
    requires trimmed.Keys == groups.Keys
    requires forall s :: s in groups ==> trimmed[s] == if |groups[s]| > 1 then [LastLongest(groups[s])] else groups[s]
    ensures forall s :: s in trimmed ==>
      |trimmed[s]| > 0 && trimmed[s][0].start == s && LongestAt((set x | x in matches), trimmed[s][0])
  {
  }

  /** Picking the first span of each trimmed group gives one longest span per start. */
  lemma FirstsRepresent(m: set<Edit>, trimmed: map<int, seq<Edit>>, firsts: seq<Edit>)
    requires forall s :: s in trimmed ==> |trimmed[s]| > 0 && LongestAt(m, trimmed[s][0])
    requires forall x :: x in m ==> x.start in trimmed
    requires forall i :: 0 <= i < |firsts| ==> firsts[i].start in trimmed && firsts[i] == trimmed[firsts[i].start][0]
    requires forall s :: s in trimmed ==> exists i :: 0 <= i < |firsts| && firsts[i].start == s
    ensures forall i {:trigger LongestAt(m, firsts[i])} :: 0 <= i < |firsts| ==> LongestAt(m, firsts[i])
    ensures forall x :: x in m ==> exists i :: 0 <= i < |firsts| && firsts[i].start == x.start
  {
  }

  /** Sorting keeps exactly the spans it was given. */
  lemma SortByStartMembers(s: seq<Edit>)
    ensures forall x :: x in SortByStart(s) <==> x in s
  {
    var r := SortByStart(s);
    forall x ensures x in r <==> x in s {
      assert x in r <==> x in multiset(r);
      assert x in s <==> x in multiset(s);
    }
  }

  /** Sorting keeps every span a longest one of its start. */
  lemma SortedLongest(m: set<Edit>, firsts: seq<Edit>)
    requires forall i {:trigger LongestAt(m, firsts[i])} :: 0 <= i < |firsts| ==> LongestAt(m, firsts[i])
    ensures forall i {:trigger LongestAt(m, SortByStart(firsts)[i])} ::
      0 <= i < |SortByStart(firsts)| ==> LongestAt(m, SortByStart(firsts)[i])
  {
    var reps := SortByStart(firsts);
    SortByStartMembers(firsts);
    forall i | 0 <= i < |reps| ensures LongestAt(m, reps[i]) {
      assert reps[i] in firsts;
      var j :| 0 <= j < |firsts| && firsts[j] == reps[i];
      assert LongestAt(m, firsts[j]);
    }
  }

  /** Sorting keeps one span for every start of `m`. */
  lemma SortedCovers(m: set<Edit>, firsts: seq<Edit>)
    requires forall x :: x in m ==> exists i :: 0 <= i < |firsts| && firsts[i].start == x.start
    ensures forall x :: x in m ==> exists i :: 0 <= i < |SortByStart(firsts)| && SortByStart(firsts)[i].start == x.start
  {
    var reps := SortByStart(firsts);
    SortByStartMembers(firsts);
    forall x | x in m ensures exists i :: 0 <= i < |reps| && reps[i].start == x.start {
      var j :| 0 <= j < |firsts| && firsts[j].start == x.start;
      assert firsts[j] in reps;
      var k :| 0 <= k < |reps| && reps[k] == firsts[j];
      assert reps[k].start == x.start;
    }
    assert reps == SortByStart(firsts);
  }

  /** Sorting one longest span per start gives the representatives of the spans. */
  lemma SortedRepresentatives(m: set<Edit>, firsts: seq<Edit>)
    requires DistinctStarts(firsts)
    requires forall i {:trigger LongestAt(m, firsts[i])} :: 0 <= i < |firsts| ==> LongestAt(m, firsts[i])
    requires forall x :: x in m ==> exists i :: 0 <= i < |firsts| && firsts[i].start == x.start
    ensures Representatives(m, SortByStart(firsts))
  {
    SortByStartOrdered(firsts);
    SortedLongest(m, firsts);
    SortedCovers(m, firsts);
  }

  /** `remove_overlaps`: a subset of the spans that is unique, ordered and non-overlapping. */
  method RemoveOverlaps(matches: seq<Edit>) returns (clean: seq<Edit>)
    ensures CleanedFrom(matches, clean)
    ensures forall x :: x in clean ==> x in matches
    ensures StrictlyIncreasingStarts(clean) && NonOverlapping(clean)
    ensures forall x, y :: x in clean && y in matches && y.start == x.start ==> y.end <= x.end
  {
    var groups: map<int, seq<Edit>> := GroupByStart(matches);
    var trimmed: map<int, seq<Edit>> := KeepLongest(groups);
    TrimmedLongest(matches, groups, trimmed);
    var firsts := FirstOfEach(trimmed);
    var reps := SortByStart(firsts);
    FirstsRepresent((set x | x in matches), trimmed, firsts);
    SortedRepresentatives((set x | x in matches), firsts);
    clean := DropOverlapping(reps);
    CleanedProperties(matches, clean);
  }

  /** The innermost loop of `ppextract2matches`, over a matching's positions: one edit per position of a matching, appended in order. */
  method AppendPositions(edits: seq<Edit>, p: string, render: TagRenderer, c: ExtractedConcept, m: Matching)
    returns (out: seq<Edit>)
    ensures out == edits + PositionEdits(p, render, c, m)
  {
    ghost var row := PositionEdits(p, render, c, m);
    out := edits;
    var k := 0;
    while k < |m.positions|
      invariant 0 <= k <= |m.positions|
      invariant out == edits + row[..k]
    {
      var (start, end) := m.positions[k];
      assert row[..k + 1] == row[..k] + [Edit(start, end, render(p, c, start, end), m.text)];
      out := out + [Edit(start, end, render(p, c, start, end), m.text)];
      k := k + 1;
    }
    assert row[..k] == row;
  }

  /** The loop of `ppextract2matches` over one concept's matchings: its edits, appended matching by
      matching; nothing for a shadow concept. */
  method AppendConcept(edits: seq<Edit>, p: string, render: TagRenderer, c: ExtractedConcept)
    returns (out: seq<Edit>)
    ensures out == edits + ConceptEdits(p, render, c)
  {
    out := edits;
    if c.matchings.Some? {
      var ms := c.matchings.value;
      var j := 0;
      while j < |ms|
        invariant 0 <= j <= |ms|
        invariant out == edits + MatchingEdits(p, render, c, ms[..j])
      {
        assert ms[..j + 1][..j] == ms[..j];
        out := AppendPositions(out, p, render, c, ms[j]);
        j := j + 1;
      }
      assert ms[..j] == ms;
    }
  }

  /** `ppextract2matches`: the edits of the extractor's concepts, in input order, or with
      `overlaps` off the result of `remove_overlaps` on them. */
  method PpExtractToMatches(matches: seq<ExtractedConcept>, tag: Option<string> := None, overlaps: bool := true,
                            nameonly render: TagRenderer)
    returns (edits: seq<Edit>)
    ensures overlaps ==> edits == Flatten(TagPattern(tag), render, matches)
    ensures !overlaps ==> CleanedFrom(Flatten(TagPattern(tag), render, matches), edits)
  {
    var pattern := tag;
    if pattern.None? {
      pattern := Some(DefaultTag);
    }
    var p := pattern.value;
    assert p == TagPattern(tag);
    edits := [];
    var i := 0;
    while i < |matches|
      invariant 0 <= i <= |matches|
      invariant edits == Flatten(p, render, matches[..i])
    {
      assert matches[..i + 1][..i] == matches[..i];
      edits := AppendConcept(edits, p, render, matches[i]);
      i := i + 1;
    }
    assert matches[..i] == matches;
    if !overlaps {
      edits := RemoveOverlaps(edits);
    }
  }
}
