/** The immutable-reference normaliser of scripts/generate-recovery-v2-artifact.mjs: canonical order
    and disjointness of byte ranges. */
module ImmutableRanges {
  import opened Wrappers
  import opened Numbers
  import opened Sorting

  datatype Position = Position(start: int, length: int) {
    function End(): int { start + length }
  }

  // ---- the comparisons ----

  function ComparePositions(a: Position, b: Position): int {
    if a.start != b.start then a.start - b.start else a.length - b.length
  }

  /** Lexicographic; a common prefix is decided by length. */
  function CompareGroups(a: seq<Position>, b: seq<Position>): int {
    if a == [] || b == [] then |a| - |b|
    else if ComparePositions(a[0], b[0]) != 0 then ComparePositions(a[0], b[0])
    else CompareGroups(a[1..], b[1..])
  }

  /** The comparison as the source computes it, by index. */
  method CompareImmutableGroups(a: seq<Position>, b: seq<Position>) returns (c: int)
    ensures c == CompareGroups(a, b)
  {
    var common := if |a| <= |b| then |a| else |b|;
    for i := 0 to common
      invariant CompareGroups(a, b) == CompareGroups(a[i..], b[i..])
    {
      c := ComparePositions(a[i], b[i]);
      if c != 0 {
        return;
      }
      assert a[i..][1..] == a[i + 1..] && b[i..][1..] == b[i + 1..];
    }
    c := |a| - |b|;
  }

  predicate PositionLeq(a: Position, b: Position) { ComparePositions(a, b) <= 0 }
  predicate GroupLeq(a: seq<Position>, b: seq<Position>) { CompareGroups(a, b) <= 0 }

  lemma PositionsOrdered()
    ensures TotalOrder(PositionLeq)
  {
  }

  lemma {:induction false} GroupsAntisymmetric(a: seq<Position>, b: seq<Position>)
    ensures (CompareGroups(a, b) < 0 <==> CompareGroups(b, a) > 0) && (CompareGroups(a, b) == 0 <==> a == b)
  {
    if a != [] && b != [] {
      GroupsAntisymmetric(a[1..], b[1..]);
      assert a == [a[0]] + a[1..] && b == [b[0]] + b[1..];
    }
  }

  lemma {:induction false} GroupsTransitive(a: seq<Position>, b: seq<Position>, c: seq<Position>)
    requires CompareGroups(a, b) <= 0 && CompareGroups(b, c) <= 0
    ensures CompareGroups(a, c) <= 0
  {
    if a != [] && b != [] && c != [] && ComparePositions(a[0], b[0]) == 0 && ComparePositions(b[0], c[0]) == 0 {
      GroupsTransitive(a[1..], b[1..], c[1..]);
    }
  }

  /** The group comparison is a total order in which only equal groups compare equal. */
  lemma GroupsOrdered()
    ensures TotalOrder(GroupLeq)
  {
    hide CompareGroups;
    forall a, b ensures (GroupLeq(a, b) || GroupLeq(b, a)) && (GroupLeq(a, b) && GroupLeq(b, a) ==> a == b) {
      GroupsAntisymmetric(a, b);
    }
    forall a, b, c | GroupLeq(a, b) && GroupLeq(b, c) ensures GroupLeq(a, c) {
      GroupsTransitive(a, b, c);
    }
  }

  // ---- the normaliser ----

  predicate PositionOk(p: Position, size: int) {
    0 <= p.start <= MAX_SAFE_INTEGER && 0 < p.length <= MAX_SAFE_INTEGER && p.End() <= size
  }

  predicate GroupOk(g: seq<Position>, size: int) {
    g != [] && forall p | p in g :: PositionOk(p, size)
  }

  predicate AllOk(groups: seq<seq<Position>>, size: int) {
    forall i | 0 <= i < |groups| :: GroupOk(groups[i], size)
  }

  function SortEach(groups: seq<seq<Position>>): (r: seq<seq<Position>>)
    ensures |r| == |groups| && forall i | 0 <= i < |r| :: r[i] == Sort(PositionLeq, groups[i])
  {
    seq(|groups|, i requires 0 <= i < |groups| => Sort(PositionLeq, groups[i]))
  }

  /** The canonical form: positions sorted inside each group, then the groups. */
  function Canonical(groups: seq<seq<Position>>): seq<seq<Position>> {
    Sort(GroupLeq, SortEach(groups))
  }

  function Flatten(groups: seq<seq<Position>>): seq<Position> {
    if groups == [] then [] else Flatten(groups[..|groups| - 1]) + groups[|groups| - 1]
  }

  predicate Apart(a: Position, b: Position) { a.End() <= b.start || b.End() <= a.start }

  predicate PairwiseApart(ranges: seq<Position>) {
    forall i, j | 0 <= i < j < |ranges| :: Apart(ranges[i], ranges[j])
  }

  predicate NeighboursApart(ranges: seq<Position>) {
    forall i | 0 < i < |ranges| :: ranges[i - 1].End() <= ranges[i].start
  }

  /** Accepts if and only if every input range is well formed and inside the runtime and no two input
      ranges overlap, in whatever order they came; the result is then the canonical form. */
  method NormalizeImmutableReferences(value: seq<seq<Position>>, runtimeBytes: int)
      returns (groups: Option<seq<seq<Position>>>)
    ensures groups.Some? <==> AllOk(value, runtimeBytes) && PairwiseApart(Flatten(value))
    ensures groups.Some? ==> groups.value == Canonical(value)
  {
    hide AllOk, PairwiseApart, Sort, SortEach, Flatten, TotalOrder;
    if !AllOk(value, runtimeBytes) {
      return None;
    }
    var sorted := Canonical(value);
    var ranges := Sort(PositionLeq, Flatten(sorted));
    RangesFacts(value, runtimeBytes);
    var index := 1;
    while index < |ranges|
      invariant 1 <= index && forall i | 0 < i < index && i < |ranges| :: ranges[i - 1].End() <= ranges[i].start
    {
      var previousEnd := ranges[index - 1].End();
      if ranges[index].start < previousEnd {
        return None;
      }
      index := index + 1;
    }
    groups := Some(sorted);
  }

  // ---- disjointness ----

  /** On sorted ranges of positive length, checking neighbours checks every pair. */
  lemma {:induction false} NeighboursSuffice(ranges: seq<Position>)
    requires Sorted(PositionLeq, ranges) && forall i | 0 <= i < |ranges| :: ranges[i].length > 0
    ensures NeighboursApart(ranges) <==> PairwiseApart(ranges)
  {
    if NeighboursApart(ranges) {
      forall i, j | 0 <= i < j < |ranges| ensures Apart(ranges[i], ranges[j]) {
        assert ranges[i].End() <= ranges[i + 1].start;
        assert i + 1 < j ==> PositionLeq(ranges[i + 1], ranges[j]);
      }
    }
    if PairwiseApart(ranges) {
      forall i | 0 < i < |ranges| ensures ranges[i - 1].End() <= ranges[i].start {
        assert Apart(ranges[i - 1], ranges[i]) && PositionLeq(ranges[i - 1], ranges[i]);
      }
    }
  }

  lemma {:induction false} FindTwo<T>(s: seq<T>, x: T) returns (i: nat, j: nat)
    requires multiset(s)[x] >= 2
    ensures i < j < |s| && s[i] == x && s[j] == x
  {
    var n := |s| - 1;
    assert s == s[..n] + [s[n]];
    if s[n] == x {
      assert x in s[..n];
      i :| 0 <= i < n && s[..n][i] == x;
      j := n;
    } else {
      i, j := FindTwo(s[..n], x);
    }
  }

  lemma TwoOccurrences<T>(s: seq<T>, i: nat, j: nat)
    requires i < j < |s| && s[i] == s[j]
    ensures multiset(s)[s[j]] >= 2
  {
    assert s == s[..j] + [s[j]] + s[j + 1..];
    assert s[..j][i] == s[j];
    assert s[j] in s[..j];
  }

  /** Disjointness does not depend on the order of the ranges. */
  lemma ApartReordered(a: seq<Position>, b: seq<Position>)
    requires multiset(a) == multiset(b) && PairwiseApart(a)
    ensures PairwiseApart(b)
  {
    forall i, j | 0 <= i < j < |b| ensures Apart(b[i], b[j]) {
      if b[i] == b[j] {
        TwoOccurrences(b, i, j);
        var k, l := FindTwo(a, b[j]);
      } else {
        assert b[i] in multiset(a) && b[j] in multiset(a);
        var k :| 0 <= k < |a| && a[k] == b[i];
        var l :| 0 <= l < |a| && a[l] == b[j];
        assert if k < l then Apart(a[k], a[l]) else Apart(a[l], a[k]);
      }
    }
  }

  lemma FlattenAppend(groups: seq<seq<Position>>, g: seq<Position>)
    ensures Flatten(groups + [g]) == Flatten(groups) + g
  {
    assert (groups + [g])[..|groups|] == groups;
  }

  lemma {:induction false} FlattenInsert(groups: seq<seq<Position>>, g: seq<Position>)
    ensures multiset(Flatten(Insert(GroupLeq, groups, g))) == multiset(Flatten(groups)) + multiset(g)
  {
    if groups == [] {
      FlattenAppend([], g);
      assert [] + [g] == [g];
    } else if GroupLeq(groups[|groups| - 1], g) {
      FlattenAppend(groups, g);
    } else {
      var n := |groups| - 1;
      FlattenInsert(groups[..n], g);
      FlattenAppend(Insert(GroupLeq, groups[..n], g), groups[n]);
    }
  }

  lemma {:induction false} FlattenSort(groups: seq<seq<Position>>)
    ensures multiset(Flatten(Sort(GroupLeq, groups))) == multiset(Flatten(groups))
  {
    if groups != [] {
      var n := |groups| - 1;
      FlattenSort(groups[..n]);
      FlattenInsert(Sort(GroupLeq, groups[..n]), groups[n]);
    }
  }

  lemma {:induction false} FlattenSortEach(groups: seq<seq<Position>>)
    ensures multiset(Flatten(SortEach(groups))) == multiset(Flatten(groups))
  {
    if groups != [] {
      var n := |groups| - 1;
      FlattenSortEach(groups[..n]);
      assert SortEach(groups)[..n] == SortEach(groups[..n]);
    }
  }

  lemma {:induction false} FlattenOk(groups: seq<seq<Position>>, size: int)
    requires AllOk(groups, size)
    ensures forall p | p in Flatten(groups) :: PositionOk(p, size)
  {
    if groups != [] {
      FlattenOk(groups[..|groups| - 1], size);
      assert GroupOk(groups[|groups| - 1], size);
    }
  }

  /** The sorted ranges hold the input ranges, so their neighbours decide the input's disjointness. */
  lemma RangesFacts(value: seq<seq<Position>>, size: int)
    requires AllOk(value, size)
    ensures var ranges := Sort(PositionLeq, Flatten(Canonical(value)));
            && multiset(ranges) == multiset(Flatten(value)) && Sorted(PositionLeq, ranges)
            && (forall i | 0 <= i < |ranges| :: PositionOk(ranges[i], size))
            && (NeighboursApart(ranges) <==> PairwiseApart(Flatten(value)))
  {
    hide TotalOrder, PairwiseApart, NeighboursApart;
    var ranges := Sort(PositionLeq, Flatten(Canonical(value)));
    FlattenSortEach(value);
    FlattenSort(SortEach(value));
    PositionsOrdered();
    SortSorted(PositionLeq, Flatten(Canonical(value)));
    FlattenOk(value, size);
    forall i | 0 <= i < |ranges| ensures PositionOk(ranges[i], size) {
      assert ranges[i] in multiset(Flatten(value));
    }
    NeighboursSuffice(ranges);
    if PairwiseApart(ranges) { ApartReordered(ranges, Flatten(value)); }
    if PairwiseApart(Flatten(value)) { ApartReordered(Flatten(value), ranges); }
  }

  // ---- total length ----

  function TotalLength(ranges: seq<Position>): int {
    if ranges == [] then 0 else TotalLength(ranges[..|ranges| - 1]) + ranges[|ranges| - 1].length
  }

  lemma {:induction false} InsertLength(s: seq<Position>, p: Position)
    ensures TotalLength(Insert(PositionLeq, s, p)) == TotalLength(s) + p.length
  {
    if s != [] && !PositionLeq(s[|s| - 1], p) {
      var n := |s| - 1;
      InsertLength(s[..n], p);
      assert (Insert(PositionLeq, s[..n], p) + [s[n]])[..|s|] == Insert(PositionLeq, s[..n], p);
    } else {
      assert (s + [p])[..|s|] == s;
    }
  }

  lemma {:induction false} SortLength(s: seq<Position>)
    ensures TotalLength(Sort(PositionLeq, s)) == TotalLength(s)
  {
    if s != [] {
      SortLength(s[..|s| - 1]);
      InsertLength(Sort(PositionLeq, s[..|s| - 1]), s[|s| - 1]);
    }
  }

  lemma {:induction false} LengthUpToEnd(ranges: seq<Position>)
    requires ranges != [] && NeighboursApart(ranges) && forall i | 0 <= i < |ranges| :: ranges[i].start >= 0
    ensures TotalLength(ranges) <= ranges[|ranges| - 1].End()
  {
    var n := |ranges| - 1;
    if n > 0 {
      LengthUpToEnd(ranges[..n]);
      assert ranges[n - 1].End() <= ranges[n].start;
    }
  }

  /** Accepted ranges cover at most the runtime: their lengths sum to no more than its size. */
  lemma AcceptedLengthsFit(value: seq<seq<Position>>, size: int)
    requires 0 <= size && AllOk(value, size) && PairwiseApart(Flatten(value))
    ensures TotalLength(Flatten(value)) <= size
  {
    hide TotalOrder, PairwiseApart, NeighboursApart;
    var ranges := Sort(PositionLeq, Flatten(Canonical(value)));
    RangesFacts(value, size);
    PositionsOrdered();
    SortCanonical(PositionLeq, Flatten(value), ranges);
    SortLength(Flatten(value));
    SortLength(ranges);
    if ranges != [] {
      assert forall i | 0 <= i < |ranges| :: PositionOk(ranges[i], size);
      LengthUpToEnd(ranges);
    }
  }

  // ---- independence of order ----

  /** The groups as bags: what remains when order inside a group is forgotten. */
  function Bags(groups: seq<seq<Position>>): (r: seq<multiset<Position>>)
    ensures |r| == |groups| && forall i | 0 <= i < |r| :: r[i] == multiset(groups[i])
  {
    seq(|groups|, i requires 0 <= i < |groups| => multiset(groups[i]))
  }

  /** Dropping one group drops its bag and its sorted form. */
  lemma DropGroup(groups: seq<seq<Position>>, k: nat)
    requires k < |groups|
    ensures multiset(Bags(groups)) == multiset(Bags(Drop(groups, k))) + multiset{multiset(groups[k])}
    ensures multiset(SortEach(groups)) == multiset(SortEach(Drop(groups, k))) + multiset{Sort(PositionLeq, groups[k])}
  {
    hide Sort;
    assert Bags(Drop(groups, k)) == Drop(Bags(groups), k);
    assert SortEach(Drop(groups, k)) == Drop(SortEach(groups), k);
    DropBag(Bags(groups), k);
    DropBag(SortEach(groups), k);
  }

  lemma MatchingGroup(a: seq<seq<Position>>, b: seq<seq<Position>>) returns (k: nat)
    requires a != [] && multiset(Bags(a)) == multiset(Bags(b))
    ensures |a| == |b| && k < |b| && multiset(a[|a| - 1]) == multiset(b[k])
  {
    assert |a| == |multiset(Bags(a))| == |multiset(Bags(b))| == |b|;
    assert Bags(a)[|a| - 1] in multiset(Bags(b));
    k :| 0 <= k < |b| && Bags(b)[k] == Bags(a)[|a| - 1];
  }

  lemma {:induction false} SortedBags(a: seq<seq<Position>>, b: seq<seq<Position>>)
    requires multiset(Bags(a)) == multiset(Bags(b))
    ensures multiset(SortEach(a)) == multiset(SortEach(b))
    decreases |a|
  {
    hide TotalOrder, Sort, Bags, SortEach;
    if a != [] {
      var n := |a| - 1;
      var k := MatchingGroup(a, b);
      DropGroup(a, n);
      DropGroup(b, k);
      PositionsOrdered();
      SortCanonical(PositionLeq, a[n], b[k]);
      CancelOne(multiset(Bags(Drop(a, n))), multiset(Bags(Drop(b, k))), multiset(a[n]));
      SortedBags(Drop(a, n), Drop(b, k));
    } else {
      assert |b| == |multiset(Bags(b))| == |multiset(Bags(a))| == 0;
      assert b == a;
    }
  }

  lemma OkReordered(a: seq<seq<Position>>, b: seq<seq<Position>>, size: int)
    requires multiset(Bags(a)) == multiset(Bags(b)) && AllOk(a, size)
    ensures AllOk(b, size)
  {
    forall i | 0 <= i < |b| ensures GroupOk(b[i], size) {
      assert Bags(b)[i] in multiset(Bags(a));
      var k :| 0 <= k < |a| && Bags(a)[k] == Bags(b)[i];
      assert GroupOk(a[k], size);
      assert |a[k]| == |multiset(a[k])| == |multiset(b[i])| == |b[i]|;
      forall p | p in b[i] ensures PositionOk(p, size) {
        assert p in multiset(a[k]);
      }
    }
  }

  /** Acceptance and the normalised result are the same for every reordering of the groups and of the
      positions inside them. */
  lemma OrderDoesNotMatter(a: seq<seq<Position>>, b: seq<seq<Position>>, size: int)
    requires multiset(Bags(a)) == multiset(Bags(b))
    ensures Canonical(a) == Canonical(b)
    ensures AllOk(a, size) && PairwiseApart(Flatten(a)) <==> AllOk(b, size) && PairwiseApart(Flatten(b))
  {
    hide TotalOrder, AllOk, PairwiseApart;
    SortedBags(a, b);
    GroupsOrdered();
    SortCanonical(GroupLeq, SortEach(a), SortEach(b));
    FlattenSortEach(a);
    FlattenSort(SortEach(a));
    FlattenSortEach(b);
    FlattenSort(SortEach(b));
    if AllOk(a, size) { OkReordered(a, b, size); }
    if AllOk(b, size) { OkReordered(b, a, size); }
    if PairwiseApart(Flatten(a)) { ApartReordered(Flatten(a), Flatten(b)); }
    if PairwiseApart(Flatten(b)) { ApartReordered(Flatten(b), Flatten(a)); }
  }
}
