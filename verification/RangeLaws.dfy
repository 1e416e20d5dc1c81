/** The immutable-reference normaliser in terms of bytes and bags: what is accepted, and that its result is the
    input's own groups in the one order. */
module RangeLaws {
  import opened Wrappers
  import opened Numbers
  import opened Sorting
  import opened ImmutableRanges

  // ---- what is accepted ----

  /** Position i of group g covers this byte. */
  ghost predicate CoversAt(groups: seq<seq<Position>>, g: nat, i: nat, byte: int) {
    && g < |groups| && i < |groups[g]|
    && groups[g][i].start <= byte < groups[g][i].start + groups[g][i].length
  }

  /** No byte belongs to two positions, in one group or in two. */
  ghost predicate NoSharedByte(groups: seq<seq<Position>>) {
    forall byte, g, i, h, j | CoversAt(groups, g, i, byte) && CoversAt(groups, h, j, byte) :: g == h && i == j
  }

  /** Every group has a position, and every position at least one byte, all of them in the runtime. */
  ghost predicate InRuntime(groups: seq<seq<Position>>, size: int) {
    forall g | 0 <= g < |groups| ::
      |groups[g]| > 0
      && forall i | 0 <= i < |groups[g]| ::
           var p := groups[g][i];
           0 <= p.start <= MAX_SAFE_INTEGER && 0 < p.length <= MAX_SAFE_INTEGER && p.start + p.length <= size
  }

  lemma InRuntimeIs(groups: seq<seq<Position>>, size: int)
    ensures AllOk(groups, size) <==> InRuntime(groups, size)
  {
    if AllOk(groups, size) {
      forall g, i | 0 <= g < |groups| && 0 <= i < |groups[g]| ensures PositionOk(groups[g][i], size) {
        assert GroupOk(groups[g], size) && groups[g][i] in groups[g];
      }
    }
  }

  /** Two positions of at least one byte each that are not apart share a byte. */
  lemma SharedByte(a: Position, b: Position) returns (byte: int)
    requires 0 < a.length && 0 < b.length && !Apart(a, b)
    ensures a.start <= byte < a.End() && b.start <= byte < b.End()
  {
    byte := if a.start <= b.start then b.start else a.start;
  }

  lemma SharedAt(groups: seq<seq<Position>>, g: nat, i: nat, h: nat, j: nat)
    requires g < |groups| && i < |groups[g]| && h < |groups| && j < |groups[h]| && (g != h || i != j)
    requires 0 < groups[g][i].length && 0 < groups[h][j].length && !Apart(groups[g][i], groups[h][j])
    ensures !NoSharedByte(groups)
  {
    var byte := SharedByte(groups[g][i], groups[h][j]);
    assert CoversAt(groups, g, i, byte) && CoversAt(groups, h, j, byte);
  }

  /** Where position i of group g stands among all positions. */
  ghost function Place(groups: seq<seq<Position>>, g: nat, i: nat): nat
    requires g < |groups| && i < |groups[g]|
  {
    |Flatten(groups[..g])| + i
  }

  lemma {:induction false} FlattenSplit(groups: seq<seq<Position>>, g: nat)
    requires g <= |groups|
    ensures Flatten(groups[..g]) <= Flatten(groups)
    ensures g < |groups| ==> Flatten(groups[..g]) + groups[g] <= Flatten(groups)
    decreases |groups| - g
  {
    if g < |groups| {
      FlattenSplit(groups, g + 1);
      assert groups[..g + 1][..g] == groups[..g];
    } else {
      assert groups[..g] == groups;
    }
  }

  lemma PlaceIs(groups: seq<seq<Position>>, g: nat, i: nat)
    requires g < |groups| && i < |groups[g]|
    ensures Place(groups, g, i) < |Flatten(groups)| && Flatten(groups)[Place(groups, g, i)] == groups[g][i]
  {
    FlattenSplit(groups, g);
    assert (Flatten(groups[..g]) + groups[g])[Place(groups, g, i)] == groups[g][i];
  }

  lemma PlacesDiffer(groups: seq<seq<Position>>, g: nat, i: nat, h: nat, j: nat)
    requires g < h < |groups| && i < |groups[g]| && j < |groups[h]|
    ensures Place(groups, g, i) < Place(groups, h, j)
  {
    FlattenSplit(groups[..h], g);
    assert groups[..h][..g] == groups[..g] && groups[..h][g] == groups[g];
  }

  lemma {:induction false} PlaceOf(groups: seq<seq<Position>>, k: nat) returns (g: nat, i: nat)
    requires k < |Flatten(groups)|
    ensures g < |groups| && i < |groups[g]| && Place(groups, g, i) == k
  {
    var n := |groups| - 1;
    var before := Flatten(groups[..n]);
    if k < |before| {
      g, i := PlaceOf(groups[..n], k);
      assert groups[..n][..g] == groups[..g];
    } else {
      g, i := n, k - |before|;
    }
  }

  /** Being pairwise apart means that no byte is shared. */
  lemma DisjointIff(groups: seq<seq<Position>>, size: int)
    requires InRuntime(groups, size)
    ensures PairwiseApart(Flatten(groups)) <==> NoSharedByte(groups)
  {
    hide Place, Flatten;
    if PairwiseApart(Flatten(groups)) {
      forall byte, g: nat, i: nat, h: nat, j: nat | CoversAt(groups, g, i, byte) && CoversAt(groups, h, j, byte)
        ensures g == h && i == j
      {
        ApartPlaces(groups, g, i, h, j);
      }
    }
    if NoSharedByte(groups) {
      forall k, l | 0 <= k < l < |Flatten(groups)| ensures Apart(Flatten(groups)[k], Flatten(groups)[l]) {
        var g, i := PlaceOf(groups, k);
        var h, j := PlaceOf(groups, l);
        PlaceIs(groups, g, i);
        PlaceIs(groups, h, j);
        if !Apart(groups[g][i], groups[h][j]) { SharedAt(groups, g, i, h, j); }
      }
    }
  }

  lemma ApartPlaces(groups: seq<seq<Position>>, g: nat, i: nat, h: nat, j: nat)
    requires PairwiseApart(Flatten(groups))
    requires g < |groups| && i < |groups[g]| && h < |groups| && j < |groups[h]|
    ensures (g == h && i == j) || Apart(groups[g][i], groups[h][j])
  {
    PlaceIs(groups, g, i);
    PlaceIs(groups, h, j);
    if g < h { PlacesDiffer(groups, g, i, h, j); }
    if h < g { PlacesDiffer(groups, h, j, g, i); }
  }

  /** The normaliser's condition, in bytes. */
  lemma AcceptedIff(value: seq<seq<Position>>, runtimeBytes: int)
    ensures AllOk(value, runtimeBytes) && PairwiseApart(Flatten(value)) <==>
              InRuntime(value, runtimeBytes) && NoSharedByte(value)
  {
    hide AllOk, PairwiseApart, InRuntime, NoSharedByte, Flatten;
    InRuntimeIs(value, runtimeBytes);
    if InRuntime(value, runtimeBytes) { DisjointIff(value, runtimeBytes); }
  }

  // ---- the result ----

  ghost predicate PositionBefore(a: Position, b: Position) {
    a.start < b.start || (a.start == b.start && a.length < b.length)
  }

  /** The first difference decides, and a proper prefix comes first. */
  ghost predicate GroupBefore(a: seq<Position>, b: seq<Position>) {
    exists k: nat :: FirstDifference(a, b, k) && (k < |a| ==> PositionBefore(a[k], b[k]))
  }

  ghost predicate FirstDifference(a: seq<Position>, b: seq<Position>, k: nat) {
    k < |b| && k <= |a| && a[..k] == b[..k] && (k < |a| ==> a[k] != b[k])
  }

  lemma {:induction false} GroupOrderIs(a: seq<Position>, b: seq<Position>)
    ensures CompareGroups(a, b) < 0 <==> GroupBefore(a, b)
  {
    if a != [] && b != [] && a[0] == b[0] {
      GroupOrderIs(a[1..], b[1..]);
      if GroupBefore(a[1..], b[1..]) {
        var k: nat :| FirstDifference(a[1..], b[1..], k) && (k < |a| - 1 ==> PositionBefore(a[1..][k], b[1..][k]));
        assert a[..k + 1] == [a[0]] + a[1..][..k] && b[..k + 1] == [b[0]] + b[1..][..k];
        assert FirstDifference(a, b, k + 1);
      }
      if GroupBefore(a, b) {
        var k: nat :| FirstDifference(a, b, k) && (k < |a| ==> PositionBefore(a[k], b[k]));
        assert a[1..][..k - 1] == a[..k][1..] && b[1..][..k - 1] == b[..k][1..];
        assert FirstDifference(a[1..], b[1..], k - 1);
      }
    } else {
      if a == [] && b != [] { assert FirstDifference(a, b, 0); }
      if a != [] && b != [] {
        assert FirstDifference(a, b, 0);
        forall k: nat | 0 < k ensures !FirstDifference(a, b, k) {
          if k <= |a| && k <= |b| { assert a[..k][0] == a[0] && b[..k][0] == b[0]; }
        }
      }
    }
  }

  /** The groups as bags of positions. */
  ghost function GroupBags(groups: seq<seq<Position>>): (r: seq<multiset<Position>>)
    ensures |r| == |groups| && forall i | 0 <= i < |r| :: r[i] == multiset(groups[i])
  {
    seq(|groups|, i requires 0 <= i < |groups| => multiset(groups[i]))
  }

  lemma BagsOfDrop(groups: seq<seq<Position>>, k: nat)
    requires k < |groups|
    ensures GroupBags(Drop(groups, k)) == Drop(GroupBags(groups), k)
  {
  }

  lemma {:induction false} BagsOfEqual(a: seq<seq<Position>>, b: seq<seq<Position>>)
    requires multiset(a) == multiset(b)
    ensures multiset(GroupBags(a)) == multiset(GroupBags(b))
    decreases |a|
  {
    if a != [] {
      hide Drop;
      var n := |a| - 1;
      assert a == a[..n] + [a[n]];
      assert a[n] in multiset(b);
      var k: nat :| k < |b| && b[k] == a[n];
      DropBag(b, k);
      CancelOne(multiset(a[..n]), multiset(Drop(b, k)), a[n]);
      BagsOfEqual(a[..n], Drop(b, k));
      assert GroupBags(a) == GroupBags(a[..n]) + [multiset(a[n])];
      BagsOfDrop(b, k);
      DropBag(GroupBags(b), k);
    } else {
      assert |b| == |multiset(b)| == |multiset(a)| == 0;
      assert b == a;
    }
  }

  /** The result holds the input's groups, each with its own positions in order of start and then length, and the
      groups themselves in lexicographic order. */
  lemma CanonicalIs(groups: seq<seq<Position>>)
    ensures var r := Canonical(groups);
            && multiset(GroupBags(r)) == multiset(GroupBags(groups))
            && (forall g, i, j | 0 <= g < |r| && 0 <= i < j < |r[g]| ::
                  r[g][i] == r[g][j] || PositionBefore(r[g][i], r[g][j]))
            && (forall g, h | 0 <= g < h < |r| :: r[g] == r[h] || GroupBefore(r[g], r[h]))
  {
    hide Sort, CompareGroups, TotalOrder, GroupBefore;
    var each := SortEach(groups);
    var r := Canonical(groups);
    PositionsOrdered();
    GroupsOrdered();
    SortSorted(GroupLeq, each);
    assert GroupBags(each) == GroupBags(groups);
    BagsOfEqual(r, each);
    forall g, i, j | 0 <= g < |r| && 0 <= i < j < |r[g]|
      ensures r[g][i] == r[g][j] || PositionBefore(r[g][i], r[g][j])
    {
      assert r[g] in multiset(each);
      var k :| 0 <= k < |each| && each[k] == r[g];
      SortSorted(PositionLeq, groups[k]);
      assert PositionLeq(r[g][i], r[g][j]);
    }
    forall g, h | 0 <= g < h < |r| ensures r[g] == r[h] || GroupBefore(r[g], r[h]) {
      assert GroupLeq(r[g], r[h]);
      GroupOrderIs(r[g], r[h]);
      GroupsAntisymmetric(r[g], r[h]);
    }
  }
}
