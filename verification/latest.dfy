/** When the latest sibling group is the one at the highest mainnet block, as its documentation says. */
module LatestGroup {
  import opened Bytes
  import opened Commitment
  import opened Store
  import opened Agreement
  import opened Queries
  import opened Classification

  ghost predicate IsHighest(sha256d: HashFn, st: Store, minLegs: nat, s: SharedParent) {
    IsShared(sha256d, st, minLegs, None, s)
    && forall t :: IsShared(sha256d, st, minLegs, None, t) ==> t.ltcHeight <= s.ltcHeight
  }

  /** Every shared parent with blocks of fewer chains than `p` lies at most at that height. */
  ghost predicate NoneHigherWithFewer(sha256d: HashFn, st: Store, minLegs: nat, p: Digest, height: nat) {
    forall q :: q in SharedHashes(sha256d, st, minLegs, None) && FewerChains(sha256d, st, q, p) ==>
      st.parents[q].ltcHeight.value <= height
  }

  ghost predicate FewerChains(sha256d: HashFn, st: Store, q: Digest, p: Digest) {
    |ChainsUnder(sha256d, st, q, None)| < |ChainsUnder(sha256d, st, p, None)|
  }

  /** The answer is the highest shared parent exactly when no shared parent of fewer chains lies higher. */
  lemma LatestIsHighestIff(sha256d: HashFn, st: Store, minLegs: nat, s: SharedParent)
    requires Consistent(sha256d, st) && IsLatest(sha256d, st, minLegs, s)
    ensures IsHighest(sha256d, st, minLegs, s) <==> NoneHigherWithFewer(sha256d, st, minLegs, s.hash, s.ltcHeight)
  {
    hide Consistent, IsShared, ChainsUnder;
    SharedCounts(sha256d, st, minLegs, s);
    if NoneHigherWithFewer(sha256d, st, minLegs, s.hash, s.ltcHeight) {
      forall t | IsShared(sha256d, st, minLegs, None, t)
        ensures t.ltcHeight <= s.ltcHeight
      {
        SharedCounts(sha256d, st, minLegs, t);
        assert FewerChains(sha256d, st, t.hash, s.hash) || |t.legs| == |s.legs|;
      }
    } else {
      var q :| q in SharedHashes(sha256d, st, minLegs, None) && FewerChains(sha256d, st, q, s.hash)
               && st.parents[q].ltcHeight.value > s.ltcHeight;
      var t := SharedWith(sha256d, st, minLegs, q);
      SharedCounts(sha256d, st, minLegs, t);
      assert !(t.ltcHeight <= s.ltcHeight);
    }
  }

  lemma SharedCounts(sha256d: HashFn, st: Store, minLegs: nat, s: SharedParent)
    requires IsShared(sha256d, st, minLegs, None, s)
    ensures s.hash in SharedHashes(sha256d, st, minLegs, None)
    ensures st.parents[s.hash].ltcHeight == Some(s.ltcHeight)
    ensures |s.legs| == |ChainsUnder(sha256d, st, s.hash, None)|
  {
    hide IsLegs, ChainsUnder;
    LegsAreChains(sha256d, st, s.hash, None, s.legs);
  }

  lemma SharedWith(sha256d: HashFn, st: Store, minLegs: nat, p: Digest) returns (s: SharedParent)
    requires Consistent(sha256d, st) && p in SharedHashes(sha256d, st, minLegs, None)
    ensures IsShared(sha256d, st, minLegs, None, s) && s.hash == p
  {
    hide Consistent, IsLegs, ChainsUnder;
    var legs := LegList(FoldLegs(GroupOf(st.memGroups, p), None));
    ScanIsLegs(sha256d, st, p, None);
    LegsAreChains(sha256d, st, p, None, legs);
    s := SharedParent(p, st.parents[p].ltcHeight.value, legs);
  }

  /** The chains with any stored row. */
  ghost function StoredChains(st: Store): set<u32> { set k | k in st.blocks :: k.0 }

  /** With no more stored chains than legs asked for, the answer is the highest shared parent. */
  lemma FewChainsLatest(sha256d: HashFn, st: Store, minLegs: nat, s: SharedParent)
    requires Consistent(sha256d, st) && IsLatest(sha256d, st, minLegs, s) && |StoredChains(st)| <= minLegs
    ensures IsHighest(sha256d, st, minLegs, s)
  {
    hide Consistent, ChainsUnder, StoredChains, IsHighest;
    forall q | q in SharedHashes(sha256d, st, minLegs, None)
      ensures !FewerChains(sha256d, st, q, s.hash)
    {
      ChainsAreStored(sha256d, st, s.hash);
    }
    LatestIsHighestIff(sha256d, st, minLegs, s);
  }

  lemma ChainsAreStored(sha256d: HashFn, st: Store, p: Digest)
    ensures |ChainsUnder(sha256d, st, p, None)| <= |StoredChains(st)|
  {
    assert ChainsUnder(sha256d, st, p, None) <= StoredChains(st) by {
      hide Under;
    }
    hide ChainsUnder, StoredChains;
    SubsetCount(ChainsUnder(sha256d, st, p, None), StoredChains(st));
  }

  lemma SubsetCount(s: set<u32>, t: set<u32>)
    requires s <= t
    ensures |s| <= |t|
  {
    assert t == s + (t - s);
  }

  // ---------------------------------------------------------------- a store where it is the lower one

  /** A row of a chain under the given parent header. */
  function RowUnder(chain: u32, height: nat, parentHeader: Bytes): StoredBlock {
    var aux := AuxPow([], [], 0, [], 0, parentHeader);
    StoredBlock(seq(32, _ => 0), chain, height, BlockHeader([], Some(aux)), [])
  }

  /** Three chains under the first header, two of them again under the second. */
  function FiveRows(x: Bytes, y: Bytes): seq<StoredBlock> {
    [RowUnder(1, 1, x), RowUnder(2, 1, x), RowUnder(3, 1, x), RowUnder(1, 2, y), RowUnder(2, 2, y)]
  }

  /** The first parent is the mainnet block 5, the second the mainnet block 9. */
  function TwoParents(sha256d: HashFn, x: Bytes, y: Bytes): Store
    requires |x| >= 76 && |y| >= 76
  {
    var st := InsertRows(sha256d, EMPTY, FiveRows(x, y));
    ClassifyParent(ClassifyParent(st, sha256d(x), Some(5)), sha256d(y), Some(9))
  }

  /** Of two shared parents the answer can be the lower one, in a store where tables and caches agree. */
  lemma LowerIsLatest(sha256d: HashFn, x: Bytes, y: Bytes)
    requires |x| >= 76 && |y| >= 76 && sha256d(x) != sha256d(y)
    ensures var st := TwoParents(sha256d, x, y);
            var low := SharedParent(sha256d(x), 5, [(1, 1), (2, 1), (3, 1)]);
            var high := SharedParent(sha256d(y), 9, [(1, 2), (2, 2)]);
            && Agrees(sha256d, st)
            && IsLatest(sha256d, st, 2, low) && IsShared(sha256d, st, 2, None, high)
            && !IsHighest(sha256d, st, 2, low)
  {
    var st, px, py := TwoParents(sha256d, x, y), sha256d(x), sha256d(y);
    var low := SharedParent(px, 5, [(1, 1), (2, 1), (3, 1)]);
    var high := SharedParent(py, 9, [(1, 2), (2, 2)]);
    TwoParentsHold(sha256d, x, y);
    TwoLegs(sha256d, st, x, y);
    TwoGroups(sha256d, st, x, y);
    hide TwoParents, Agrees, IsLegs, FiveStored, TwoClassified, IsLatest, IsShared, IsHighest;
    MoreLegsFirst(sha256d, st, low, high);
  }

  lemma MoreLegsFirst(sha256d: HashFn, st: Store, low: SharedParent, high: SharedParent)
    requires TwoClassified(st, low.hash, high.hash) && low.hash in st.memGroups && high.hash in st.memGroups
    requires IsLegs(sha256d, st, low.hash, None, low.legs) && IsLegs(sha256d, st, high.hash, None, high.legs)
    requires |low.legs| == 3 && |high.legs| == 2 && low.ltcHeight == 5 && high.ltcHeight == 9
    ensures IsLatest(sha256d, st, 2, low) && IsShared(sha256d, st, 2, None, high) && !IsHighest(sha256d, st, 2, low)
  {
    hide IsLegs;
    forall t | IsShared(sha256d, st, 2, None, t)
      ensures !Better(t, low)
    {
      LegsUnique(sha256d, st, t.hash, None, t.legs, if t.hash == low.hash then low.legs else high.legs);
    }
  }

  /** What that store holds. */
  ghost predicate FiveStored(sha256d: HashFn, st: Store, x: Bytes, y: Bytes) {
    && (forall k :: k in st.blocks <==> k in {(1, 1), (2, 1), (3, 1), (1, 2), (2, 2)})
    && (forall k :: k in st.blocks ==> ParentOf(sha256d, st.blocks[k]) == Some(sha256d(if k.1 == 1 then x else y)))
  }

  ghost predicate TwoClassified(st: Store, px: Digest, py: Digest) {
    && (forall p :: p in st.parents <==> p in {px, py})
    && st.parents[px].ltcHeight == Some(5) && st.parents[py].ltcHeight == Some(9)
  }

  lemma TwoParentsHold(sha256d: HashFn, x: Bytes, y: Bytes)
    requires |x| >= 76 && |y| >= 76 && sha256d(x) != sha256d(y)
    ensures var st := TwoParents(sha256d, x, y);
            Agrees(sha256d, st) && FiveStored(sha256d, st, x, y) && TwoClassified(st, sha256d(x), sha256d(y))
  {
    FiveFresh(x, y);
    hide InsertRows, Insertable, FiveRows, Agrees, FiveStored, TwoClassified, ClassifyParent, ParentOf;
    var st0 := InsertRows(sha256d, EMPTY, FiveRows(x, y));
    FiveInserted(sha256d, x, y);
    TwoClassifies(sha256d, st0, sha256d(x), sha256d(y));
    SameFive(sha256d, st0, TwoParents(sha256d, x, y), x, y);
  }

  lemma SameFive(sha256d: HashFn, st: Store, st': Store, x: Bytes, y: Bytes)
    requires FiveStored(sha256d, st, x, y) && st'.blocks == st.blocks
    ensures FiveStored(sha256d, st', x, y)
  {
    hide ParentOf;
  }

  lemma TwoClassifies(sha256d: HashFn, st: Store, px: Digest, py: Digest)
    requires Agrees(sha256d, st) && px != py && px in st.memParents && py in st.memParents && st.parents == map[]
    ensures var st' := ClassifyParent(ClassifyParent(st, px, Some(5)), py, Some(9));
            Agrees(sha256d, st') && st'.blocks == st.blocks && TwoClassified(st', px, py)
  {
    hide Agrees;
    var st1 := ClassifyParent(st, px, Some(5));
    ClassifyAgrees(sha256d, st, px, Some(5));
    ClassifyAgrees(sha256d, st1, py, Some(9));
  }

  lemma FiveInserted(sha256d: HashFn, x: Bytes, y: Bytes)
    requires |x| >= 76 && |y| >= 76
    ensures var st := InsertRows(sha256d, EMPTY, FiveRows(x, y));
            && Agrees(sha256d, st) && FiveStored(sha256d, st, x, y)
            && sha256d(x) in st.memParents && sha256d(y) in st.memParents && st.parents == map[]
  {
    var rows := FiveRows(x, y);
    hide InsertRows, Overlay, Agrees;
    EmptyAgrees(sha256d);
    FiveOverlay(sha256d, x, y);
    InsertedBlocks(sha256d, EMPTY, rows);
    FiveFresh(x, y);
    hide FreshRows;
    InsertRowsAgrees(sha256d, EMPTY, rows);
    assert ParentOf(sha256d, rows[0]) == Some(sha256d(x)) && ParentOf(sha256d, rows[3]) == Some(sha256d(y));
    InsertedParents(sha256d, EMPTY, rows, sha256d(x));
    InsertedParents(sha256d, EMPTY, rows, sha256d(y));
  }

  lemma FiveFresh(x: Bytes, y: Bytes)
    requires |x| >= 76 && |y| >= 76
    ensures FreshRows(EMPTY, FiveRows(x, y))
    ensures forall i :: 0 <= i < |FiveRows(x, y)| ==> Insertable(FiveRows(x, y)[i])
  {
  }

  lemma FiveOverlay(sha256d: HashFn, x: Bytes, y: Bytes)
    ensures var m := Overlay(map[], FiveRows(x, y));
            && (forall k :: k in m <==> k in {(1, 1), (2, 1), (3, 1), (1, 2), (2, 2)})
            && (forall k :: k in m ==> ParentOf(sha256d, m[k]) == Some(sha256d(if k.1 == 1 then x else y)))
  {
    var rows := FiveRows(x, y);
    OverlayMeaning(map[], rows);
    hide Overlay;
    assert KeyOf(rows[0]) == (1, 1) && KeyOf(rows[1]) == (2, 1) && KeyOf(rows[2]) == (3, 1)
           && KeyOf(rows[3]) == (1, 2) && KeyOf(rows[4]) == (2, 2);
  }

  lemma TwoLegs(sha256d: HashFn, st: Store, x: Bytes, y: Bytes)
    requires FiveStored(sha256d, st, x, y) && sha256d(x) != sha256d(y)
    ensures IsLegs(sha256d, st, sha256d(x), None, [(1, 1), (2, 1), (3, 1)])
    ensures IsLegs(sha256d, st, sha256d(y), None, [(1, 2), (2, 2)])
  {
    hide IsLegs, ParentOf;
    LegsAtOne(sha256d, st, sha256d(x), [(1, 1), (2, 1), (3, 1)], 1);
    LegsAtOne(sha256d, st, sha256d(y), [(1, 2), (2, 2)], 2);
  }

  /** Every row under the parent has one height, so each of those rows is a leg. */
  lemma LegsAtOne(sha256d: HashFn, st: Store, p: Digest, legs: seq<(u32, nat)>, height: nat)
    requires forall i, j :: 0 <= i < j < |legs| ==> legs[i].0 < legs[j].0
    requires forall k :: k in legs <==> k in st.blocks && k.1 == height
    requires forall k :: k in st.blocks ==> (ParentOf(sha256d, st.blocks[k]) == Some(p) <==> k.1 == height)
    ensures IsLegs(sha256d, st, p, None, legs)
  {
    hide ParentOf;
    forall k | Under(sha256d, st, p, None, k)
      ensures HasChain(legs, k.0)
    {
      assert k in legs;
    }
  }

  lemma TwoGroups(sha256d: HashFn, st: Store, x: Bytes, y: Bytes)
    requires Agrees(sha256d, st) && FiveStored(sha256d, st, x, y)
    ensures sha256d(x) in st.memGroups && sha256d(y) in st.memGroups
  {
    hide ParentOf, GroupOk;
    var k: Key, j: Key := (1, 1), (1, 2);
    assert k in st.blocks && j in st.blocks;
  }
}
