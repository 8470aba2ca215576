/** What the queries answer, stated on the durable tables; for shared parents, together with which parents
    have a cached group. */
module Queries {
  import opened Arith
  import opened Bytes
  import opened Store
  import opened Agreement
  import opened Order

  datatype Page = Page(limit: nat, offset: nat)

  /** `skip(offset).take(limit)`. */
  function PageOf<T>(all: seq<T>, page: Page): seq<T> {
    all[Min(page.offset, |all|)..Min(page.offset + page.limit, |all|)]
  }

  /** The pages of one size from an offset to the end, one after the other. */
  function PagesFrom<T>(all: seq<T>, limit: nat, offset: nat): seq<T>
    requires limit >= 1
    decreases |all| - offset
  {
    if offset >= |all| then []
    else PageOf(all, Page(limit, offset)) + PagesFrom(all, limit, offset + limit)
  }

  lemma {:induction false} PagesFromRest<T>(all: seq<T>, limit: nat, offset: nat)
    requires limit >= 1
    ensures PagesFrom(all, limit, offset) == all[Min(offset, |all|)..]
    decreases |all| - offset
  {
    if offset < |all| {
      PagesFromRest(all, limit, offset + limit);
      var next := Min(offset + limit, |all|);
      assert all[offset..] == all[offset..next] + all[next..];
    }
  }

  /** Pages of any size tile the listing. */
  lemma PagesTile<T>(all: seq<T>, limit: nat)
    requires limit >= 1
    ensures PagesFrom(all, limit, 0) == all
  {
    PagesFromRest(all, limit, 0);
    assert all[0..] == all;
  }

  /** Reading on: one more row lands on the page while it has room and the offset is passed. */
  lemma PageSnoc<T>(s: seq<T>, x: T, page: Page)
    ensures PageOf(s + [x], page)
            == if |s| >= page.offset && |PageOf(s, page)| < page.limit then PageOf(s, page) + [x] else PageOf(s, page)
  {
    var n, t := |s|, s + [x];
    var now, next := PageOf(s, page), PageOf(t, page);
    if n >= page.offset && |now| < page.limit {
      assert now == s[page.offset..] && next == t[page.offset..];
      assert t[page.offset..] == s[page.offset..] + [x];
    } else if n < page.offset {
      assert now == [] && next == [];
    } else {
      var end := page.offset + page.limit;
      assert end <= n;
      assert t[page.offset..end] == s[page.offset..end];
    }
  }

  // ---------------------------------------------------------------- siblings of one parent

  /** The keys of a parent's rows, in index order. */
  ghost function SiblingKeys(st: Store, p: Digest): set<Key> {
    set s | s in st.siblings && s.0 == p && s.1 in st.blocks :: s.1
  }

  ghost function SiblingList(st: Store, p: Digest): seq<Key> {
    InOrder(SiblingKeys(st, p), KeyRank)
  }

  /** By chain, then by height, each key once. */
  ghost predicate KeysAscend(keys: seq<Key>) {
    forall i, j :: 0 <= i < j < |keys| ==>
      keys[i].0 < keys[j].0 || (keys[i].0 == keys[j].0 && keys[i].1 < keys[j].1)
  }

  /** The listing is in key order and names exactly the stored rows that the index has under the parent. */
  lemma SiblingOrder(st: Store, p: Digest)
    ensures var keys := SiblingList(st, p);
            KeysAscend(keys) && forall k :: k in keys <==> (p, k) in st.siblings && k in st.blocks
  {
    var keys := SiblingList(st, p);
    InOrderAscends(SiblingKeys(st, p), KeyRank);
    hide InOrder;
    forall i, j | 0 <= i < j < |keys|
      ensures keys[i].0 < keys[j].0 || (keys[i].0 == keys[j].0 && keys[i].1 < keys[j].1)
    {
      assert Lt(KeyRank(keys[i]), KeyRank(keys[j]));
    }
  }

  /** The rows of a listing of stored keys. */
  ghost function RowsAt(m: map<Key, StoredBlock>, keys: seq<Key>): seq<StoredBlock>
    requires forall i :: 0 <= i < |keys| ==> keys[i] in m
  {
    seq(|keys|, i requires 0 <= i < |keys| => m[keys[i]])
  }

  /** The index scan and the cached group name the same rows. */
  lemma IndexIsGroup(sha256d: HashFn, st: Store, p: Digest)
    requires Consistent(sha256d, st)
    ensures SiblingKeys(st, p) == Image(GroupOf(st.memGroups, p), KeyOf)
    ensures |SiblingList(st, p)| == |GroupOf(st.memGroups, p)|
  {
    var list := GroupOf(st.memGroups, p);
    CachedGroupOk(sha256d, st, p);
    forall k
      ensures k in SiblingKeys(st, p) <==> k in Image(list, KeyOf)
    {
      if k in SiblingKeys(st, p) {
        assert (p, k) in st.siblings;
        assert st.blocks[k] in list && KeyOf(st.blocks[k]) == k;
      }
      if k in Image(list, KeyOf) {
        var b :| b in list && KeyOf(b) == k;
        assert (p, k) in st.siblings;
      }
    }
    hide Consistent, GroupOk, SiblingKeys;
    CountImage(list, KeyOf);
  }

  // ---------------------------------------------------------------- epochs

  datatype EpochRow = EpochRow(chain: u32, height: nat, ltc: nat, hash: Digest)

  function EpochRank(r: EpochRow): Rank { (r.ltc, r.chain, r.height) }

  /** The height at which a row's parent is a mainnet block, if the parent table says it is one. */
  function AnchorOf(sha256d: HashFn, st: Store, b: StoredBlock): Option<nat> {
    var p := ParentOf(sha256d, b);
    if p.Some? && p.value in st.parents then st.parents[p.value].ltcHeight else None
  }

  predicate Wanted(filter: Option<u32>, chain: u32) { filter.None? || filter.value == chain }

  ghost predicate InEpoch(sha256d: HashFn, st: Store, k: Key, start: nat, end: nat, filter: Option<u32>)
    requires k in st.blocks
  {
    var anchor := AnchorOf(sha256d, st, st.blocks[k]);
    (filter == None || filter == Some(k.0)) && anchor.Some? && start <= anchor.value <= end
  }

  /** The stored rows whose parent is a mainnet block in the window. */
  ghost function EpochSet(sha256d: HashFn, st: Store, start: nat, end: nat, filter: Option<u32>): set<EpochRow> {
    set k | k in st.blocks && InEpoch(sha256d, st, k, start, end, filter)
      :: EpochRow(k.0, k.1, AnchorOf(sha256d, st, st.blocks[k]).value, st.blocks[k].hashLe)
  }

  lemma EpochRanked(sha256d: HashFn, st: Store, start: nat, end: nat, filter: Option<u32>)
    ensures Ranked(EpochSet(sha256d, st, start, end, filter), EpochRank)
  {
    var s := EpochSet(sha256d, st, start, end, filter);
    forall x, y | x in s && y in s && EpochRank(x) == EpochRank(y)
      ensures x == y
    {
      assert (x.chain, x.height) == (y.chain, y.height);
    }
  }

  /** The full answer to an epoch query. */
  ghost function EpochList(sha256d: HashFn, st: Store, start: nat, end: nat, filter: Option<u32>): seq<EpochRow> {
    EpochRanked(sha256d, st, start, end, filter);
    InOrder(EpochSet(sha256d, st, start, end, filter), EpochRank)
  }

  lemma EpochListShape(sha256d: HashFn, st: Store, start: nat, end: nat, filter: Option<u32>)
    ensures var all := EpochList(sha256d, st, start, end, filter);
            && Ascending(all, EpochRank)
            && (forall r :: r in all <==> r in EpochSet(sha256d, st, start, end, filter))
            && (forall r :: r in all ==> start <= r.ltc <= end)
  {
    EpochRanked(sha256d, st, start, end, filter);
    InOrderAscends(EpochSet(sha256d, st, start, end, filter), EpochRank);
  }

  /** By the parent's height, then by chain, then by height, each row once. */
  ghost predicate EpochOrdered(rows: seq<EpochRow>) {
    forall i, j :: 0 <= i < j < |rows| ==>
      || rows[i].ltc < rows[j].ltc
      || (rows[i].ltc == rows[j].ltc && rows[i].chain < rows[j].chain)
      || (rows[i].ltc == rows[j].ltc && rows[i].chain == rows[j].chain && rows[i].height < rows[j].height)
  }

  lemma EpochOrder(sha256d: HashFn, st: Store, start: nat, end: nat, filter: Option<u32>)
    ensures EpochOrdered(EpochList(sha256d, st, start, end, filter))
  {
    var all := EpochList(sha256d, st, start, end, filter);
    EpochListShape(sha256d, st, start, end, filter);
    hide EpochList, EpochSet;
    assert forall i, j :: 0 <= i < j < |all| ==> Lt(EpochRank(all[i]), EpochRank(all[j]));
  }

  // The scan of the cached groups.

  function RowOf(b: StoredBlock, ltc: nat): EpochRow { EpochRow(b.chainId, b.height, ltc, b.hashLe) }

  function ScanGroup(list: seq<StoredBlock>, ltc: nat, filter: Option<u32>): seq<EpochRow> {
    if list == [] then []
    else
      var b, rest := list[|list| - 1], ScanGroup(list[..|list| - 1], ltc, filter);
      if Wanted(filter, b.chainId) then rest + [RowOf(b, ltc)] else rest
  }

  function RowKey(r: EpochRow): Key { (r.chain, r.height) }

  ghost predicate RowFrom(list: seq<StoredBlock>, ltc: nat, filter: Option<u32>, r: EpochRow) {
    exists b :: b in list && Wanted(filter, b.chainId) && r == RowOf(b, ltc)
  }

  ghost predicate Covered(list: seq<StoredBlock>, ltc: nat, filter: Option<u32>, rows: seq<EpochRow>) {
    forall b :: b in list && Wanted(filter, b.chainId) ==> RowOf(b, ltc) in rows
  }

  ghost predicate RowsApart(rows: seq<EpochRow>) {
    forall i, j :: 0 <= i < j < |rows| ==> RowKey(rows[i]) != RowKey(rows[j])
  }

  /** One row per wanted member of the list. */
  ghost predicate GroupScanned(list: seq<StoredBlock>, ltc: nat, filter: Option<u32>, rows: seq<EpochRow>) {
    && (forall r :: r in rows ==> RowFrom(list, ltc, filter, r))
    && Covered(list, ltc, filter, rows)
    && RowsApart(rows)
  }

  lemma {:induction false} ScanGroupMeans(list: seq<StoredBlock>, ltc: nat, filter: Option<u32>)
    requires NoDuplicates(list)
    ensures GroupScanned(list, ltc, filter, ScanGroup(list, ltc, filter))
  {
    if list != [] {
      var n := |list| - 1;
      ScanGroupMeans(list[..n], ltc, filter);
      assert list == list[..n] + [list[n]];
      hide GroupScanned;
      ScanGroupStep(list[..n], list[n], ltc, filter, ScanGroup(list[..n], ltc, filter));
    }
  }

  lemma RowFromMore(list: seq<StoredBlock>, b: StoredBlock, ltc: nat, filter: Option<u32>, r: EpochRow)
    requires NoDuplicates(list + [b]) && RowFrom(list, ltc, filter, r)
    ensures RowFrom(list + [b], ltc, filter, r) && RowKey(r) != KeyOf(b)
  {
    var w :| w in list && Wanted(filter, w.chainId) && r == RowOf(w, ltc);
    var i :| 0 <= i < |list| && list[i] == w;
    var all := list + [b];
    assert all[i] == w && all[|list|] == b;
    assert w in all;
  }

  lemma CoveredSnoc(list: seq<StoredBlock>, b: StoredBlock, ltc: nat, filter: Option<u32>, rows: seq<EpochRow>)
    requires Covered(list, ltc, filter, rows)
    ensures Covered(list + [b], ltc, filter, if Wanted(filter, b.chainId) then rows + [RowOf(b, ltc)] else rows)
  {
    hide Wanted, RowOf;
  }

  lemma ApartSnoc(rows: seq<EpochRow>, r: EpochRow)
    requires RowsApart(rows) && forall x :: x in rows ==> RowKey(x) != RowKey(r)
    ensures RowsApart(rows + [r])
  {
    assert forall i :: 0 <= i < |rows| ==> rows[i] in rows;
    hide RowKey;
  }

  lemma ScanGroupStep(list: seq<StoredBlock>, b: StoredBlock, ltc: nat, filter: Option<u32>, rows: seq<EpochRow>)
    requires NoDuplicates(list + [b]) && GroupScanned(list, ltc, filter, rows)
    ensures GroupScanned(list + [b], ltc, filter, if Wanted(filter, b.chainId) then rows + [RowOf(b, ltc)] else rows)
  {
    var r := RowOf(b, ltc);
    assert RowKey(r) == KeyOf(b) && b in list + [b];
    assert Wanted(filter, b.chainId) ==> RowFrom(list + [b], ltc, filter, r);
    hide Wanted, NoDuplicates, RowFrom, Covered, RowsApart;
    forall x | x in rows
      ensures RowFrom(list + [b], ltc, filter, x) && RowKey(x) != RowKey(r)
    {
      RowFromMore(list, b, ltc, filter, x);
    }
    CoveredSnoc(list, b, ltc, filter, rows);
    ApartSnoc(rows, r);
  }

  /** The rows found under the parents of `done`. */
  ghost predicate Scanned(sha256d: HashFn, st: Store, start: nat, end: nat, filter: Option<u32>, done: set<Digest>,
                          out: seq<EpochRow>) {
    && (forall r :: r in out ==>
          r in EpochSet(sha256d, st, start, end, filter) && RowUnder(sha256d, st, RowKey(r), done))
    && (forall r ::
          r in EpochSet(sha256d, st, start, end, filter) && RowUnder(sha256d, st, RowKey(r), done) ==> r in out)
    && (forall i, j :: 0 <= i < j < |out| ==> RowKey(out[i]) != RowKey(out[j]))
  }

  ghost predicate RowUnder(sha256d: HashFn, st: Store, k: Key, done: set<Digest>) {
    k in st.blocks && ParentOf(sha256d, st.blocks[k]).Some? && ParentOf(sha256d, st.blocks[k]).value in done
  }

  /** What the scan collects under one parent. */
  function RowsUnder(st: Store, start: nat, end: nat, filter: Option<u32>, p: Digest): seq<EpochRow> {
    if p in st.memParents && st.memParents[p].ltcHeight.Some?
       && start <= st.memParents[p].ltcHeight.value <= end && p in st.memGroups
    then ScanGroup(st.memGroups[p], st.memParents[p].ltcHeight.value, filter)
    else []
  }

  /** A stored row of a mainnet parent in the window is in the answer. */
  lemma RowInEpoch(sha256d: HashFn, st: Store, start: nat, end: nat, filter: Option<u32>, p: Digest, b: StoredBlock)
    requires KeyOf(b) in st.blocks && st.blocks[KeyOf(b)] == b && ParentOf(sha256d, b) == Some(p)
             && Wanted(filter, b.chainId)
    requires p in st.parents && st.parents[p].ltcHeight.Some? && start <= st.parents[p].ltcHeight.value <= end
    ensures var r := RowOf(b, st.parents[p].ltcHeight.value);
            r in EpochSet(sha256d, st, start, end, filter) && RowUnder(sha256d, st, RowKey(r), {p})
  {
    assert InEpoch(sha256d, st, KeyOf(b), start, end, filter);
  }

  /** And every row of the answer is one. */
  lemma EpochRowMeans(sha256d: HashFn, st: Store, start: nat, end: nat, filter: Option<u32>, r: EpochRow)
    requires r in EpochSet(sha256d, st, start, end, filter)
    ensures RowKey(r) in st.blocks && Wanted(filter, r.chain)
    ensures var b := st.blocks[RowKey(r)];
            && r.hash == b.hashLe && AnchorOf(sha256d, st, b) == Some(r.ltc) && start <= r.ltc <= end
            && ParentOf(sha256d, b).Some? && ParentOf(sha256d, b).value in st.parents
  {
    var k :| k in st.blocks && InEpoch(sha256d, st, k, start, end, filter)
             && r == EpochRow(k.0, k.1, AnchorOf(sha256d, st, st.blocks[k]).value, st.blocks[k].hashLe);
    assert RowKey(r) == k;
  }

  /** It is the part of the answer that lies under that parent. */
  lemma RowsUnderMean(sha256d: HashFn, st: Store, start: nat, end: nat, filter: Option<u32>, p: Digest)
    requires Consistent(sha256d, st)
    ensures Scanned(sha256d, st, start, end, filter, {p}, RowsUnder(st, start, end, filter, p))
  {
    hide Consistent, EpochSet, AnchorOf, NoDuplicates, RowsOk;
    var rows, list := RowsUnder(st, start, end, filter, p), GroupOf(st.memGroups, p);
    CachedGroupOk(sha256d, st, p);
    RowsAgree(sha256d, st);
    ParentAgrees(sha256d, st, p);
    if p in st.memParents && st.memParents[p].ltcHeight.Some?
       && start <= st.memParents[p].ltcHeight.value <= end && p in st.memGroups {
      ScanGroupMeans(list, st.memParents[p].ltcHeight.value, filter);
    }
    hide ScanGroup;
    forall r | r in rows
      ensures r in EpochSet(sha256d, st, start, end, filter) && RowUnder(sha256d, st, RowKey(r), {p})
    {
      var ltc := st.memParents[p].ltcHeight.value;
      assert RowFrom(list, ltc, filter, r);
      var b :| b in list && Wanted(filter, b.chainId) && r == RowOf(b, ltc);
      RowInEpoch(sha256d, st, start, end, filter, p, b);
    }
    forall r | r in EpochSet(sha256d, st, start, end, filter) && RowUnder(sha256d, st, RowKey(r), {p})
      ensures r in rows
    {
      RowFound(sha256d, st, start, end, filter, p, r, list);
    }
  }

  lemma RowFound(sha256d: HashFn, st: Store, start: nat, end: nat, filter: Option<u32>, p: Digest, r: EpochRow,
                 list: seq<StoredBlock>)
    requires RowsOk(st) && GroupOk(sha256d, st, p, list)
    requires r in EpochSet(sha256d, st, start, end, filter) && RowUnder(sha256d, st, RowKey(r), {p})
    ensures p in st.parents && st.parents[p].ltcHeight == Some(r.ltc) && start <= r.ltc <= end
            && Wanted(filter, r.chain)
    ensures exists b :: b in list && Wanted(filter, b.chainId) && r == RowOf(b, r.ltc)
  {
    EpochRowMeans(sha256d, st, start, end, filter, r);
    hide NoDuplicates, EpochSet;
    var b := st.blocks[RowKey(r)];
    assert b in list && KeyOf(b) == RowKey(r);
    assert r == RowOf(b, r.ltc);
  }

  lemma ParentAgrees(sha256d: HashFn, st: Store, p: Digest)
    requires Consistent(sha256d, st)
    ensures p in st.parents ==> p in st.memParents && st.parents[p] == st.memParents[p]
    ensures p in st.memParents && st.memParents[p].ltcHeight.Some? ==> p in st.parents
    ensures p in st.memParents ==> (st.memParents[p].state == 1 <==> st.memParents[p].ltcHeight.Some?)
    ensures forall k :: k in st.blocks && ParentOf(sha256d, st.blocks[k]) == Some(p) ==> p in st.memGroups
  {
  }

  /** One more parent scanned. */
  lemma ScanStep(sha256d: HashFn, st: Store, start: nat, end: nat, filter: Option<u32>, done: set<Digest>,
                 out: seq<EpochRow>, p: Digest)
    requires Consistent(sha256d, st) && p !in done
    requires Scanned(sha256d, st, start, end, filter, done, out)
    ensures Scanned(sha256d, st, start, end, filter, done + {p}, out + RowsUnder(st, start, end, filter, p))
  {
    hide Consistent, EpochSet, RowsUnder, ParentOf;
    var rows := RowsUnder(st, start, end, filter, p);
    RowsUnderMean(sha256d, st, start, end, filter, p);
    var all := out + rows;
    forall i, j | 0 <= i < j < |all|
      ensures RowKey(all[i]) != RowKey(all[j])
    {
      if i < |out| <= j {
        assert all[i] in out && all[j] in rows;
      }
    }
  }

  /** When every cached parent has been scanned, the rows are the answer, each once. */
  lemma ScanDone(sha256d: HashFn, st: Store, start: nat, end: nat, filter: Option<u32>, out: seq<EpochRow>)
    requires Consistent(sha256d, st) && Scanned(sha256d, st, start, end, filter, st.memParents.Keys, out)
    ensures (set r | r in out) == EpochSet(sha256d, st, start, end, filter)
    ensures |out| == |EpochList(sha256d, st, start, end, filter)|
  {
    forall r | r in EpochSet(sha256d, st, start, end, filter)
      ensures r in out
    {
      EpochRowMeans(sha256d, st, start, end, filter, r);
      ParentAgrees(sha256d, st, ParentOf(sha256d, st.blocks[RowKey(r)]).value);
      assert RowUnder(sha256d, st, RowKey(r), st.memParents.Keys);
    }
    hide Consistent;
    EpochRanked(sha256d, st, start, end, filter);
    var s := set r | r in out;
    assert s == EpochSet(sha256d, st, start, end, filter);
    hide EpochSet;
    CountRows(out);
  }

  lemma CountRows(rows: seq<EpochRow>)
    requires forall i, j :: 0 <= i < j < |rows| ==> RowKey(rows[i]) != RowKey(rows[j])
    ensures |set r | r in rows| == |rows|
  {
    CountImage(rows, Itself);
    assert Image(rows, Itself) == set r | r in rows;
  }

  function Itself(r: EpochRow): EpochRow { r }

  /** Adjacent windows tile: the longer window's listing is the two shorter ones, one after the other. */
  lemma EpochsTile(sha256d: HashFn, st: Store, a: nat, b: nat, c: nat, filter: Option<u32>)
    requires a <= b < c
    ensures EpochList(sha256d, st, a, c, filter)
            == EpochList(sha256d, st, a, b, filter) + EpochList(sha256d, st, b + 1, c, filter)
    ensures Ascending(EpochList(sha256d, st, a, c, filter), EpochRank)
  {
    var whole, low, high := EpochList(sha256d, st, a, c, filter), EpochList(sha256d, st, a, b, filter),
        EpochList(sha256d, st, b + 1, c, filter);
    EpochListShape(sha256d, st, a, c, filter);
    EpochListShape(sha256d, st, a, b, filter);
    EpochListShape(sha256d, st, b + 1, c, filter);
    EpochSplits(sha256d, st, a, b, c, filter);
    hide EpochList, EpochSet;
    AscendingConcat(low, high, EpochRank);
    AscendingUnique(whole, low + high, EpochRank);
  }

  lemma EpochSplits(sha256d: HashFn, st: Store, a: nat, b: nat, c: nat, filter: Option<u32>)
    requires a <= b < c
    ensures EpochSet(sha256d, st, a, c, filter)
            == EpochSet(sha256d, st, a, b, filter) + EpochSet(sha256d, st, b + 1, c, filter)
  {
    hide AnchorOf, Wanted;
  }

  // ---------------------------------------------------------------- shared parents

  datatype SharedParent = SharedParent(hash: Digest, ltcHeight: nat, legs: seq<(u32, nat)>)

  /** A stored row under the parent, of a wanted chain. */
  ghost predicate Under(sha256d: HashFn, st: Store, p: Digest, filter: Option<u32>, k: Key) {
    k in st.blocks && ParentOf(sha256d, st.blocks[k]) == Some(p) && (filter == None || filter == Some(k.0))
  }

  /** One leg per chain with a row under the parent, at its lowest such height, in chain order. */
  ghost predicate IsLegs(sha256d: HashFn, st: Store, p: Digest, filter: Option<u32>, legs: seq<(u32, nat)>) {
    && (forall i, j :: 0 <= i < j < |legs| ==> legs[i].0 < legs[j].0)
    && (forall l :: l in legs ==> Under(sha256d, st, p, filter, l))
    && (forall l, k :: l in legs && Under(sha256d, st, p, filter, k) && k.0 == l.0 ==> l.1 <= k.1)
    && (forall k :: Under(sha256d, st, p, filter, k) ==> HasChain(legs, k.0))
  }

  predicate HasChain(legs: seq<(u32, nat)>, c: u32) {
    exists i :: 0 <= i < |legs| && legs[i].0 == c
  }

  /** The chains with a row under the parent. */
  ghost function ChainsUnder(sha256d: HashFn, st: Store, p: Digest, filter: Option<u32>): set<u32> {
    set k | k in st.blocks && Under(sha256d, st, p, filter, k) :: k.0
  }

  function LegChain(l: (u32, nat)): u32 { l.0 }

  /** There are as many legs as chains. */
  lemma LegsAreChains(sha256d: HashFn, st: Store, p: Digest, filter: Option<u32>, legs: seq<(u32, nat)>)
    requires IsLegs(sha256d, st, p, filter, legs)
    ensures |legs| == |ChainsUnder(sha256d, st, p, filter)|
  {
    hide Under;
    CountImage(legs, LegChain);
    var s := Image(legs, LegChain);
    forall c
      ensures c in s <==> c in ChainsUnder(sha256d, st, p, filter)
    {
      if c in s {
        var l :| l in legs && LegChain(l) == c;
        assert Under(sha256d, st, p, filter, l);
        UnderStored(sha256d, st, p, filter, l);
      }
      if c in ChainsUnder(sha256d, st, p, filter) {
        var k :| k in st.blocks && Under(sha256d, st, p, filter, k) && k.0 == c;
        assert HasChain(legs, k.0);
        var i :| 0 <= i < |legs| && legs[i].0 == c;
        assert legs[i] in legs;
      }
    }
    assert s == ChainsUnder(sha256d, st, p, filter);
  }

  lemma UnderStored(sha256d: HashFn, st: Store, p: Digest, filter: Option<u32>, k: Key)
    requires Under(sha256d, st, p, filter, k)
    ensures k in st.blocks
  {
  }

  /** A mainnet parent with a cached group and enough legs. */
  ghost predicate IsShared(sha256d: HashFn, st: Store, minLegs: nat, filter: Option<u32>, s: SharedParent) {
    && s.hash in st.parents && st.parents[s.hash].ltcHeight == Some(s.ltcHeight)
    && s.hash in st.memGroups
    && IsLegs(sha256d, st, s.hash, filter, s.legs) && |s.legs| >= minLegs
  }

  /** Listed earlier: more legs, then the higher mainnet block. */
  predicate Better(a: SharedParent, b: SharedParent) {
    |a.legs| > |b.legs| || (|a.legs| == |b.legs| && a.ltcHeight > b.ltcHeight)
  }

  /** What `latest_sibling_group` answers: a shared parent that no other is listed before. */
  ghost predicate IsLatest(sha256d: HashFn, st: Store, minLegs: nat, s: SharedParent) {
    IsShared(sha256d, st, minLegs, None, s) && forall t :: IsShared(sha256d, st, minLegs, None, t) ==> !Better(t, s)
  }

  /** The full answer, up to the order of parents that neither count nor height separates. */
  ghost predicate SharedListing(sha256d: HashFn, st: Store, minLegs: nat, filter: Option<u32>, all: seq<SharedParent>) {
    && (forall i, j :: 0 <= i < j < |all| ==> all[i].hash != all[j].hash && !Better(all[j], all[i]))
    && (forall s :: s in all <==> IsShared(sha256d, st, minLegs, filter, s))
  }

  /** The shared parents, counted. */
  ghost function SharedHashes(sha256d: HashFn, st: Store, minLegs: nat, filter: Option<u32>): set<Digest> {
    set p | p in st.parents && st.parents[p].ltcHeight.Some? && p in st.memGroups
            && |ChainsUnder(sha256d, st, p, filter)| >= minLegs
  }

  // The fold of the source over one cached group.

  function AddLeg(legs: map<u32, nat>, b: StoredBlock, filter: Option<u32>): map<u32, nat> {
    if !Wanted(filter, b.chainId) then legs
    else if b.chainId in legs then legs[b.chainId := Min(legs[b.chainId], b.height)]
    else legs[b.chainId := b.height]
  }

  function FoldLegs(list: seq<StoredBlock>, filter: Option<u32>): map<u32, nat> {
    if list == [] then map[] else AddLeg(FoldLegs(list[..|list| - 1], filter), list[|list| - 1], filter)
  }

  ghost predicate LegsMean(list: seq<StoredBlock>, filter: Option<u32>, m: map<u32, nat>) {
    && (forall b :: b in list && Wanted(filter, b.chainId) ==> b.chainId in m && m[b.chainId] <= b.height)
    && (forall c :: c in m ==> Wanted(filter, c) && InList(list, (c, m[c])))
  }

  ghost predicate InList(list: seq<StoredBlock>, k: Key) {
    exists b :: b in list && KeyOf(b) == k
  }

  lemma {:induction false} FoldLegsMean(list: seq<StoredBlock>, filter: Option<u32>)
    ensures LegsMean(list, filter, FoldLegs(list, filter))
  {
    if list != [] {
      var n := |list| - 1;
      FoldLegsMean(list[..n], filter);
      assert list == list[..n] + [list[n]];
      LegStep(list[..n], list[n], filter, FoldLegs(list[..n], filter));
    }
  }

  lemma LegStep(list: seq<StoredBlock>, b: StoredBlock, filter: Option<u32>, m: map<u32, nat>)
    requires LegsMean(list, filter, m)
    ensures LegsMean(list + [b], filter, AddLeg(m, b, filter))
  {
    var m', all := AddLeg(m, b, filter), list + [b];
    assert b in all;
    forall c | c in m'
      ensures Wanted(filter, c) && InList(all, (c, m'[c]))
    {
      if c in m && m'[c] == m[c] {
        var w :| w in list && KeyOf(w) == (c, m[c]);
        assert w in all;
      } else {
        assert KeyOf(b) == (c, m'[c]);
      }
    }
  }

  function LegRank(l: (u32, nat)): Rank { (0, l.0, l.1) }

  ghost function Entries(m: map<u32, nat>): set<(u32, nat)> { set c | c in m :: (c, m[c]) }

  /** The map as a list, by chain. */
  ghost function LegList(m: map<u32, nat>): seq<(u32, nat)> {
    InOrder(Entries(m), LegRank)
  }

  lemma LegListShape(m: map<u32, nat>)
    ensures var legs := LegList(m);
            && (forall i, j :: 0 <= i < j < |legs| ==> legs[i].0 < legs[j].0)
            && (forall l :: l in legs <==> l.0 in m && m[l.0] == l.1)
  {
    var legs := LegList(m);
    InOrderAscends(Entries(m), LegRank);
    forall l
      ensures l in legs <==> l.0 in m && m[l.0] == l.1
    {
      assert l in Entries(m) <==> l.0 in m && m[l.0] == l.1;
    }
    forall i, j | 0 <= i < j < |legs|
      ensures legs[i].0 < legs[j].0
    {
      assert Lt(LegRank(legs[i]), LegRank(legs[j]));
      assert legs[i] in legs && legs[j] in legs;
    }
  }

  /** The legs the scan of a cached group computes. */
  lemma ScanIsLegs(sha256d: HashFn, st: Store, p: Digest, filter: Option<u32>)
    requires Consistent(sha256d, st)
    ensures IsLegs(sha256d, st, p, filter, LegList(FoldLegs(GroupOf(st.memGroups, p), filter)))
  {
    var list := GroupOf(st.memGroups, p);
    var m := FoldLegs(list, filter);
    CachedGroupOk(sha256d, st, p);
    FoldLegsMean(list, filter);
    LegListShape(m);
    RowsAgree(sha256d, st);
    hide Consistent, LegList, FoldLegs, NoDuplicates;
    LegsUnder(sha256d, st, p, filter, list, m, LegList(m));
  }

  lemma RowsAgree(sha256d: HashFn, st: Store)
    requires Consistent(sha256d, st)
    ensures RowsOk(st)
  {
  }

  lemma LegsUnder(sha256d: HashFn, st: Store, p: Digest, filter: Option<u32>, list: seq<StoredBlock>, m: map<u32,
                  nat>, legs: seq<(u32, nat)>)
    requires RowsOk(st) && GroupOk(sha256d, st, p, list) && LegsMean(list, filter, m)
    requires forall i, j :: 0 <= i < j < |legs| ==> legs[i].0 < legs[j].0
    requires forall l :: l in legs <==> l.0 in m && m[l.0] == l.1
    ensures IsLegs(sha256d, st, p, filter, legs)
  {
    hide NoDuplicates;
    forall l | l in legs
      ensures Under(sha256d, st, p, filter, l)
    {
      var b :| b in list && KeyOf(b) == (l.0, m[l.0]);
    }
    forall k | Under(sha256d, st, p, filter, k)
      ensures HasChain(legs, k.0) && k.0 in m && m[k.0] <= k.1
    {
      var b := st.blocks[k];
      assert b in list && KeyOf(b) == k;
      assert (k.0, m[k.0]) in legs;
    }
  }

  function HashOf(s: SharedParent): Digest { s.hash }

  lemma LegsUnique(sha256d: HashFn, st: Store, p: Digest, filter: Option<u32>, l1: seq<(u32, nat)>, l2: seq<(u32, nat)>)
    requires IsLegs(sha256d, st, p, filter, l1) && IsLegs(sha256d, st, p, filter, l2)
    ensures l1 == l2
  {
    forall l
      ensures l in l1 <==> l in l2
    {
      if l in l1 {
        LegIn(sha256d, st, p, filter, l1, l2, l);
      }
      if l in l2 {
        LegIn(sha256d, st, p, filter, l2, l1, l);
      }
    }
    assert Ascending(l1, LegRank) && Ascending(l2, LegRank);
    AscendingUnique(l1, l2, LegRank);
  }

  lemma LegIn(sha256d: HashFn, st: Store, p: Digest, filter: Option<u32>, l1: seq<(u32, nat)>, l2: seq<(u32, nat)>,
              l: (u32, nat))
    requires IsLegs(sha256d, st, p, filter, l1) && IsLegs(sha256d, st, p, filter, l2) && l in l1
    ensures l in l2
  {
    hide Under;
    assert Under(sha256d, st, p, filter, l);
    assert HasChain(l2, l.0);
    var i :| 0 <= i < |l2| && l2[i].0 == l.0;
    assert l2[i] in l2 && Under(sha256d, st, p, filter, l2[i]);
    assert l2[i] == (l.0, l2[i].1) && l == (l.0, l.1);
  }

  /** Every full listing has one entry per shared parent. */
  lemma SharedTotal(sha256d: HashFn, st: Store, minLegs: nat, filter: Option<u32>, all: seq<SharedParent>)
    requires Consistent(sha256d, st) && SharedListing(sha256d, st, minLegs, filter, all)
    ensures |all| == |SharedHashes(sha256d, st, minLegs, filter)|
  {
    hide Consistent, IsLegs, ChainsUnder;
    CountImage(all, HashOf);
    forall p
      ensures p in Image(all, HashOf) <==> p in SharedHashes(sha256d, st, minLegs, filter)
    {
      if p in Image(all, HashOf) {
        var s :| s in all && HashOf(s) == p;
        assert IsShared(sha256d, st, minLegs, filter, s);
        LegsAreChains(sha256d, st, p, filter, s.legs);
      }
      if p in SharedHashes(sha256d, st, minLegs, filter) {
        var legs := LegList(FoldLegs(GroupOf(st.memGroups, p), filter));
        ScanIsLegs(sha256d, st, p, filter);
        LegsAreChains(sha256d, st, p, filter, legs);
        var s := SharedParent(p, st.parents[p].ltcHeight.value, legs);
        assert IsShared(sha256d, st, minLegs, filter, s);
        assert s in all && HashOf(s) == p;
      }
    }
    assert Image(all, HashOf) == SharedHashes(sha256d, st, minLegs, filter);
  }

  // The scan of the cached parents.

  /** The entry of one parent, if it qualifies. */
  ghost function SharedUnder(st: Store, minLegs: nat, filter: Option<u32>, p: Digest): Option<SharedParent> {
    if p in st.memParents && st.memParents[p].ltcHeight.Some? && p in st.memGroups
    then
      var legs := LegList(FoldLegs(st.memGroups[p], filter));
      if |legs| >= minLegs then Some(SharedParent(p, st.memParents[p].ltcHeight.value, legs)) else None
    else None
  }

  lemma SharedUnderMeans(sha256d: HashFn, st: Store, minLegs: nat, filter: Option<u32>, p: Digest)
    requires Consistent(sha256d, st)
    ensures forall s: SharedParent :: s.hash == p ==> (IsShared(sha256d, st, minLegs, filter, s)
            <==> Some(s) == SharedUnder(st, minLegs, filter, p))
  {
    ParentAgrees(sha256d, st, p);
    ScanIsLegs(sha256d, st, p, filter);
    hide Consistent, LegList, FoldLegs;
    var legs := LegList(FoldLegs(GroupOf(st.memGroups, p), filter));
    forall s: SharedParent | s.hash == p
      ensures IsShared(sha256d, st, minLegs, filter, s) <==> Some(s) == SharedUnder(st, minLegs, filter, p)
    {
      hide IsLegs;
      if IsShared(sha256d, st, minLegs, filter, s) {
        LegsUnique(sha256d, st, p, filter, legs, s.legs);
      }
    }
  }

  /** The qualifying entries of the parents in `done`, each once. */
  ghost predicate Collected(sha256d: HashFn, st: Store, minLegs: nat, filter: Option<u32>, done: set<Digest>,
                            out: seq<SharedParent>) {
    && (forall i, j :: 0 <= i < j < |out| ==> out[i].hash != out[j].hash)
    && (forall s :: s in out <==> IsShared(sha256d, st, minLegs, filter, s) && s.hash in done)
  }

  lemma CollectStep(sha256d: HashFn, st: Store, minLegs: nat, filter: Option<u32>, done: set<Digest>,
                    out: seq<SharedParent>, p: Digest)
    requires Consistent(sha256d, st) && p !in done && Collected(sha256d, st, minLegs, filter, done, out)
    ensures var found := SharedUnder(st, minLegs, filter, p);
            Collected(sha256d, st, minLegs, filter, done + {p}, if found.Some? then out + [found.value] else out)
  {
    hide Consistent, IsShared, LegList, FoldLegs;
    SharedUnderMeans(sha256d, st, minLegs, filter, p);
    var found := SharedUnder(st, minLegs, filter, p);
    SharedUnderHash(st, minLegs, filter, p);
    hide SharedUnder, Collected;
    CollectNext(sha256d, st, minLegs, filter, done, out, p, found);
  }

  lemma CollectNext(sha256d: HashFn, st: Store, minLegs: nat, filter: Option<u32>, done: set<Digest>,
                    out: seq<SharedParent>, p: Digest,
                    found: Option<SharedParent>)
    requires p !in done && Collected(sha256d, st, minLegs, filter, done, out)
    requires forall s: SharedParent :: s.hash == p ==> (IsShared(sha256d, st, minLegs, filter, s) <==> Some(s) == found)
    requires found.Some? ==> found.value.hash == p
    ensures Collected(sha256d, st, minLegs, filter, done + {p}, if found.Some? then out + [found.value] else out)
  {
    hide IsShared;
    var next := if found.Some? then out + [found.value] else out;
    assert forall i :: 0 <= i < |out| ==> out[i] in out && out[i].hash in done;
    forall s: SharedParent
      ensures s in next <==> IsShared(sha256d, st, minLegs, filter, s) && s.hash in done + {p}
    {
    }
  }

  lemma SharedUnderHash(st: Store, minLegs: nat, filter: Option<u32>, p: Digest)
    ensures SharedUnder(st, minLegs, filter, p).Some? ==> SharedUnder(st, minLegs, filter, p).value.hash == p
  {
  }

  // The sort of the listing.

  predicate SortedShared(s: seq<SharedParent>) {
    forall i, j :: 0 <= i < j < |s| ==> !Better(s[j], s[i])
  }

  /** Inserts behind every entry that is at least as good. */
  function InsertShared(s: seq<SharedParent>, x: SharedParent): seq<SharedParent> {
    if s != [] && Better(x, s[|s| - 1]) then InsertShared(s[..|s| - 1], x) + [s[|s| - 1]] else s + [x]
  }

  lemma {:induction false} InsertSharedMembers(s: seq<SharedParent>, x: SharedParent)
    ensures forall y :: y in InsertShared(s, x) <==> y in s || y == x
    ensures |InsertShared(s, x)| == |s| + 1
  {
    hide Better;
    if s != [] && Better(x, s[|s| - 1]) {
      InsertSharedMembers(s[..|s| - 1], x);
      assert s == s[..|s| - 1] + [s[|s| - 1]];
    }
  }

  lemma BetterOrder(a: SharedParent, b: SharedParent, c: SharedParent)
    ensures Better(a, b) ==> !Better(b, a)
    ensures !Better(a, b) && !Better(b, c) ==> !Better(a, c)
  {
  }

  lemma {:induction false} InsertSharedKeeps(s: seq<SharedParent>, x: SharedParent)
    requires SortedShared(s)
    requires forall i, j :: 0 <= i < j < |s| ==> s[i].hash != s[j].hash
    requires forall y :: y in s ==> y.hash != x.hash
    ensures SortedShared(InsertShared(s, x))
    ensures var t := InsertShared(s, x); forall i, j :: 0 <= i < j < |t| ==> t[i].hash != t[j].hash
  {
    hide Better;
    var n := |s| - 1;
    if s != [] && Better(x, s[n]) {
      InsertSharedKeeps(s[..n], x);
      InsertSharedMembers(s[..n], x);
      var t := InsertShared(s[..n], x);
      hide InsertShared;
      BetterOrder(x, s[n], x);
      forall i | 0 <= i < |t|
        ensures !Better(s[n], t[i]) && t[i].hash != s[n].hash
      {
        assert t[i] in t;
        if t[i] in s[..n] {
          var k :| 0 <= k < n && s[..n][k] == t[i];
          assert !Better(s[n], s[k]);
        } else {
          assert s[n] in s;
        }
      }
    } else {
      forall i | 0 <= i < |s|
        ensures !Better(x, s[i]) && s[i].hash != x.hash
      {
        assert s[i] in s;
        BetterOrder(x, s[n], s[i]);
        assert i < n ==> !Better(s[n], s[i]);
      }
    }
  }

  // ---------------------------------------------------------------- stats

  /** The distinct chains of a cached group. */
  function ChainsIn(list: seq<StoredBlock>): set<u32> { set b | b in list :: b.chainId }

  /** `stats().sibling_groups`: mainnet parents in the cache whose group spans two chains. */
  function SiblingGroups(st: Store): set<Digest> {
    set p | p in st.memParents && st.memParents[p].state == 1 && p in st.memGroups && |ChainsIn(st.memGroups[p])| >= 2
  }

  /** The counter of `stats` is the total of the shared-parent query at two legs, in every state where
      tables and caches agree. */
  lemma StatsCountShared(sha256d: HashFn, st: Store, all: seq<SharedParent>)
    requires Consistent(sha256d, st) && SharedListing(sha256d, st, 2, None, all)
    ensures |SiblingGroups(st)| == |all|
  {
    SharedTotal(sha256d, st, 2, None, all);
    SiblingGroupsAreShared(sha256d, st);
  }

  lemma SiblingGroupsAreShared(sha256d: HashFn, st: Store)
    requires Consistent(sha256d, st)
    ensures SiblingGroups(st) == SharedHashes(sha256d, st, 2, None)
  {
    forall p
      ensures p in SiblingGroups(st) <==> p in SharedHashes(sha256d, st, 2, None)
    {
      GroupChains(sha256d, st, p);
      hide ChainsIn, ChainsUnder, GroupsOk, IndexOk, RowsOk;
    }
  }

  lemma GroupChains(sha256d: HashFn, st: Store, p: Digest)
    requires Consistent(sha256d, st)
    ensures ChainsIn(GroupOf(st.memGroups, p)) == ChainsUnder(sha256d, st, p, None)
  {
    var list := GroupOf(st.memGroups, p);
    CachedGroupOk(sha256d, st, p);
    RowsAgree(sha256d, st);
    hide Consistent, NoDuplicates;
    forall c
      ensures c in ChainsIn(list) <==> c in ChainsUnder(sha256d, st, p, None)
    {
      if c in ChainsIn(list) {
        var b :| b in list && b.chainId == c;
        assert Under(sha256d, st, p, None, KeyOf(b));
      }
      if c in ChainsUnder(sha256d, st, p, None) {
        var k :| k in st.blocks && Under(sha256d, st, p, None, k) && k.0 == c;
        assert st.blocks[k] in list && KeyOf(st.blocks[k]) == k;
      }
    }
  }

  // Per-chain block counts.

  datatype ChainStats = ChainStats(blocks: nat, minHeight: nat, maxHeight: nat)

  ghost function HeightsIn(keys: set<Key>, c: u32): set<nat> { set k | k in keys && k.0 == c :: k.1 }

  /** One entry per chain with blocks: how many, the lowest and the highest. */
  ghost predicate StatsMean(keys: set<Key>, stats: map<u32, ChainStats>) {
    && (forall k :: k in keys ==> k.0 in stats)
    && (forall c :: c in stats ==> ChainStatsMean(HeightsIn(keys, c), stats[c]))
  }

  ghost predicate ChainStatsMean(heights: set<nat>, s: ChainStats) {
    && s.blocks == |heights| && s.minHeight in heights && s.maxHeight in heights
    && forall h :: h in heights ==> s.minHeight <= h <= s.maxHeight
  }

  function Max(n: nat, m: nat): nat { if n < m then m else n }

  function Counted(stats: map<u32, ChainStats>, k: Key): map<u32, ChainStats> {
    stats[k.0 := if k.0 in stats
                 then ChainStats(stats[k.0].blocks + 1, Min(stats[k.0].minHeight, k.1), Max(stats[k.0].maxHeight, k.1))
                 else ChainStats(1, k.1, k.1)]
  }

  lemma CountStep(keys: set<Key>, stats: map<u32, ChainStats>, k: Key)
    requires StatsMean(keys, stats) && k !in keys
    ensures StatsMean(keys + {k}, Counted(stats, k))
  {
    var next := Counted(stats, k);
    forall c | c in next
      ensures ChainStatsMean(HeightsIn(keys + {k}, c), next[c])
    {
      HeightsGrow(keys, k, c);
      if c == k.0 && c !in stats {
        assert HeightsIn(keys, c) == {};
      }
    }
  }

  lemma HeightsGrow(keys: set<Key>, k: Key, c: u32)
    requires k !in keys
    ensures HeightsIn(keys + {k}, c) == HeightsIn(keys, c) + (if k.0 == c then {k.1} else {})
    ensures k.0 == c ==> k.1 !in HeightsIn(keys, c)
  {
    assert forall j :: j in keys && j.0 == k.0 && j.1 == k.1 ==> j == k;
    assert k in keys + {k};
  }
}
