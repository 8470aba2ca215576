/** The store: the durable tables, the memory caches beside them, and every change the indexer makes
    to both, as functions on one value. */
module Store {
  import opened Bytes
  import opened U256
  import opened Commitment

  datatype StoredBlock = StoredBlock(hashLe: Digest, chainId: u32, height: nat, header: BlockHeader, wire: Bytes)

  /** state: 0 unprobed, 1 mainnet, 2 trial. */
  datatype StoredParent = StoredParent(
    hash: Digest, header: Bytes, ltcHeight: Option<nat>, state: nat, work: Digest)

  /** Canonical key of a stored block: chain id and height. */
  type Key = (u32, nat)

  function KeyOf(b: StoredBlock): Key { (b.chainId, b.height) }

  /** Table order: by chain, then by height. */
  function KeyRank(k: Key): (nat, nat, nat) { (0, k.0, k.1) }

  datatype Store = Store(
    blocks: map<Key, StoredBlock>,
    siblings: set<(Digest, Key)>,
    parents: map<Digest, StoredParent>,
    cursors: map<u32, nat>,
    memBlocks: map<Key, StoredBlock>,
    memParents: map<Digest, StoredParent>,
    memGroups: map<Digest, seq<StoredBlock>>,
    memCursors: map<u32, nat>)

  const EMPTY: Store := Store(map[], {}, map[], map[], map[], map[], map[], map[])

  function ParentOf(sha256d: HashFn, b: StoredBlock): Option<Digest> {
    if b.header.aux.Some? then Some(sha256d(b.header.aux.value.parentHeader)) else None
  }

  // ---------------------------------------------------------------- insert

  /** The work recorded for a new parent; a target that cannot be decoded counts as the easiest. */
  function ParentWork(header: Bytes): Digest
    requires |header| >= 76
  {
    var target := ExpandTarget(U32At(header, 72));
    WordLimit(32);
    BeBytes(Work(if target.Some? then Be(target.value) else TWO_256 - 1), 32)
  }

  function NewParent(sha256d: HashFn, header: Bytes): StoredParent
    requires |header| >= 76
  {
    StoredParent(sha256d(header), header, None, 0, ParentWork(header))
  }

  predicate HasKey(list: seq<StoredBlock>, k: Key) {
    exists i :: 0 <= i < |list| && KeyOf(list[i]) == k
  }

  /** A row the insert accepts: it carries a witness whose parent header reaches its `nBits`. */
  predicate Insertable(b: StoredBlock) {
    b.header.aux.Some? && |b.header.aux.value.parentHeader| >= 76
  }

  function GroupOf(groups: map<Digest, seq<StoredBlock>>, p: Digest): seq<StoredBlock> {
    if p in groups then groups[p] else []
  }

  /** Pushes a row onto its parent's cached list, unless its key is there already. */
  function AddSibling(sha256d: HashFn, groups: map<Digest, seq<StoredBlock>>, b: StoredBlock): map<Digest,
      seq<StoredBlock>>
    requires b.header.aux.Some?
  {
    var p := ParentOf(sha256d, b).value;
    var list := GroupOf(groups, p);
    groups[p := if HasKey(list, KeyOf(b)) then list else list + [b]]
  }

  /** One row of `insert_blocks`. An occupied key keeps its old sibling row and its old cached sibling. */
  function InsertRow(sha256d: HashFn, st: Store, b: StoredBlock): Store
    requires Insertable(b)
  {
    var p := ParentOf(sha256d, b).value;
    st.(blocks := st.blocks[KeyOf(b) := b],
        siblings := st.siblings + {(p, KeyOf(b))},
        memBlocks := st.memBlocks[KeyOf(b) := b],
        memGroups := AddSibling(sha256d, st.memGroups, b),
        memParents := if p in st.memParents then st.memParents
                      else st.memParents[p := NewParent(sha256d, b.header.aux.value.parentHeader)])
  }

  function InsertRows(sha256d: HashFn, st: Store, rows: seq<StoredBlock>): Store
    requires forall i :: 0 <= i < |rows| ==> Insertable(rows[i])
  {
    if rows == [] then st
    else InsertRow(sha256d, InsertRows(sha256d, st, rows[..|rows| - 1]), rows[|rows| - 1])
  }

  // ---------------------------------------------------------------- rollback and prune

  /** The rows a rollback or a prune removes from one chain. */
  datatype Cut = From(chain: u32, height: nat) | Below(chain: u32, height: nat)

  predicate Hits(cut: Cut, k: Key) {
    k.0 == cut.chain && (if cut.From? then k.1 >= cut.height else k.1 < cut.height)
  }

  function CutKeys(m: map<Key, StoredBlock>, cut: Cut): set<Key> {
    set k | k in m && Hits(cut, k)
  }

  /** The parents whose group can change: those of the cached rows that are removed. */
  function Touched(sha256d: HashFn, m: map<Key, StoredBlock>, cut: Cut): set<Digest> {
    set k | k in m && Hits(cut, k) && ParentOf(sha256d, m[k]).Some? :: ParentOf(sha256d, m[k]).value
  }

  /** `retain` on a cached sibling list. */
  function Retain(list: seq<StoredBlock>, cut: Cut): seq<StoredBlock> {
    if list == [] then []
    else
      var rest := Retain(list[..|list| - 1], cut);
      if Hits(cut, KeyOf(list[|list| - 1])) then rest else rest + [list[|list| - 1]]
  }

  function RetainAll(groups: map<Digest, seq<StoredBlock>>, touched: set<Digest>, cut: Cut)
    : map<Digest, seq<StoredBlock>>
  {
    map p | p in groups :: if p in touched then Retain(groups[p], cut) else groups[p]
  }

  /** The touched groups that a rollback leaves empty. */
  function Emptied(groups: map<Digest, seq<StoredBlock>>, touched: set<Digest>, cut: Cut): set<Digest> {
    set p | p in touched && p in groups && Retain(groups[p], cut) == []
  }

  function SaturatingPred(n: nat): nat { if n == 0 then 0 else n - 1 }

  /** `get_meta` reads the cache first, then the table. */
  function CursorOf(st: Store, chain: u32): Option<nat> {
    if chain in st.memCursors then Some(st.memCursors[chain])
    else if chain in st.cursors then Some(st.cursors[chain])
    else None
  }

  function SetCursor(st: Store, chain: u32, height: nat): Store {
    st.(cursors := st.cursors[chain := height], memCursors := st.memCursors[chain := height])
  }

  /** `rollback_from` on rows, indexes and caches; the sibling rows are found through the cached parents. */
  function RollbackRows(sha256d: HashFn, st: Store, cut: Cut): Store {
    var touched := Touched(sha256d, st.memBlocks, cut);
    var emptied := Emptied(st.memGroups, touched, cut);
    st.(blocks := st.blocks - CutKeys(st.blocks, cut),
        siblings := (set s | s in st.siblings && !(s.0 in st.memParents && Hits(cut, s.1))),
        memBlocks := st.memBlocks - CutKeys(st.memBlocks, cut),
        memGroups := RetainAll(st.memGroups, touched, cut) - emptied,
        memParents := st.memParents - emptied,
        parents := st.parents - emptied)
  }

  function RollbackFrom(sha256d: HashFn, st: Store, chain: u32, from: nat): Store {
    var st' := RollbackRows(sha256d, st, From(chain, from));
    var cursor := CursorOf(st, chain);
    if cursor.Some? && cursor.value >= from then SetCursor(st', chain, SaturatingPred(from)) else st'
  }

  /** `prune_before`. On disk a bound of zero still removes height zero. */
  function PruneBefore(sha256d: HashFn, st: Store, chain: u32, below: nat): Store {
    var cut, diskCut := Below(chain, below), Below(chain, SaturatingPred(below) + 1);
    var removed := CutKeys(st.blocks, diskCut);
    st.(blocks := st.blocks - removed,
        siblings := st.siblings
                    - (set k | k in removed && ParentOf(sha256d, st.blocks[k]).Some?
                         :: (ParentOf(sha256d, st.blocks[k]).value, k)),
        memBlocks := st.memBlocks - CutKeys(st.memBlocks, cut),
        memGroups := RetainAll(st.memGroups, Touched(sha256d, st.memBlocks, cut), cut))
  }

  // ---------------------------------------------------------------- classification, reopening

  function Classified(p: StoredParent, ltcHeight: Option<nat>): StoredParent {
    p.(ltcHeight := ltcHeight, state := if ltcHeight.Some? then 1 else 2)
  }

  /** `classify_parent`: a parent that is no longer cached is skipped. */
  function ClassifyParent(st: Store, p: Digest, ltcHeight: Option<nat>): Store {
    if p in st.memParents then
      var c := Classified(st.memParents[p], ltcHeight);
      st.(memParents := st.memParents[p := c], parents := st.parents[p := c])
    else st
  }

  function Unclassified(st: Store): set<Digest> {
    set p | p in st.memParents && st.memParents[p].state == 0
  }

  lemma MapsEqual<K, V>(m: map<K, V>, n: map<K, V>)
    requires forall k :: k in m <==> k in n
    requires forall k :: k in m ==> m[k] == n[k]
    ensures m == n
  {
  }

  // ---------------------------------------------------------------- agreement of tables and caches

  /** Every stored row sits under its own key and carries a witness. */
  ghost predicate RowsOk(st: Store) {
    forall k :: k in st.blocks ==> KeyOf(st.blocks[k]) == k && st.blocks[k].header.aux.Some?
  }

  /** The sibling index is the set of (parent, chain, height) of the stored rows. */
  ghost predicate IndexOk(sha256d: HashFn, st: Store) {
    forall s :: s in st.siblings <==> s.1 in st.blocks && ParentOf(sha256d, st.blocks[s.1]) == Some(s.0)
  }

  ghost predicate NoDuplicates(list: seq<StoredBlock>) {
    forall i, j :: 0 <= i < j < |list| ==> KeyOf(list[i]) != KeyOf(list[j])
  }

  /** A cached list holds exactly the stored rows of its parent, each once. */
  ghost predicate GroupOk(sha256d: HashFn, st: Store, p: Digest, list: seq<StoredBlock>) {
    && NoDuplicates(list)
    && (forall b :: b in list ==>
          KeyOf(b) in st.blocks && st.blocks[KeyOf(b)] == b && ParentOf(sha256d, b) == Some(p))
    && (forall k :: k in st.blocks && ParentOf(sha256d, st.blocks[k]) == Some(p) ==> st.blocks[k] in list)
  }

  ghost predicate GroupsOk(sha256d: HashFn, st: Store) {
    && (forall p :: p in st.memGroups ==> GroupOk(sha256d, st, p, st.memGroups[p]))
    && (forall k :: k in st.blocks && ParentOf(sha256d, st.blocks[k]).Some? ==>
          ParentOf(sha256d, st.blocks[k]).value in st.memGroups)
  }

  /** The parent table holds exactly the classified cached parents. */
  ghost predicate ParentsOk(sha256d: HashFn, st: Store) {
    && (forall p :: p in st.memParents ==>
          var e := st.memParents[p];
          && e.hash == p == sha256d(e.header) && e.state <= 2 && (e.state == 1 <==> e.ltcHeight.Some?))
    && (forall p :: p in st.parents <==> p in st.memParents && st.memParents[p].state != 0)
    && (forall p :: p in st.parents ==> st.parents[p] == st.memParents[p])
  }

  /** Tables and caches say the same; but a parent that was never written may be missing. */
  ghost predicate Consistent(sha256d: HashFn, st: Store) {
    && st.memBlocks == st.blocks
    && st.memCursors == st.cursors
    && RowsOk(st)
    && IndexOk(sha256d, st)
    && GroupsOk(sha256d, st)
    && ParentsOk(sha256d, st)
  }

  ghost predicate GroupsHaveParents(st: Store) {
    forall p :: p in st.memGroups ==> p in st.memParents
  }

  /** Tables and caches agree: they are consistent, and the parent of every cached group is cached. */
  ghost predicate Agrees(sha256d: HashFn, st: Store) {
    Consistent(sha256d, st) && GroupsHaveParents(st)
  }

  lemma EmptyAgrees(sha256d: HashFn)
    ensures Agrees(sha256d, EMPTY)
  {
  }
}
