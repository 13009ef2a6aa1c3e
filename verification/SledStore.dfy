/**
 The storage engine: per-world append logs, atom bodies and an id index in one ordered map.
 Functions say what each operation computes from the map; the class below works in place.
 */
module SledStore {
  import opened Prelude
  import opened Text
  import opened OrderedMap
  import opened Atoms
  import opened SledKeys

  newtype Byte = x: int | 0 <= x < 256

  datatype IndexEntry = IndexEntry(world: WorldKey, seqNo: nat)

  datatype LogFrame = LogFrame(atomId: AtomId, checksum: nat, len: nat)

  /**
   A stored value. Atoms hold reals here, so byte strings alone are too few to encode them all: the
   first three cases make room. No operation looks at the cases; only the codec below does.
   */
  datatype Value = Body(atom: Atom) | Frame(frame: LogFrame) | Entry(entry: IndexEntry) | Raw(bytes: seq<Byte>)

  type Db = map<string, Value>

  /** Serialisation, size and checksum, as arbitrary total functions. */
  datatype Codec = Codec(
    encodeAtom: Atom -> Value,
    decodeAtom: Value -> Option<Atom>,
    encodeFrame: LogFrame -> Value,
    decodeFrame: Value -> Option<LogFrame>,
    encodeIndex: IndexEntry -> Value,
    decodeIndex: Value -> Option<IndexEntry>,
    size: Value -> nat,
    checksum: Value -> nat)
  {
    ghost predicate RoundTrips() {
      && (forall a :: decodeAtom(encodeAtom(a)) == Some(a))
      && (forall f :: decodeFrame(encodeFrame(f)) == Some(f))
      && (forall e :: decodeIndex(encodeIndex(e)) == Some(e))
    }
  }

  /** A codec for any size and checksum: each encoder has a case of its own. */
  function PlainCodec(size: Value -> nat, checksum: Value -> nat): Codec {
    Codec(
      (a: Atom) => Body(a), (v: Value) => if v.Body? then Some(v.atom) else None,
      (f: LogFrame) => Frame(f), (v: Value) => if v.Frame? then Some(v.frame) else None,
      (e: IndexEntry) => Entry(e), (v: Value) => if v.Entry? then Some(v.entry) else None,
      size, checksum)
  }

  /** Codecs that round-trip exist, whatever the checksum. */
  lemma CodecsExist(size: Value -> nat, checksum: Value -> nat)
    ensures PlainCodec(size, checksum).RoundTrips()
    ensures PlainCodec(size, checksum).checksum == checksum
  {
  }

  datatype StorageError = WorldMismatch(found: WorldKey, target: WorldKey) | DecodeFailure

  // ---------------------------------------------------------------- reading

  /** World discovery: the second segment of every key below `world/`. */
  function Worlds(db: Db): set<WorldKey> {
    set k | k in db && Below(WORLD, k) && WorldOf(k).Some? :: WorldOf(k).value
  }

  /** One past the last key's sequence number; zero for an empty or unreadable end. */
  function NextSeq(db: Db, w: WorldKey): nat {
    var keys := ScanPrefix(db, LogPrefix(w));
    if keys == [] then 0
    else match SeqOf(keys[|keys| - 1])
         case None => 0
         case Some(n) => n + 1
  }

  function AtomFromStore(c: Codec, db: Db, id: AtomId, w: WorldKey): Result<Option<Atom>, StorageError> {
    if AtomKey(w, id) !in db then Ok(None)
    else match c.decodeAtom(db[AtomKey(w, id)])
         case None => Err(DecodeFailure)
         case Some(a) => Ok(Some(a))
  }

  function ScanKeys(c: Codec, db: Db, w: WorldKey, f: AtomFilter, keys: seq<string>, got: seq<Atom>)
    : Result<seq<Atom>, StorageError>
    requires forall k :: k in keys ==> k in db
    decreases |keys|
  {
    if keys == [] then Ok(got)
    else match c.decodeFrame(db[keys[0]])
         case None => ScanKeys(c, db, w, f, keys[1..], got)
         case Some(frame) =>
           match AtomFromStore(c, db, frame.atomId, w)
           case Err(e) => Err(e)
           case Ok(None) => ScanKeys(c, db, w, f, keys[1..], got)
           case Ok(Some(a)) =>
             if !MatchesFilter(a, f) then ScanKeys(c, db, w, f, keys[1..], got)
             else if f.limit.Some? && |got| + 1 >= f.limit.value then Ok(got + [a])
             else ScanKeys(c, db, w, f, keys[1..], got + [a])
  }

  function Scan(c: Codec, db: Db, w: WorldKey, f: AtomFilter): Result<seq<Atom>, StorageError> {
    if f.world.Some? && f.world.value != w then Ok([])
    else ScanKeys(c, db, w, f, ScanPrefix(db, LogPrefix(w)), [])
  }

  function IndexedLookup(c: Codec, db: Db, id: AtomId): Result<Option<Atom>, StorageError> {
    if IndexKey(id) !in db then Ok(None)
    else match c.decodeIndex(db[IndexKey(id)])
         case None => Ok(None)
         case Some(entry) => AtomFromStore(c, db, id, entry.world)
  }

  /** The world segment the fallback search reads off a key, empty if there is none. */
  function SegmentOne(k: string): (w: WorldKey)
    ensures '/' !in w
  {
    match After(k, '/')
    case None => ""
    case Some(rest) => UpTo(rest, '/')
  }

  function SearchKeys(c: Codec, db: Db, id: AtomId, keys: seq<string>): Result<Option<Atom>, StorageError> {
    if keys == [] then Ok(None)
    else if !EndsWith(keys[0], ATOMS + id) then SearchKeys(c, db, id, keys[1..])
    else match AtomFromStore(c, db, id, SegmentOne(keys[0]))
         case Ok(None) => SearchKeys(c, db, id, keys[1..])
         case r => r
  }

  function Lookup(c: Codec, db: Db, id: AtomId): Result<Option<Atom>, StorageError> {
    match IndexedLookup(c, db, id)
    case Ok(None) => SearchKeys(c, db, id, ScanPrefix(db, WORLD))
    case r => r
  }

  function Prepend(front: seq<Atom>, r: Result<seq<Atom>, StorageError>): Result<seq<Atom>, StorageError> {
    match r
    case Err(e) => Err(e)
    case Ok(rest) => Ok(front + rest)
  }

  function Listing(found: Option<Atom>): seq<Atom> {
    if found.Some? then [found.value] else []
  }

  function GetByIds(c: Codec, db: Db, ids: seq<AtomId>): Result<seq<Atom>, StorageError> {
    if ids == [] then Ok([])
    else match Lookup(c, db, ids[0])
         case Err(e) => Err(e)
         case Ok(found) => Prepend(Listing(found), GetByIds(c, db, ids[1..]))
  }

  // ---------------------------------------------------------------- appending

  /** One `insert` call: the unit that a crash either completes or does not start. */
  datatype Write = Put(key: string, value: Value)

  function Apply(db: Db, writes: seq<Write>): Db
    decreases |writes|
  {
    if writes == [] then db
    else Apply(db[writes[0].key := writes[0].value], writes[1..])
  }

  function FrameFor(c: Codec, a: Atom): LogFrame {
    LogFrame(a.id, c.checksum(c.encodeAtom(a)), c.size(c.encodeAtom(a)))
  }

  function AtomWrites(c: Codec, w: WorldKey, n: nat, a: Atom): (r: seq<Write>)
    ensures |r| == 3
  {
    [Put(AtomKey(w, a.id), c.encodeAtom(a)),
     Put(LogKey(w, n), c.encodeFrame(FrameFor(c, a))),
     Put(IndexKey(a.id), c.encodeIndex(IndexEntry(w, n)))]
  }

  function PutAtom(c: Codec, db: Db, w: WorldKey, n: nat, a: Atom): Db {
    db[AtomKey(w, a.id) := c.encodeAtom(a)]
      [LogKey(w, n) := c.encodeFrame(FrameFor(c, a))]
      [IndexKey(a.id) := c.encodeIndex(IndexEntry(w, n))]
  }

  /** The inserts of one `append_atoms` call, up to the first atom of another world. */
  function AppendWrites(c: Codec, w: WorldKey, n: nat, atoms: seq<Atom>): (r: seq<Write>)
    ensures |r| <= 3 * |atoms|
    decreases |atoms|
  {
    if atoms == [] || atoms[0].world != w then []
    else AtomWrites(c, w, n, atoms[0]) + AppendWrites(c, w, n + 1, atoms[1..])
  }

  lemma {:induction false} AppendWritesLength(c: Codec, w: WorldKey, n: nat, atoms: seq<Atom>)
    requires forall a :: a in atoms ==> a.world == w
    ensures |AppendWrites(c, w, n, atoms)| == 3 * |atoms|
    decreases |atoms|
  {
    hide AtomWrites;
    if atoms != [] {
      assert atoms[0] in atoms && forall a :: a in atoms[1..] ==> a in atoms;
      AppendWritesLength(c, w, n + 1, atoms[1..]);
    }
  }

  function Append(c: Codec, db: Db, w: WorldKey, atoms: seq<Atom>): Db {
    Apply(db, AppendWrites(c, w, NextSeq(db, w), atoms))
  }

  lemma {:induction false} ApplyConcat(db: Db, x: seq<Write>, y: seq<Write>)
    ensures Apply(db, x + y) == Apply(Apply(db, x), y)
    decreases |x|
  {
    if x == [] {
      assert x + y == y;
    } else {
      assert (x + y)[1..] == x[1..] + y;
      ApplyConcat(db[x[0].key := x[0].value], x[1..], y);
    }
  }

  // ---------------------------------------------------------------- deleting

  function Without(db: Db, keys: seq<string>): Db {
    db - set k | k in keys
  }

  /** The body and index keys a deletion removes first, in call order. */
  function BodyRemovals(w: WorldKey, ids: seq<AtomId>): (r: seq<string>)
    ensures |r| == 2 * |ids|
    ensures forall k :: k in r <==> exists i :: 0 <= i < |ids| && (k == AtomKey(w, ids[i]) || k == IndexKey(ids[i]))
  {
    if ids == [] then []
    else
      assert forall i :: 0 < i < |ids| ==> ids[i] == ids[1..][i - 1];
      [AtomKey(w, ids[0]), IndexKey(ids[0])] + BodyRemovals(w, ids[1..])
  }

  predicate FrameNames(c: Codec, db: Db, ids: seq<AtomId>, k: string) {
    k in db && c.decodeFrame(db[k]).Some? && c.decodeFrame(db[k]).value.atomId in ids
  }

  /** The frames a deletion removes after the bodies. */
  function FrameRemovals(c: Codec, db: Db, w: WorldKey, ids: seq<AtomId>): seq<string> {
    Keep((k: string) => FrameNames(c, db, ids, k), ScanPrefix(db, LogPrefix(w)))
  }

  /** Every key one `delete_atoms` call removes, in the order of its `remove` calls. */
  function Removals(c: Codec, db: Db, w: WorldKey, ids: seq<AtomId>): seq<string> {
    var bodies := BodyRemovals(w, ids);
    bodies + FrameRemovals(c, Without(db, bodies), w, ids)
  }

  function Delete(c: Codec, db: Db, w: WorldKey, ids: seq<AtomId>): Db {
    Without(db, Removals(c, db, w, ids))
  }

  // ---------------------------------------------------------------- repair and index rebuild

  predicate GoodFrame(c: Codec, db: Db, w: WorldKey, v: Value) {
    match c.decodeFrame(v)
    case None => false
    case Some(f) => AtomKey(w, f.atomId) in db && c.checksum(db[AtomKey(w, f.atomId)]) == f.checksum
  }

  /** The sequence number of the first bad frame among the keys that carry one. */
  function FirstBad(c: Codec, db: Db, w: WorldKey, keys: seq<string>): Option<nat>
    requires forall k :: k in keys ==> k in db
  {
    if keys == [] then None
    else match SeqOf(keys[0])
         case None => FirstBad(c, db, w, keys[1..])
         case Some(n) => if GoodFrame(c, db, w, db[keys[0]]) then FirstBad(c, db, w, keys[1..]) else Some(n)
  }

  predicate AtOrPast(k: string, bad: nat) { SeqOf(k).Some? && SeqOf(k).value >= bad }

  /** The log keys that repairing `w` removes. */
  function Doomed(c: Codec, db: Db, w: WorldKey): (r: set<string>)
    ensures forall k :: k in r ==> k in db && Below(LogPrefix(w), k)
  {
    match FirstBad(c, db, w, ScanPrefix(db, LogPrefix(w)))
    case None => {}
    case Some(bad) => set k | k in db && Below(LogPrefix(w), k) && AtOrPast(k, bad)
  }

  function RepairWorld(c: Codec, db: Db, w: WorldKey): Db {
    db - Doomed(c, db, w)
  }

  function DoomedIn(c: Codec, db: Db, worlds: set<WorldKey>): set<string> {
    set w, k | w in worlds && k in Doomed(c, db, w) :: k
  }

  /** Repair of every discovered world at once. */
  function Repair(c: Codec, db: Db): Db {
    db - DoomedIn(c, db, Worlds(db))
  }

  /** A frame that the index rebuild visits under world `w`. */
  predicate Listed(c: Codec, db: Db, w: WorldKey, k: string) {
    k in db && Below(LogPrefix(w), k) && SeqOf(k).Some? && c.decodeFrame(db[k]).Some?
  }

  function ListedId(c: Codec, db: Db, k: string): AtomId
    requires k in db && c.decodeFrame(db[k]).Some?
  {
    c.decodeFrame(db[k]).value.atomId
  }

  function Entries(c: Codec, db: Db): set<(WorldKey, string)> {
    set w, k | w in Worlds(db) && k in db.Keys && Listed(c, db, w, k) :: (w, k)
  }

  /** `e` accounts for the index entry of `id`. */
  ghost predicate Names(c: Codec, db: Db, e: (WorldKey, string), id: AtomId) {
    e.1 in db && c.decodeFrame(db[e.1]).Some? && ListedId(c, db, e.1) == id
  }

  ghost predicate EntryValue(c: Codec, e: (WorldKey, string), v: Value) {
    SeqOf(e.1).Some? && v == c.encodeIndex(IndexEntry(e.0, SeqOf(e.1).value))
  }

  ghost predicate SameOutsideIndex(db: Db, db': Db) {
    forall k :: !Below(INDEX, k) ==> (k in db <==> k in db') && (k in db ==> db[k] == db'[k])
  }

  /** `db'` holds exactly the index entries that `entries` of `db` account for. */
  ghost predicate IndexFrom(c: Codec, db: Db, entries: set<(WorldKey, string)>, db': Db) {
    && (forall id, e :: e in entries && Names(c, db, e, id) ==> IndexKey(id) in db')
    && (forall id :: IndexKey(id) in db' ==>
          exists e :: e in entries && Names(c, db, e, id) && EntryValue(c, e, db'[IndexKey(id)]))
  }

  /** What any run of the index rebuild may leave: worlds are visited in an arbitrary order. */
  ghost predicate Rebuilt(c: Codec, db: Db, db': Db) {
    SameOutsideIndex(db, db') && IndexFrom(c, db, Entries(c, db), db')
  }

  /** What opening the store on `db` may leave: repair, then rebuild. */
  ghost predicate Reopened(c: Codec, db: Db, db': Db) {
    Rebuilt(c, Repair(c, db), db')
  }
}
