/** Copy-on-write contract state: any stack of overlays over a base store. */
module ContractStore {
  import opened Basics

  type Store = map<string, string>

  /** Absent is the missing parent of a detached overlay. */
  datatype Db =
    | Absent
    | Base(store: Store)
    | Overlay(parent: Db, writes: Store, deletes: set<string>)

  /** No key is both written and deleted in one overlay. */
  ghost predicate Clean(db: Db) {
    db.Overlay? ==> db.writes.Keys !! db.deletes && Clean(db.parent)
  }

  /** The state a reader of the stack should see. */
  function View(db: Db): Store {
    match db
    case Absent => map[]
    case Base(store) => store
    case Overlay(parent, writes, deletes) => (View(parent) - deletes) + writes
  }

  function Get(s: Store, key: string): Option<string> {
    if key in s then Some(s[key]) else None
  }

  // ------------------------------------------------------------ operations

  function Read(db: Db, key: string): Option<string> {
    match db
    case Absent => None
    case Base(store) => Get(store, key)
    case Overlay(parent, writes, deletes) =>
      if key in deletes then None
      else if key in writes then Some(writes[key])
      else Read(parent, key)
  }

  function Write(db: Db, key: string, value: string): Db {
    match db
    case Absent => Absent
    case Base(store) => Base(store[key := value])
    case Overlay(parent, writes, deletes) => Overlay(parent, writes[key := value], deletes - {key})
  }

  function Delete(db: Db, key: string): Db {
    match db
    case Absent => Absent
    case Base(store) => Base(store - {key})
    case Overlay(parent, writes, deletes) => Overlay(parent, writes - {key}, deletes + {key})
  }

  function StoragePrefix(addr: string): string { "contract:" + addr + ":storage:" }

  /** One storage entry of a batch, in the order the batch is walked. */
  datatype Entry = Entry(addr: string, key: string, value: string)

  function WriteBatch(db: Db, batch: seq<Entry>): Db
    decreases |batch|
  {
    if batch == [] then db
    else
      var e := batch[|batch| - 1];
      Write(WriteBatch(db, batch[..|batch| - 1]), StoragePrefix(e.addr) + e.key, e.value)
  }

  predicate HasPrefix(prefix: string, key: string) {
    |prefix| <= |key| && key[..|prefix|] == prefix
  }

  /** The storage entries of one contract in a flat state. */
  function StorageOf(s: Store, addr: string): Store {
    var prefix := StoragePrefix(addr);
    map sub | sub in Suffixes(prefix, s.Keys) :: s[prefix + sub]
  }

  function Suffixes(prefix: string, keys: set<string>): (r: set<string>)
    ensures forall sub :: sub in r <==> prefix + sub in keys
  {
    var r := set key | key in keys && HasPrefix(prefix, key) :: key[|prefix|..];
    assert forall sub :: sub in r <==> prefix + sub in keys by {
      SuffixesExact(prefix, keys);
    }
    r
  }

  lemma SuffixesExact(prefix: string, keys: set<string>)
    ensures var r := set key | key in keys && HasPrefix(prefix, key) :: key[|prefix|..];
            forall sub :: sub in r <==> prefix + sub in keys
  {
    var r := set key | key in keys && HasPrefix(prefix, key) :: key[|prefix|..];
    forall sub ensures sub in r <==> prefix + sub in keys {
      if sub in r {
        var key :| key in keys && HasPrefix(prefix, key) && key[|prefix|..] == sub;
        assert key == key[..|prefix|] + key[|prefix|..];
      }
      var full := prefix + sub;
      assert full[..|prefix|] == prefix && full[|prefix|..] == sub;
    }
  }

  /** The parent's entries, minus the deleted ones, plus the written ones. */
  function LoadAllStorage(db: Db, addr: string): Store {
    match db
    case Absent => map[]
    case Base(store) => StorageOf(store, addr)
    case Overlay(parent, writes, deletes) =>
      (LoadAllStorage(parent, addr) - Suffixes(StoragePrefix(addr), deletes)) + StorageOf(writes, addr)
  }

  function PutAll(db: Db, writes: Store, deletes: set<string>): Db {
    match db
    case Absent => Absent
    case Base(store) => Base((store - deletes) + writes)
    case Overlay(parent, w, d) => Overlay(parent, (w - deletes) + writes, (d + deletes) - writes.Keys)
  }

  /** The parent once the overlay has been flushed into it. */
  function Flush(db: Db): Option<Db> {
    if db.Overlay? && !db.parent.Absent? then Some(PutAll(db.parent, db.writes, db.deletes)) else None
  }

  // ------------------------------------------------------------ refinement

  lemma {:induction false} ReadSeesView(db: Db, key: string)
    requires Clean(db)
    ensures Read(db, key) == Get(View(db), key)
  {
    if db.Overlay? {
      ReadSeesView(db.parent, key);
    }
  }

  lemma StorageOfAt(s: Store, addr: string, sub: string)
    ensures sub in StorageOf(s, addr) <==> StoragePrefix(addr) + sub in s
    ensures sub in StorageOf(s, addr) ==> StorageOf(s, addr)[sub] == s[StoragePrefix(addr) + sub]
  {
  }

  /** LoadAllStorage sees what it would see on the flattened state. */
  lemma {:induction false} LoadAllSeesView(db: Db, addr: string)
    requires Clean(db)
    ensures LoadAllStorage(db, addr) == StorageOf(View(db), addr)
  {
    match db
    case Absent =>
    case Base(_) =>
    case Overlay(parent, writes, deletes) =>
      LoadAllSeesView(parent, addr);
      var all, flat := LoadAllStorage(db, addr), StorageOf(View(db), addr);
      forall sub ensures Get(all, sub) == Get(flat, sub) {
        StorageOfAt(View(parent), addr, sub);
        StorageOfAt(writes, addr, sub);
        StorageOfAt(View(db), addr, sub);
      }
      SameGets(all, flat);
  }

  lemma SameGets(a: Store, b: Store)
    requires forall k :: Get(a, k) == Get(b, k)
    ensures a == b
  {
    forall k ensures (k in a <==> k in b) && (k in a ==> a[k] == b[k]) {
      assert Get(a, k) == Get(b, k);
    }
  }

  /** What an operation does to a flat state. */
  datatype Op = Put(key: string, value: string) | Remove(key: string) | Batch(entries: seq<Entry>)

  function Apply(db: Db, op: Op): Db {
    match op
    case Put(key, value) => Write(db, key, value)
    case Remove(key) => Delete(db, key)
    case Batch(entries) => WriteBatch(db, entries)
  }

  function PutEntries(s: Store, entries: seq<Entry>): Store
    decreases |entries|
  {
    if entries == [] then s
    else
      var e := entries[|entries| - 1];
      PutEntries(s, entries[..|entries| - 1])[StoragePrefix(e.addr) + e.key := e.value]
  }

  function Direct(s: Store, op: Op): Store {
    match op
    case Put(key, value) => s[key := value]
    case Remove(key) => s - {key}
    case Batch(entries) => PutEntries(s, entries)
  }

  lemma WriteRefines(db: Db, key: string, value: string)
    requires Clean(db) && !db.Absent?
    ensures Clean(Write(db, key, value)) && View(Write(db, key, value)) == View(db)[key := value]
    ensures SameBelow(db, Write(db, key, value))
  {
  }

  lemma DeleteRefines(db: Db, key: string)
    requires Clean(db) && !db.Absent?
    ensures Clean(Delete(db, key)) && View(Delete(db, key)) == View(db) - {key}
    ensures SameBelow(db, Delete(db, key))
  {
  }

  /** The same kind of database, over an untouched parent. */
  ghost predicate SameBelow(db: Db, t: Db) {
    && db.Overlay? == t.Overlay? && db.Base? == t.Base?
    && (db.Overlay? ==> t.parent == db.parent)
  }

  lemma {:induction false} BatchRefines(db: Db, entries: seq<Entry>)
    requires Clean(db) && !db.Absent?
    ensures var t := WriteBatch(db, entries);
            Clean(t) && View(t) == PutEntries(View(db), entries) && SameBelow(db, t)
    decreases |entries|
  {
    if entries != [] {
      var front, e := entries[..|entries| - 1], entries[|entries| - 1];
      BatchRefines(db, front);
      WriteRefines(WriteBatch(db, front), StoragePrefix(e.addr) + e.key, e.value);
    }
  }

  lemma ApplyRefines(db: Db, op: Op)
    requires Clean(db) && !db.Absent?
    ensures Clean(Apply(db, op)) && View(Apply(db, op)) == Direct(View(db), op) && SameBelow(db, Apply(db, op))
  {
    match op
    case Put(key, value) => WriteRefines(db, key, value);
    case Remove(key) => DeleteRefines(db, key);
    case Batch(entries) => BatchRefines(db, entries);
  }

  lemma PutAllRefines(db: Db, writes: Store, deletes: set<string>)
    requires Clean(db) && !db.Absent? && writes.Keys !! deletes
    ensures var t := PutAll(db, writes, deletes);
            Clean(t) && View(t) == (View(db) - deletes) + writes && SameBelow(db, t)
  {
    if db.Overlay? {
      var below := View(db.parent);
      assert ((below - ((db.deletes + deletes) - writes.Keys)) + ((db.writes - deletes) + writes))
          == (((below - db.deletes) + db.writes) - deletes) + writes;
    }
  }

  /** Flushing leaves the parent equal to the child's view and touches nothing
      below the parent. */
  lemma FlushRefines(db: Db)
    requires Clean(db) && Flush(db).Some?
    ensures var t := Flush(db).value;
            Clean(t) && !t.Absent? && View(t) == View(db) && SameBelow(db.parent, t)
    ensures View(Overlay(Flush(db).value, db.writes, db.deletes)) == View(db)
  {
    PutAllRefines(db.parent, db.writes, db.deletes);
    FlushTwice(View(db.parent), db.writes, db.deletes);
  }

  lemma FlushTwice(s: Store, writes: Store, deletes: set<string>)
    ensures var t := (s - deletes) + writes; writes.Keys !! deletes ==> (t - deletes) + writes == t
  {
  }

  // ------------------------------------------------- sessions of any depth

  /** A session works on the top of the stack, opens overlays, and ends them by
      flushing into the parent or by dropping them. */
  datatype Event = Do(op: Op) | Open | Commit | Discard

  function Step(db: Db, ev: Event): Db {
    match ev
    case Do(op) => Apply(db, op)
    case Open => Overlay(db, map[], {})
    case Commit => if Flush(db).Some? then Flush(db).value else db
    case Discard => if db.Overlay? && !db.parent.Absent? then db.parent else db
  }

  function Run(db: Db, events: seq<Event>): Db
    decreases |events|
  {
    if events == [] then db else Step(Run(db, events[..|events| - 1]), events[|events| - 1])
  }

  /** Plain snapshots, newest last: what a store that copied itself whole on every
      Open would hold. */
  type Snapshots = seq<Store>

  function SnapshotStep(s: Snapshots, ev: Event): Snapshots
    requires s != []
  {
    var top := s[|s| - 1];
    match ev
    case Do(op) => s[..|s| - 1] + [Direct(top, op)]
    case Open => s + [top]
    case Commit => if |s| == 1 then s else s[..|s| - 2] + [top]
    case Discard => if |s| == 1 then s else s[..|s| - 1]
  }

  function SnapshotRun(s: Snapshots, events: seq<Event>): (r: Snapshots)
    requires s != []
    ensures r != []
    decreases |events|
  {
    if events == [] then s else SnapshotStep(SnapshotRun(s, events[..|events| - 1]), events[|events| - 1])
  }

  ghost predicate Rooted(db: Db) {
    db.Base? || (db.Overlay? && Rooted(db.parent))
  }

  /** The views of the whole stack, base first. */
  function Views(db: Db): Snapshots {
    match db
    case Overlay(parent, _, _) => Views(parent) + [View(db)]
    case _ => [View(db)]
  }

  lemma StepRefines(db: Db, ev: Event)
    requires Clean(db) && Rooted(db)
    ensures Clean(Step(db, ev)) && Rooted(Step(db, ev))
    ensures Views(Step(db, ev)) == SnapshotStep(Views(db), ev)
  {
    match ev
    case Do(op) =>
      ApplyRefines(db, op);
      if db.Overlay? {
        assert Views(db)[..|Views(db)| - 1] == Views(db.parent);
      } else {
        assert Views(db)[..0] == [];
      }
    case Open =>
      assert (View(db) - {}) + map[] == View(db);
      assert Views(db)[|Views(db)| - 1] == View(db);
    case Commit =>
      if Flush(db).Some? {
        FlushRefines(db);
        CommitViews(db);
      }
    case Discard =>
      if db.Overlay? {
        assert Views(db)[..|Views(db)| - 1] == Views(db.parent);
      }
  }

  lemma CommitViews(db: Db)
    requires Rooted(db) && Flush(db).Some? && View(Flush(db).value) == View(db) && SameBelow(db.parent, Flush(db).value)
    ensures var s := Views(db); |s| > 1 && Views(Flush(db).value) == s[..|s| - 2] + [s[|s| - 1]]
  {
    var s, t := Views(db), Flush(db).value;
    assert s == Views(db.parent) + [View(db)];
    if t.Overlay? {
      assert s[..|s| - 2] == Views(t.parent);
    } else {
      assert s[..0] == [];
    }
  }

  /** For every stack of overlays and every session: each level of the stack reads
      as if the operations had run directly on a full copy of the state.  In
      particular nothing reaches a level before its child is flushed into it. */
  lemma {:induction false} SessionsRefineSnapshots(db: Db, events: seq<Event>)
    requires Clean(db) && Rooted(db)
    ensures Clean(Run(db, events)) && Rooted(Run(db, events))
    ensures Views(Run(db, events)) == SnapshotRun(Views(db), events)
    decreases |events|
  {
    if events != [] {
      var front := events[..|events| - 1];
      SessionsRefineSnapshots(db, front);
      StepRefines(Run(db, front), events[|events| - 1]);
    }
  }

  /** Work in an overlay that is then dropped leaves no trace. */
  lemma {:induction false} WorkStaysAbove(db: Db, ops: seq<Op>)
    requires Clean(db) && Rooted(db)
    ensures var t := Run(Overlay(db, map[], {}), Dos(ops)); t.Overlay? && t.parent == db && Clean(t)
    decreases |ops|
  {
    if ops != [] {
      var front := ops[..|ops| - 1];
      WorkStaysAbove(db, front);
      assert Dos(ops)[..|ops| - 1] == Dos(front);
      ApplyRefines(Run(Overlay(db, map[], {}), Dos(front)), ops[|ops| - 1]);
    }
  }

  function Dos(ops: seq<Op>): seq<Event> { seq(|ops|, i requires 0 <= i < |ops| => Do(ops[i])) }

  // ------------------------------------------------------- reading back

  /** A write is read back, a deleted key is gone, and every other key reads as
      before, at any depth. */
  lemma ReadsBack(db: Db, key: string, value: string, other: string)
    requires Clean(db) && !db.Absent?
    ensures Read(Write(db, key, value), other) == if other == key then Some(value) else Read(db, other)
    ensures Read(Delete(db, key), other) == if other == key then None else Read(db, other)
  {
  }

  /** The last value a batch gives a contract's key. */
  function Latest(entries: seq<Entry>, addr: string, key: string): Option<string>
    decreases |entries|
  {
    if entries == [] then None
    else
      var e := entries[|entries| - 1];
      if e.addr == addr && e.key == key then Some(e.value) else Latest(entries[..|entries| - 1], addr, key)
  }

  predicate Plain(addr: string) { ':' !in addr }

  lemma ColonAt(a: string, k: string, b: string, l: string)
    requires StoragePrefix(a) + k == StoragePrefix(b) + l
    ensures |a| < |b| ==> b[|a|] == ':'
    ensures |a| == |b| ==> a == b && k == l
  {
    var s, t, n := StoragePrefix(a) + k, StoragePrefix(b) + l, |"contract:"|;
    assert s[n..n + |a|] == a && s[n + |a|] == ':' && s[|StoragePrefix(a)|..] == k;
    assert t[n..n + |b|] == b && t[|StoragePrefix(b)|..] == l;
    if |a| < |b| {
      assert t[n..n + |b|][|a|] == t[n + |a|];
    }
  }

  /** No two keys of contracts share a place, whatever the keys hold. */
  lemma PlacesDiffer(a: string, k: string, b: string, l: string)
    requires Plain(a) && Plain(b) && StoragePrefix(a) + k == StoragePrefix(b) + l
    ensures a == b && k == l
  {
    ColonAt(a, k, b, l);
    ColonAt(b, l, a, k);
  }

  /** After a batch a contract's storage holds the last value the batch gave each
      of its keys, and every other key, of it and of other contracts, as before. */
  lemma {:induction false} SavedIsLoaded(db: Db, entries: seq<Entry>, addr: string, key: string)
    requires Clean(db) && !db.Absent? && Plain(addr) && forall e :: e in entries ==> Plain(e.addr)
    ensures Get(LoadAllStorage(WriteBatch(db, entries), addr), key)
         == match Latest(entries, addr, key) case Some(value) => Some(value) case None => Get(LoadAllStorage(db, addr), key)
    decreases |entries|
  {
    if entries != [] {
      var front, e := entries[..|entries| - 1], entries[|entries| - 1];
      assert e in entries;
      SavedIsLoaded(db, front, addr, key);
      BatchRefines(db, front);
      OneSaved(WriteBatch(db, front), e, addr, key);
    }
  }

  lemma OneSaved(db: Db, e: Entry, addr: string, key: string)
    requires Clean(db) && !db.Absent? && Plain(addr) && Plain(e.addr)
    ensures Get(LoadAllStorage(Write(db, StoragePrefix(e.addr) + e.key, e.value), addr), key)
         == if e.addr == addr && e.key == key then Some(e.value) else Get(LoadAllStorage(db, addr), key)
  {
    var place := StoragePrefix(e.addr) + e.key;
    var t := Write(db, place, e.value);
    WriteRefines(db, place, e.value);
    LoadAllSeesView(db, addr);
    LoadAllSeesView(t, addr);
    StorageOfAt(View(db), addr, key);
    StorageOfAt(View(t), addr, key);
    if StoragePrefix(addr) + key == place {
      PlacesDiffer(addr, key, e.addr, e.key);
    }
  }
}
