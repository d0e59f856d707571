/** The contract database object: a durable store, or an overlay over a parent
    database. */
module ContractDbObject {
  import opened Basics
  import M = ContractStore

  class ContractDb {
    const parent: ContractDb?
    const isOverlay: bool
    var store: M.Store
    var overlay: M.Store
    var overlayDeletes: set<string>
    ghost const Repr: set<ContractDb>

    /** A database never appears among the databases below it. */
    ghost predicate Valid()
      reads this, Repr
      decreases Repr
    {
      && this in Repr
      && overlay.Keys !! overlayDeletes
      && (!isOverlay ==> parent == null)
      && (parent != null ==> parent in Repr && parent.Repr <= Repr - {this} && parent.Valid())
    }

    ghost function Now(): M.Db
      requires Valid()
      reads Repr
      decreases Repr
    {
      if isOverlay then M.Overlay(if parent == null then M.Absent else parent.Now(), overlay, overlayDeletes)
      else M.Base(store)
    }

    constructor Durable()
      ensures Valid() && fresh(Repr) && Now() == M.Base(map[])
    {
      parent, isOverlay, store, overlay, overlayDeletes := null, false, map[], map[], {};
      Repr := {this};
    }

    /** A copy-on-write view of the parent. */
    constructor NewOverlay(p: ContractDb?)
      requires p != null ==> p.Valid()
      ensures Valid() && parent == p && isOverlay
      ensures Repr == {this} + if p == null then {} else p.Repr
      ensures Now() == M.Overlay(if p == null then M.Absent else p.Now(), map[], {})
    {
      parent, isOverlay, store, overlay, overlayDeletes := p, true, map[], map[], {};
      Repr := {this} + if p == null then {} else p.Repr;
    }

    lemma NowIsClean()
      requires Valid()
      ensures M.Clean(Now())
      decreases Repr
    {
      if parent != null {
        parent.NowIsClean();
      }
    }

    method Write(key: string, value: string)
      requires Valid()
      modifies this
      ensures Valid() && Now() == M.Write(old(Now()), key, value)
    {
      if isOverlay {
        overlay := overlay[key := value];
        overlayDeletes := overlayDeletes - {key};
      } else {
        store := store[key := value];
      }
    }

    method Delete(key: string)
      requires Valid()
      modifies this
      ensures Valid() && Now() == M.Delete(old(Now()), key)
    {
      if isOverlay {
        overlay := overlay - {key};
        overlayDeletes := overlayDeletes + {key};
      } else {
        store := store - {key};
      }
    }

    method Read(key: string) returns (value: Option<string>)
      requires Valid()
      ensures value == M.Read(Now(), key)
      ensures value == M.Get(M.View(Now()), key)
      decreases Repr
    {
      NowIsClean();
      M.ReadSeesView(Now(), key);
      if !isOverlay {
        return M.Get(store, key);
      }
      if key in overlayDeletes {
        return None;
      }
      if key in overlay {
        return Some(overlay[key]);
      }
      if parent == null {
        return None;
      }
      value := parent.Read(key);
    }

    /** The batch in whatever order the caller's maps are walked. */
    method SaveStorageBatch(writes: seq<M.Entry>)
      requires Valid()
      modifies this
      ensures Valid() && Now() == M.WriteBatch(old(Now()), writes)
    {
      for i := 0 to |writes|
        invariant Valid()
        invariant Now() == M.WriteBatch(old(Now()), writes[..i])
      {
        assert writes[..i + 1][..i] == writes[..i];
        Write(M.StoragePrefix(writes[i].addr) + writes[i].key, writes[i].value);
      }
      assert writes[..|writes|] == writes;
    }

    method LoadAllStorage(addr: string) returns (out: M.Store)
      requires Valid()
      ensures out == M.LoadAllStorage(Now(), addr)
      ensures out == M.StorageOf(M.View(Now()), addr)
      decreases Repr
    {
      NowIsClean();
      M.LoadAllSeesView(Now(), addr);
      if !isOverlay {
        out := Stored(store, addr, map[]);
        return;
      }
      out := map[];
      if parent != null {
        out := parent.LoadAllStorage(addr);
      }
      out := Forget(out, addr);
      out := Stored(overlay, addr, out);
    }

    /** Drops the deleted entries, visited in any order. */
    method Forget(entries: M.Store, addr: string) returns (out: M.Store)
      ensures out == entries - M.Suffixes(M.StoragePrefix(addr), overlayDeletes)
    {
      out := entries;
      var prefix, todo := M.StoragePrefix(addr), overlayDeletes;
      ghost var done: set<string> := {};
      while todo != {}
        invariant todo + done == overlayDeletes
        invariant out == entries - M.Suffixes(prefix, done)
      {
        var key :| key in todo;
        ghost var before := done;
        todo, done := todo - {key}, done + {key};
        if M.HasPrefix(prefix, key) {
          out := out - {key[|prefix|..]};
          assert prefix + key[|prefix|..] == key;
        }
        assert M.Suffixes(prefix, done) == M.Suffixes(prefix, before) + if M.HasPrefix(prefix, key) then {key[|prefix|..]} else {} by {
          forall sub ensures prefix + sub == key <==> M.HasPrefix(prefix, key) && sub == key[|prefix|..] {
            Split(prefix, sub);
          }
        }
      }
    }

    static lemma Split(prefix: string, sub: string)
      ensures M.HasPrefix(prefix, prefix + sub) && (prefix + sub)[|prefix|..] == sub
    {
    }

    /** Adds the contract's entries of a flat map, visited in any order. */
    static method Stored(source: M.Store, addr: string, entries: M.Store) returns (out: M.Store)
      ensures out == entries + M.StorageOf(source, addr)
    {
      out := entries;
      var prefix, todo := M.StoragePrefix(addr), source.Keys;
      while todo != {}
        invariant todo <= source.Keys
        invariant out == entries + M.StorageOf(source - todo, addr)
      {
        var key :| key in todo;
        StoreOne(entries, source - todo, key, source[key], addr);
        TakeOne(source, todo, key);
        todo := todo - {key};
        if M.HasPrefix(prefix, key) {
          out := out[key[|prefix|..] := source[key]];
        }
      }
      assert source - {} == source;
    }

    static lemma TakeOne(source: M.Store, todo: set<string>, key: string)
      requires key in todo && todo <= source.Keys
      ensures source - (todo - {key}) == (source - todo)[key := source[key]]
    {
      var a, b := source - (todo - {key}), (source - todo)[key := source[key]];
      assert a.Keys == b.Keys;
    }

    static lemma DropOne(source: M.Store, done: set<string>, key: string)
      ensures source - (done + {key}) == (source - done) - {key}
    {
    }

    static lemma StoreOne(entries: M.Store, done: M.Store, key: string, value: string, addr: string)
      ensures var prefix, before := M.StoragePrefix(addr), entries + M.StorageOf(done, addr);
              entries + M.StorageOf(done[key := value], addr)
              == if M.HasPrefix(prefix, key) then before[key[|prefix|..] := value] else before
    {
      StorageOfUpdate(done, key, value, addr);
    }

    static lemma StorageOfUpdate(s: M.Store, key: string, value: string, addr: string)
      ensures var prefix := M.StoragePrefix(addr);
              M.StorageOf(s[key := value], addr)
              == if M.HasPrefix(prefix, key) then M.StorageOf(s, addr)[key[|prefix|..] := value] else M.StorageOf(s, addr)
    {
      var prefix := M.StoragePrefix(addr);
      forall sub ensures prefix + sub == key <==> M.HasPrefix(prefix, key) && sub == key[|prefix|..] {
        Split(prefix, sub);
      }
    }

    /** An overlay with a parent can be flushed, and what flushing gives. */
    lemma ParentIsThere()
      requires Valid() && isOverlay && parent != null
      ensures M.Flush(Now()) == Some(M.PutAll(parent.Now(), overlay, overlayDeletes))
      ensures M.Flush(Now()).Some? && M.View(M.PutAll(parent.Now(), overlay, overlayDeletes)) == M.View(Now())
    {
      assert Now() == M.Overlay(parent.Now(), overlay, overlayDeletes);
      assert !parent.Now().Absent?;
      NowIsClean();
      M.FlushRefines(Now());
    }

    /** Publishes the overlay into its parent: key by key into an overlay, in one
        batch into the durable store. */
    method FlushOverlay() returns (ok: bool)
      requires Valid()
      modifies parent
      ensures Valid() && ok == M.Flush(old(Now())).Some?
      ensures ok ==> parent.Now() == M.Flush(old(Now())).value && M.View(parent.Now()) == M.View(old(Now()))
      ensures !ok ==> Now() == old(Now())
      ensures overlay == old(overlay) && overlayDeletes == old(overlayDeletes)
    {
      if !isOverlay || parent == null {
        return false;
      }
      ParentIsThere();
      if parent.isOverlay {
        FlushIntoOverlay();
      } else {
        parent.store := (parent.store - overlayDeletes) + overlay;
      }
      ok := true;
    }

    method FlushIntoOverlay()
      requires Valid() && isOverlay && parent != null && parent.isOverlay
      modifies parent
      ensures Valid() && parent.Now() == M.PutAll(old(parent.Now()), overlay, overlayDeletes)
      ensures overlay == old(overlay) && overlayDeletes == old(overlayDeletes)
    {
      ghost var before := parent.Now();
      parent.DeleteAll(overlayDeletes);
      ghost var between := parent.Now();
      parent.WriteAll(overlay);
      assert between == M.PutAll(before, map[], overlayDeletes);
      assert parent.Now() == M.PutAll(between, overlay, {});
    }

    method DeleteAll(deletes: set<string>)
      requires Valid() && isOverlay
      modifies this
      ensures Valid() && Now() == M.PutAll(old(Now()), map[], deletes)
    {
      ghost var before := Now();
      var todo := deletes;
      while todo != {}
        invariant Valid() && todo <= deletes
        invariant Now() == M.PutAll(before, map[], deletes - todo)
      {
        var key :| key in todo;
        ghost var done := deletes - todo;
        todo := todo - {key};
        assert deletes - todo == done + {key};
        DeleteOneMore(before, done, key);
        Delete(key);
      }
      assert deletes - todo == deletes;
    }

    static lemma DeleteOneMore(db: M.Db, done: set<string>, key: string)
      requires db.Overlay?
      ensures M.PutAll(db, map[], done + {key}) == M.Delete(M.PutAll(db, map[], done), key)
    {
      DropOne(db.writes, done, key);
      assert (db.writes - done) + map[] == db.writes - done;
      assert (db.writes - (done + {key})) + map[] == db.writes - (done + {key});
      assert (db.deletes + (done + {key})) - {} == ((db.deletes + done) - {}) + {key};
    }

    static lemma WriteOneMore(db: M.Db, done: M.Store, key: string, value: string)
      requires db.Overlay?
      ensures M.PutAll(db, done[key := value], {}) == M.Write(M.PutAll(db, done, {}), key, value)
    {
      assert (db.writes - {}) + done[key := value] == ((db.writes - {}) + done)[key := value];
      assert (db.deletes + {}) - done[key := value].Keys == ((db.deletes + {}) - done.Keys) - {key};
    }

    method WriteAll(writes: M.Store)
      requires Valid() && isOverlay
      modifies this
      ensures Valid() && Now() == M.PutAll(old(Now()), writes, {})
    {
      ghost var before := Now();
      var todo := writes.Keys;
      assert writes - todo == map[];
      while todo != {}
        invariant Valid() && todo <= writes.Keys
        invariant Now() == M.PutAll(before, writes - todo, {})
      {
        var key :| key in todo;
        TakeOne(writes, todo, key);
        WriteOneMore(before, writes - todo, key, writes[key]);
        todo := todo - {key};
        Write(key, writes[key]);
      }
      assert writes - todo == writes;
    }
  }
}
