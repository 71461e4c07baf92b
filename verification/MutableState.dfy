// The state of a block as the object that execution changes in place, each operation
// proved to do what the corresponding function on values says.
module MutableState {
  import opened Wrappers
  import opened WorldState
  import opened IntraBlock
  import V = IntraBlock

  class IntraBlockState {
    const db: World
    var objects: map<Address, Object>
    var storage: map<Address, Storage>
    var incarnations: map<Address, nat>
    var journal: seq<Delta>
    var selfDestructs: set<Address>
    var logs: seq<nat>
    var touched: set<Address>
    var refund: int
    var accessedAddresses: set<Address>
    var accessedKeys: set<Slot>

    /** The fields together, as a value. */
    function Value(): (r: State)
      reads this
    {
      State(objects, storage, incarnations, journal, selfDestructs, logs, touched, refund,
            accessedAddresses, accessedKeys)
    }

    constructor (db: World)
      ensures this.db == db && Value() == INITIAL_STATE
    {
      this.db := db;
      objects, storage, incarnations, journal := map[], map[], map[], [];
      selfDestructs, logs, touched, refund, accessedAddresses, accessedKeys := {}, [], {}, 0, {}, {};
    }

    /** Looks an account up, caching it when it comes from the database. */
    method GetObject(a: Address) returns (r: Option<Object>)
      modifies this`objects
      ensures Value() == V.GetObject(db, old(Value()), a)
      ensures r == Load(db, old(Value()), a) == Load(db, Value(), a)
    {
      if a in objects {
        r := Some(objects[a]);
        assert objects == objects[a := objects[a]];
      } else if a in db.accounts {
        var o := Object(Some(db.accounts[a]), Some(db.accounts[a]));
        objects := objects[a := o];
        r := Some(o);
      } else {
        r := None;
      }
    }

    method EnsureObject(a: Address)
      modifies this`objects, this`journal
      ensures Value() == V.EnsureObject(db, old(Value()), a)
    {
      var o := GetObject(a);
      if o.Some? {
        if o.value.current.None? {
          journal := journal + [Update(a, o.value)];
          objects := objects[a := o.value.(current := Some(DEFAULT_ACCOUNT))];
        }
      } else {
        journal := journal + [Create(a)];
        objects := objects[a := Object(None, Some(DEFAULT_ACCOUNT))];
      }
    }

    method Touch(a: Address)
      modifies this`touched, this`journal
      ensures Value() == V.Touch(old(Value()), a)
    {
      var inserted := a !in touched;
      touched := touched + {a};
      if inserted && a != RIPEMD {
        journal := journal + [Touched(a)];
      }
    }

    method SetBalance(a: Address, v: int)
      modifies this
      ensures Value() == V.SetBalance(db, old(Value()), a, v)
    {
      EnsureObject(a);
      var o := objects[a];
      journal := journal + [UpdateBalance(a, o.current.value.balance)];
      objects := objects[a := o.(current := Some(o.current.value.(balance := v)))];
      Touch(a);
    }

    method AddToBalance(a: Address, v: int)
      modifies this
      ensures Value() == V.AddToBalance(db, old(Value()), a, v)
    {
      EnsureObject(a);
      var o := objects[a];
      journal := journal + [UpdateBalance(a, o.current.value.balance)];
      objects := objects[a := o.(current := Some(o.current.value.(balance := o.current.value.balance + v)))];
      Touch(a);
    }

    method SubtractFromBalance(a: Address, v: int)
      modifies this
      ensures Value() == V.SubtractFromBalance(db, old(Value()), a, v)
    {
      EnsureObject(a);
      var o := objects[a];
      journal := journal + [UpdateBalance(a, o.current.value.balance)];
      objects := objects[a := o.(current := Some(o.current.value.(balance := o.current.value.balance - v)))];
      Touch(a);
    }

    method SetNonce(a: Address, nonce: nat)
      modifies this
      ensures Value() == V.SetNonce(db, old(Value()), a, nonce)
    {
      EnsureObject(a);
      var o := objects[a];
      journal := journal + [Update(a, o)];
      objects := objects[a := o.(current := Some(o.current.value.(nonce := nonce)))];
    }

    method SetCode(a: Address, codeHash: nat)
      modifies this
      ensures Value() == V.SetCode(db, old(Value()), a, codeHash)
    {
      EnsureObject(a);
      var o := objects[a];
      journal := journal + [Update(a, o)];
      objects := objects[a := o.(current := Some(o.current.value.(codeHash := codeHash)))];
    }

    method AccessAccount(a: Address) returns (warm: bool)
      modifies this`accessedAddresses, this`journal
      ensures Value() == V.AccessAccount(old(Value()), a)
      ensures warm == (a in old(accessedAddresses))
    {
      warm := a in accessedAddresses;
      if !warm {
        accessedAddresses := accessedAddresses + {a};
        journal := journal + [AccountAccess(a)];
      }
    }

    method AccessStorage(a: Address, k: nat) returns (warm: bool)
      modifies this`accessedKeys, this`journal
      ensures Value() == V.AccessStorage(old(Value()), a, k)
      ensures warm == ((a, k) in old(accessedKeys))
    {
      warm := (a, k) in accessedKeys;
      if !warm {
        accessedKeys := accessedKeys + {(a, k)};
        journal := journal + [StorageAccess(a, k)];
      }
    }

    method RecordSelfdestruct(a: Address)
      modifies this`selfDestructs, this`journal
      ensures Value() == V.RecordSelfdestruct(old(Value()), a)
    {
      if a !in selfDestructs {
        selfDestructs := selfDestructs + {a};
        journal := journal + [Selfdestruct(a)];
      }
    }

    method CreateContract(a: Address)
      modifies this
      ensures Value() == V.CreateContract(db, old(Value()), a)
    {
      var previous := Load(db, Value(), a);
      var current := DEFAULT_ACCOUNT.(balance := Balance(db, Value(), a));
      journal := journal + [NewContract(a, previous, Get(storage, a))];
      incarnations := incarnations[a := (if a in incarnations then incarnations[a] else 0) + 1];
      objects := objects[a := Object(if previous.Some? then previous.value.initial else None, Some(current))];
      storage := storage - {a};
    }

    /** Reads a slot: the current value, else the committed one, else the database's. */
    method GetStorage(a: Address, k: nat, original: bool) returns (v: nat)
      requires WellFormed(db, Value())
      modifies this`objects, this`storage
      ensures Value() == V.CacheSlot(db, old(Value()), a, k, original)
      ensures v == if original then OriginalStorage(db, old(Value()), a, k) else CurrentStorage(db, old(Value()), a, k)
    {
      var o := GetObject(a);
      if o.None? || o.value.current.None? {
        return 0;
      }
      var sto := StorageOf(Value(), a);
      storage := storage[a := sto];
      if !original && k in sto.current {
        return sto.current[k];
      }
      if k in sto.committed {
        return sto.committed[k].original;
      }
      assert o.value.initial == Get(db.accounts, a);
      if o.value.initial.None? || a in incarnations {
        return 0;
      }
      v := ReadSlot(db.storage, (a, k));
      storage := storage[a := sto.(committed := sto.committed[k := Committed(v, v)])];
    }

    method SetStorage(a: Address, k: nat, v: nat)
      requires WellFormed(db, Value())
      modifies this
      ensures Value() == V.SetStorage(db, old(Value()), a, k, v)
    {
      var previous := GetStorage(a, k, false);
      if previous == v {
        return;
      }
      var sto := StorageOf(Value(), a);
      storage := storage[a := sto.(current := sto.current[k := v])];
      journal := journal + [StorageChange(a, k, previous)];
    }

    method AddLog(log: nat)
      modifies this`logs
      ensures Value() == V.AddLog(old(Value()), log)
    {
      logs := logs + [log];
    }

    method AddRefund(amount: int)
      modifies this`refund
      ensures Value() == V.AddRefund(old(Value()), amount)
    {
      refund := refund + amount;
    }

    method SubtractRefund(amount: nat)
      modifies this`refund
      ensures Value() == V.SubtractRefund(old(Value()), amount)
    {
      refund := refund - amount;
    }

    method RevertDelta(d: Delta)
      requires CanRevert(Value(), d)
      modifies this`objects, this`storage, this`incarnations, this`selfDestructs, this`touched
      modifies this`accessedAddresses, this`accessedKeys
      ensures Value() == V.RevertDelta(old(Value()), d)
    {
      match d {
        case Create(a) => objects := objects - {a};
        case Update(a, previous) => objects := objects[a := previous];
        case UpdateBalance(a, b) =>
          var o := objects[a];
          objects := objects[a := o.(current := Some(o.current.value.(balance := b)))];
        case NewContract(a, replaced, wiped) =>
          storage := Put(storage, a, wiped);
          var n := incarnations[a] - 1;
          incarnations := if n == 0 then incarnations - {a} else incarnations[a := n];
          objects := Put(objects, a, replaced);
        case Selfdestruct(a) => selfDestructs := selfDestructs - {a};
        case Touched(a) => touched := touched - {a};
        case StorageChange(a, k, v) =>
          var sto := StorageOf(Value(), a);
          storage := storage[a := sto.(current := sto.current[k := v])];
        case StorageAccess(a, k) => accessedKeys := accessedKeys - {(a, k)};
        case AccountAccess(a) => accessedAddresses := accessedAddresses - {a};
      }
    }

    function TakeSnapshot(): (s: Snapshot)
      reads this
      ensures s == V.TakeSnapshot(Value())
    {
      Snapshot(|journal|, |logs|, refund)
    }

    /** Pops and reverts journal entries, newest first, down to the snapshot. */
    method RevertToSnapshot(s: Snapshot)
      requires Revertible(Value(), s.journalSize) && s.logSize <= |logs|
      modifies this
      ensures Value() == V.RevertToSnapshot(old(Value()), s)
    {
      hide V.RevertDelta, CanRevert;
      while |journal| > s.journalSize
        invariant Revertible(Value(), s.journalSize) && logs == old(logs)
        invariant Unroll(Value(), s.journalSize) == Unroll(old(Value()), s.journalSize)
      {
        ghost var popped := Pop(Value());
        var d := journal[|journal| - 1];
        RevertDelta(d);
        journal := journal[..|journal| - 1];
        assert Value() == popped;
      }
      logs := logs[..s.logSize];
      refund := s.refund;
    }
  }
}
