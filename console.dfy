/**
 * The command interpreter `HBNBCommand` (console.py:34-206) over the object
 * store. The store's dictionary is held here as its keys in insertion
 * order (`order`) and the key-to-instance map (`objects`); the handlers
 * delete from it and write into the stored instances in place. Every
 * method is proved to leave the abstract view `View()` exactly where the
 * matching function of `Handlers` says.
 */
module Console {
  import opened Wrappers
  import opened Objects
  import opened Lexer
  import opened Normaliser
  import opened Handlers

  /** Keys listed once each, exactly the stored keys, and no instance stored
      under two keys. */
  ghost predicate StoreInvariant(order: seq<string>, objects: map<string, Instance>) {
    && Distinct(order)
    && (forall k :: k in order ==> k in objects)
    && (forall k :: k in objects ==> k in order)
    && (forall k1, k2 :: k1 in objects && k2 in objects && k1 != k2 ==> objects[k1] != objects[k2])
  }

  /** The snapshot of every stored instance. */
  ghost function Snapshots(objects: map<string, Instance>): (m: map<string, Record>)
    reads objects.Values
    ensures m.Keys == objects.Keys
    ensures forall k :: k in objects ==> m[k] == objects[k].Snapshot()
  {
    map k | k in objects :: objects[k].Snapshot()
  }

  lemma SnapshotsRemove(objects: map<string, Instance>, key: string)
    ensures Snapshots(objects - {key}) == Snapshots(objects) - {key}
  {
  }

  lemma SnapshotsAdd(objects: map<string, Instance>, key: string, obj: Instance)
    ensures Snapshots(objects[key := obj]) == Snapshots(objects)[key := obj.Snapshot()]
  {
  }

  /** The loop of the dictionary form of `update` (console.py:200-205):
      each entry is assigned in turn, converted when its attribute is declared
      with a scalar type. */
  method MergeInto(obj: Instance, decl: Schema, entries: map<string, Value>)
    modifies obj
    ensures obj.attrs == MergeEntries(decl, old(obj.attrs), entries)
  {
    ghost var start := obj.attrs;
    var pending := entries.Keys;
    ghost var done: map<string, Value> := map[];
    while pending != {}
      invariant pending <= entries.Keys && done.Keys == entries.Keys - pending
      invariant forall k :: k in done ==> done[k] == entries[k]
      invariant obj.attrs == MergeEntries(decl, start, done)
      decreases pending
    {
      var k :| k in pending;
      MergeStep(decl, start, done, k, entries[k]);
      obj.attrs := obj.attrs[k := AssignEntry(decl, k, entries[k])];
      pending := pending - {k};
      done := done[k := entries[k]];
    }
    assert done == entries;
  }

  lemma SnapshotsUpdate(objects: map<string, Instance>, key: string, before: map<string, Record>)
    requires key in objects && before.Keys == objects.Keys
    requires forall k :: k in objects && k != key ==> before[k] == objects[k].Snapshot()
    ensures Snapshots(objects) == before[key := objects[key].Snapshot()]
  {
  }

  lemma InsertKeepsInvariant(order: seq<string>, objects: map<string, Instance>, key: string, obj: Instance)
    requires StoreInvariant(order, objects) && obj !in objects.Values
    ensures StoreInvariant(if key in objects then order else order + [key], objects[key := obj])
  {
    if key !in objects {
      assert key !in order;
    }
  }

  lemma RemoveKeepsInvariant(order: seq<string>, objects: map<string, Instance>, key: string)
    requires StoreInvariant(order, objects)
    ensures StoreInvariant(Remove(order, key), objects - {key})
  {
  }

  class Console {
    var order: seq<string>
    var objects: map<string, Instance>
    /** Class-level attribute declarations of every class. */
    const schemas: Schemas

    ghost predicate Valid()
      reads this
    {
      StoreInvariant(order, objects)
    }

    /** The store as the handlers' functions see it. */
    ghost function View(): (st: Store)
      reads this, objects.Values
      ensures st.order == order && st.records.Keys == objects.Keys
      ensures forall k :: k in objects ==> st.records[k] == objects[k].Snapshot()
    {
      Store(order, Snapshots(objects))
    }

    /** The console over a loaded store. */
    constructor (order: seq<string>, objects: map<string, Instance>, schemas: Schemas)
      requires StoreInvariant(order, objects)
      ensures Valid()
      ensures this.order == order && this.objects == objects && this.schemas == schemas
    {
      this.order := order;
      this.objects := objects;
      this.schemas := schemas;
    }

    /** `do_create` (console.py:86-97); `freshId` is the id the new instance
        is given. */
    method Create(arg: string, freshId: string) returns (out: Output)
      requires Valid()
      modifies this
      ensures Valid()
      ensures Outcome(out, View()) == CreateSpec(Fparse(arg), old(View()), freshId)
    {
      var tokens := Fparse(arg);
      if |tokens| == 0 {
        out := Report(ClassNameMissing);
      } else if tokens[0] !in Registry {
        out := Report(ClassDoesntExist);
      } else {
        ghost var before := View();
        var obj := new Instance(tokens[0], freshId);
        assert Snapshots(objects) == before.records;
        Insert(Key(tokens[0], freshId), obj);
        out := NewId(freshId);
      }
    }

    /** Stores `obj` under `key`: a new key goes last, an existing one keeps
        its place (Python's `dict` assignment). */
    method Insert(key: string, obj: Instance)
      requires Valid() && obj !in objects.Values
      modifies this
      ensures Valid()
      ensures order == if key in old(objects) then old(order) else old(order) + [key]
      ensures objects == old(objects)[key := obj]
      ensures Snapshots(objects) == old(Snapshots(objects))[key := obj.Snapshot()]
    {
      InsertKeepsInvariant(order, objects, key, obj);
      SnapshotsAdd(objects, key, obj);
      var stored := objects[key := obj];
      ghost var after := Snapshots(stored);
      if key !in objects {
        order := order + [key];
      }
      objects := stored;
      assert Snapshots(stored) == after;
    }

    /** `del` of the entry at `key`. */
    method Delete(key: string)
      requires Valid()
      modifies this
      ensures Valid()
      ensures order == Remove(old(order), key) && objects == old(objects) - {key}
      ensures Snapshots(objects) == old(Snapshots(objects)) - {key}
    {
      RemoveKeepsInvariant(order, objects, key);
      SnapshotsRemove(objects, key);
      var rest := objects - {key};
      ghost var after := Snapshots(rest);
      objects := rest;
      order := Remove(order, key);
      assert Snapshots(rest) == after;
    }

    /** `do_show` (console.py:99-114). */
    method Show(arg: string) returns (out: Output)
      requires Valid()
      ensures out == ShowSpec(Fparse(arg), View())
    {
      var tokens := Fparse(arg);
      if |tokens| == 0 {
        out := Report(ClassNameMissing);
      } else if tokens[0] !in Registry {
        out := Report(ClassDoesntExist);
      } else if |tokens| == 1 {
        out := Report(InstanceIdMissing);
      } else if Key(tokens[0], tokens[1]) !in objects {
        out := Report(NoInstanceFound);
      } else {
        out := Shown(objects[Key(tokens[0], tokens[1])].Snapshot());
      }
    }

    /** `do_destroy` (console.py:116-131). */
    method Destroy(arg: string) returns (out: Output)
      requires Valid()
      modifies this
      ensures Valid()
      ensures Outcome(out, View()) == DestroySpec(Fparse(arg), old(View()))
    {
      var tokens := Fparse(arg);
      if |tokens| == 0 {
        out := Report(ClassNameMissing);
      } else if tokens[0] !in Registry {
        out := Report(ClassDoesntExist);
      } else if |tokens| == 1 {
        out := Report(InstanceIdMissing);
      } else if Key(tokens[0], tokens[1]) !in objects {
        out := Report(NoInstanceFound);
      } else {
        Delete(Key(tokens[0], tokens[1]));
        out := Silent;
      }
    }

    /** `do_all` (console.py:133-147): the loop over the store's values. */
    method All(arg: string) returns (out: Output)
      requires Valid()
      ensures out == AllSpec(Fparse(arg), View())
    {
      var tokens := Fparse(arg);
      if |tokens| > 0 && tokens[0] !in Registry {
        out := Report(ClassDoesntExist);
        return;
      }
      var listed: seq<Record> := [];
      ghost var records := View().records;
      for i := 0 to |order|
        invariant listed == Selected(order[..i], records, Wanted(tokens))
      {
        SelectedStep(order, records, Wanted(tokens), i);
        var obj := objects[order[i]];
        assert records[order[i]] == obj.Snapshot();
        if |tokens| > 0 && tokens[0] == obj.cls {
          listed := listed + [obj.Snapshot()];
        } else if |tokens| == 0 {
          listed := listed + [obj.Snapshot()];
        }
      }
      assert order[..|order|] == order;
      out := Listed(listed);
    }

    /** `do_count` (console.py:149-157): the counting loop. The source
        reads the first token in the loop body without checking for it, so
        it must be present unless nothing is stored. */
    method Count(arg: string) returns (out: Output)
      requires Valid()
      requires Fparse(arg) != [] || objects == map[]
      ensures out == CountSpec(Fparse(arg), View())
    {
      var tokens := Fparse(arg);
      assert order != [] ==> objects != map[] by {
        if order != [] {
          assert order[0] in objects;
        }
      }
      var count := 0;
      ghost var records := View().records;
      for i := 0 to |order|
        invariant count == |Selected(order[..i], records, Wanted(tokens))|
      {
        SelectedStep(order, records, Wanted(tokens), i);
        assert records[order[i]].cls == objects[order[i]].cls;
        if tokens[0] == objects[order[i]].cls {
          count := count + 1;
        }
      }
      assert order[..|order|] == order;
      SelectedAll(View(), Wanted(tokens));
      out := Counted(count);
    }

    /** `do_update` (console.py:159-206). `evaluate` stands for Python's
        `eval` of the third token. */
    method Update(arg: string, evaluate: string -> Literal) returns (out: Output)
      requires Valid()
      requires !UpdateCrashes(Fparse(arg), View(), evaluate)
      modifies objects.Values
      ensures Valid()
      ensures Outcome(out, View()) == UpdateSpec(Fparse(arg), old(View()), schemas, evaluate)
    {
      var tokens := Fparse(arg);
      if |tokens| == 0 {
        return Report(ClassNameMissing);
      }
      if tokens[0] !in Registry {
        return Report(ClassDoesntExist);
      }
      if |tokens| == 1 {
        return Report(InstanceIdMissing);
      }
      if Key(tokens[0], tokens[1]) !in objects {
        return Report(NoInstanceFound);
      }
      if |tokens| == 2 {
        return Report(AttributeNameMissing);
      }
      if |tokens| == 3 && evaluate(tokens[2]).Undefined? {
        return Report(ValueMissing);
      }
      var key := Key(tokens[0], tokens[1]);
      var obj := objects[key];
      var decl := Declared(schemas, obj.cls);
      if |tokens| == 4 {
        obj.attrs := obj.attrs[tokens[2] := AssignText(decl, tokens[2], tokens[3])];
      } else {
        var lit := evaluate(tokens[2]);
        if lit.Mapping? {
          MergeInto(obj, decl, lit.entries);
        }
      }
      out := Silent;
      ghost var before := old(View()).records;
      forall k | k in objects && k != key ensures before[k] == objects[k].Snapshot() {
        assert objects[k] != obj;
      }
      SnapshotsUpdate(objects, key, before);
    }

    /** `default` (console.py:56-75): the rewritten call, or the
        unknown-syntax line. */
    method Default(line: string, evaluate: string -> Literal) returns (out: Output)
      requires Valid()
      requires !DefaultCrashes(line, View(), evaluate)
      modifies this, objects.Values
      ensures Valid()
      ensures Outcome(out, View()) == DefaultSpec(line, old(View()), schemas, evaluate)
    {
      match Normalise(line)
      case NoCall =>
        out := UnknownSyntax(line);
      case Call(h, arg) =>
        match h
        case DoAll => out := All(arg);
        case DoShow => out := Show(arg);
        case DoDestroy => out := Destroy(arg);
        case DoCount => out := Count(arg);
        case DoUpdate => out := Update(arg, evaluate);
    }
  }
}
