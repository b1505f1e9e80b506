/**
 * The object store the console works on: the class registry, stored
 * instances with their attribute dictionaries, class-level attribute
 * declarations used for coercion, and the abstract view of the store (its
 * keys in insertion order and a snapshot of every instance).
 */
module Objects {
  import opened Wrappers

  /** The class registry `HBNBCommand.__classes` (console.py:42-50). */
  const Registry: set<string> := {"BaseModel", "User", "State", "City", "Place", "Amenity", "Review"}

  /** The type of a class-level attribute: one of the scalar types the
      dictionary form of `update` recognises, or anything else (a list, a
      method, ...). */
  datatype Kind = StrKind | IntKind | FloatKind | OtherKind

  predicate IsScalar(k: Kind) {
    k != OtherKind
  }

  /** An attribute value: its type and the text it was built from. The
      numbers an `int` or `float` value denotes are not modelled. */
  datatype Value = Value(kind: Kind, text: string)

  /** A string as entered on the command line. */
  function Raw(s: string): Value {
    Value(StrKind, s)
  }

  /** `valtype(v)`: conversion of `v` to type `k`. */
  function Coerce(k: Kind, v: Value): (r: Value)
    ensures r.kind == k && r.text == v.text
    ensures v.kind == k ==> r == v
  {
    Value(k, v.text)
  }

  type Attributes = map<string, Value>

  /** The attributes a class declares at class level, with their types. */
  type Schema = map<string, Kind>

  /** Declarations for each class name. */
  type Schemas = map<string, Schema>

  function Declared(schemas: Schemas, cls: string): Schema {
    if cls in schemas then schemas[cls] else map[]
  }

  /** A stored instance at one moment: its class name and its attribute
      dictionary `__dict__`. */
  datatype Record = Record(cls: string, attrs: Attributes)

  /** A stored instance; the console writes its attribute dictionary in
      place, its class never changes. */
  class Instance {
    const cls: string
    var attrs: Attributes

    /** A fresh instance of `cls` whose `id` is `id`. */
    constructor (cls: string, id: string)
      ensures this.cls == cls && attrs == map["id" := Raw(id)]
    {
      this.cls := cls;
      attrs := map["id" := Raw(id)];
    }

    function Snapshot(): (r: Record)
      reads this
      ensures r.cls == cls && r.attrs == attrs
    {
      Record(cls, attrs)
    }
  }

  /** The store key `"<class>.<id>"`. */
  function Key(cls: string, id: string): string {
    cls + "." + id
  }

  predicate Distinct<T(==)>(s: seq<T>) {
    forall i, j :: 0 <= i < j < |s| ==> s[i] != s[j]
  }

  /** The abstract store: its keys in insertion order (the iteration order
      of the dictionary) and each key's instance. */
  datatype Store = Store(order: seq<string>, records: map<string, Record>)

  /** Every key listed once, and exactly the stored keys listed. */
  predicate WellFormed(st: Store) {
    && Distinct(st.order)
    && (forall k :: k in st.order ==> k in st.records)
    && (forall k :: k in st.records ==> k in st.order)
  }

  /** Whether a record is listed by a query for class `want` (`None`: any). */
  predicate Matches(r: Record, want: Option<string>) {
    want.None? || want.value == r.cls
  }

  /** The records of `keys`, in order, that match `want`. */
  function Selected(keys: seq<string>, records: map<string, Record>, want: Option<string>): seq<Record> {
    if keys == [] then []
    else
      var rest := Selected(keys[..|keys| - 1], records, want);
      var k := keys[|keys| - 1];
      if k in records && Matches(records[k], want) then rest + [records[k]] else rest
  }

  /** The stored keys whose record matches `want`. */
  function MatchingKeys(records: map<string, Record>, want: Option<string>): set<string> {
    set k | k in records && Matches(records[k], want)
  }

  /** `order` with `key` removed; the other keys keep their order. */
  function Remove(order: seq<string>, key: string): (r: seq<string>)
    ensures forall k :: k in r <==> k in order && k != key
    ensures Distinct(order) ==> Distinct(r)
    ensures key !in order ==> r == order
  {
    if order == [] then []
    else if order[0] == key then Remove(order[1..], key)
    else
      var rest := Remove(order[1..], key);
      assert forall k :: k in [order[0]] + rest ==> k in order;
      assert Distinct(order) ==> order[0] !in order[1..] && Distinct(order[1..]);
      [order[0]] + rest
  }

  /** On distinct keys, removing a key cuts it out at its position: the keys
      before it and after it stay, in their order. */
  lemma {:induction false} RemoveAt(order: seq<string>, key: string, j: nat)
    requires Distinct(order) && j < |order| && order[j] == key
    ensures Remove(order, key) == order[..j] + order[j + 1..]
  {
    var tail := order[1..];
    assert Distinct(tail) by {
      forall a, b | 0 <= a < b < |tail| ensures tail[a] != tail[b] {
        assert tail[a] == order[a + 1] && tail[b] == order[b + 1];
      }
    }
    if j == 0 {
      assert key !in tail by {
        forall a | 0 <= a < |tail| ensures tail[a] != key {
          assert tail[a] == order[a + 1];
        }
      }
      assert Remove(order, key) == Remove(tail, key);
      assert order[..0] + order[1..] == tail;
    } else {
      assert order[0] != key;
      assert Remove(order, key) == [order[0]] + Remove(tail, key);
      assert tail[j - 1] == key;
      RemoveAt(tail, key, j - 1);
      assert tail[..j - 1] == order[1..j] && tail[j..] == order[j + 1..];
      assert order[..j] == [order[0]] + order[1..j];
    }
  }

  /** One more key of the listing. */
  lemma SelectedStep(keys: seq<string>, records: map<string, Record>, want: Option<string>, i: nat)
    requires i < |keys|
    ensures Selected(keys[..i + 1], records, want)
      == Selected(keys[..i], records, want)
         + (if keys[i] in records && Matches(records[keys[i]], want) then [records[keys[i]]] else [])
  {
    assert keys[..i + 1][..i] == keys[..i];
  }

  /** Listing follows the store: a record is selected exactly when it is
      stored under a listed key and matches. */
  lemma {:induction false} SelectedMembers(keys: seq<string>, records: map<string, Record>, want: Option<string>)
    ensures forall r ::
      (r in Selected(keys, records, want)
       <==> exists k :: k in keys && k in records && records[k] == r && Matches(r, want))
  {
    if keys != [] {
      var init := keys[..|keys| - 1];
      var last := keys[|keys| - 1];
      SelectedMembers(init, records, want);
      assert keys == init + [last];
      forall r | r in Selected(keys, records, want)
        ensures exists k :: k in keys && k in records && records[k] == r && Matches(r, want)
      {
        if r in Selected(init, records, want) {
          var k :| k in init && k in records && records[k] == r && Matches(r, want);
          assert k in keys;
        } else {
          assert last in keys;
        }
      }
    }
  }

  /** Over distinct keys, the listing has one entry per matching key. */
  lemma {:induction false} SelectedCount(keys: seq<string>, records: map<string, Record>, want: Option<string>)
    requires Distinct(keys)
    ensures |Selected(keys, records, want)| == |set k | k in keys && k in records && Matches(records[k], want)|
  {
    var s := set k | k in keys && k in records && Matches(records[k], want);
    if keys == [] {
      assert s == {};
    } else {
      var init := keys[..|keys| - 1];
      var last := keys[|keys| - 1];
      assert keys == init + [last];
      assert Distinct(init);
      SelectedCount(init, records, want);
      var s0 := set k | k in init && k in records && Matches(records[k], want);
      assert last !in init;
      if last in records && Matches(records[last], want) {
        assert s == s0 + {last};
      } else {
        assert s == s0;
      }
    }
  }

  /** For a well-formed store, the listing of all its keys has one entry per
      matching stored key. */
  lemma SelectedAll(st: Store, want: Option<string>)
    requires WellFormed(st)
    ensures |Selected(st.order, st.records, want)| == |MatchingKeys(st.records, want)|
  {
    SelectedCount(st.order, st.records, want);
    assert (set k | k in st.order && k in st.records && Matches(st.records[k], want))
      == MatchingKeys(st.records, want);
  }

  /** Appending one new key grows the listing by that key's record when it
      matches, and leaves it as it was otherwise. */
  lemma {:induction false} SelectedAppend(keys: seq<string>, records: map<string, Record>, key: string, r: Record, want: Option<string>)
    requires key !in keys
    ensures Selected(keys + [key], records[key := r], want)
      == Selected(keys, records, want) + (if Matches(r, want) then [r] else [])
  {
    assert (keys + [key])[..|keys|] == keys;
    SelectedOtherKey(keys, records, key, r, want);
  }

  /** Changing the record of a key that is not listed changes nothing. */
  lemma {:induction false} SelectedOtherKey(keys: seq<string>, records: map<string, Record>, key: string, r: Record, want: Option<string>)
    requires key !in keys
    ensures Selected(keys, records[key := r], want) == Selected(keys, records, want)
  {
    if keys != [] {
      SelectedOtherKey(keys[..|keys| - 1], records, key, r, want);
    }
  }
}
