/**
  The in-memory mock registry: configuration objects stored in a map keyed
  by (kind, namespace, name), guarded on write by the schema catalog.
 */
module Mocks {
  import opened Wrappers
  import opened Model

  const MockKind: string := "MockConfig"
  const MockName: string := "my-qualified-name"
  const MockNamespace: string := "test"

  const MockKey: ConfigKey := ConfigKey(MockKind, MockName, MockNamespace)
  const MockConfigObject: MockConfig := MockConfig([ConfigPair("key", "value")])
  const MockObject: Config := Config(MockKey, MockConfigObject, Some(MockConfigStatus))

  /** The catalog of the mock: one kind whose validation accepts everything. */
  const MockMapping: KindMap := map[MockKind := ProtoSchema(
    "test.MockConfig",
    "test.MockConfigStatus",
    "Sample config kind",
    (msg: Message) => None)]

  /** The filter of List: the kind must match, and the namespace unless it is empty. */
  predicate Matches(c: Config, kind: string, ns: string)
  {
    c.key.kind == kind && (ns == "" || c.key.namespace == ns)
  }

  /** The mock catalog lets a config through exactly when it is of the mock kind. */
  lemma MockMappingValidation(obj: Config)
    ensures AcceptsKind(MockMapping, MockKind)
    ensures ValidateConfig(MockMapping, MockObject) == None
    ensures ValidateConfig(MockMapping, obj) == None <==> obj.key.kind == MockKind
    ensures obj.key.kind != MockKind ==> ValidateConfig(MockMapping, obj) == Some(UnknownKind(obj.key.kind))
  {
    AcceptedKindValidates(MockMapping, MockKind, MockObject);
    if obj.key.kind == MockKind {
      AcceptedKindValidates(MockMapping, MockKind, obj);
    }
  }

  /** A sequence with the multiset of a set has as many elements as the set. */
  lemma ListedSize<T>(xs: seq<T>, s: set<T>)
    requires multiset(xs) == multiset(s)
    ensures |xs| == |s|
  {
    assert |multiset(xs)| == |xs|;
    assert |multiset(s)| == |s|;
  }

  class MockRegistry {
    var store: map<ConfigKey, Config>
    const mapping: KindMap

    /** Every object is stored under its own key, and the catalog is the mock one. */
    ghost predicate Valid()
      reads this
    {
      && (forall k :: k in store ==> store[k].key == k)
      && mapping == MockMapping
    }

    /** The stored objects that List(kind, ns) must return. */
    ghost function Selected(kind: string, ns: string): set<Config>
      reads this
    {
      set c | c in store.Values && Matches(c, kind, ns)
    }

    /** The objects stored under the keys in `keys` that pass the filter. */
    ghost function SelectedAmong(keys: set<ConfigKey>, kind: string, ns: string): set<Config>
      reads this
      requires keys <= store.Keys
    {
      set k | k in keys && Matches(store[k], kind, ns) :: store[k]
    }

    /** Visiting one more key extends the selection by that key's object, if it passes. */
    lemma SelectedAmongStep(done: set<ConfigKey>, k: ConfigKey, kind: string, ns: string)
      requires Valid()
      requires done <= store.Keys && k in store && k !in done
      ensures Matches(store[k], kind, ns) ==>
        && store[k] !in SelectedAmong(done, kind, ns)
        && multiset(SelectedAmong(done + {k}, kind, ns)) == multiset(SelectedAmong(done, kind, ns)) + multiset{store[k]}
      ensures !Matches(store[k], kind, ns) ==>
        SelectedAmong(done + {k}, kind, ns) == SelectedAmong(done, kind, ns)
    {
      if Matches(store[k], kind, ns) {
        assert SelectedAmong(done + {k}, kind, ns) == SelectedAmong(done, kind, ns) + {store[k]};
      } else {
        assert SelectedAmong(done + {k}, kind, ns) == SelectedAmong(done, kind, ns);
      }
    }

    /** Visiting every key yields the whole selection. */
    lemma SelectedAmongAll(kind: string, ns: string)
      ensures SelectedAmong(store.Keys, kind, ns) == Selected(kind, ns)
    {
    }

    constructor NewMockRegistry()
      ensures Valid()
      ensures store == map[]
      ensures mapping == MockMapping
    {
      store := map[];
      mapping := MockMapping;
    }

    /** Point lookup: found exactly when the key is stored; a miss is not an error. */
    function Get(key: ConfigKey): (r: Option<Config>)
      reads this
      ensures r.Some? <==> key in store
      ensures r.Some? ==> r.value == store[key]
      ensures Valid() && r.Some? ==> r.value.key == key
    {
      if key in store then Some(store[key]) else None
    }

    /** Validate, then upsert; a rejected write leaves the store as it was. */
    method Put(obj: Config) returns (err: Option<Error>)
      requires Valid()
      modifies this
      ensures Valid()
      ensures err == ValidateConfig(mapping, obj)
      ensures err.Some? ==> store == old(store)
      ensures err.None? ==> store == old(store)[obj.key := obj]
    {
      err := ValidateConfig(mapping, obj);
      if err.Some? {
        return;
      }
      store := store[obj.key := obj];
    }

    /** Remove the key if present; never fails. */
    method Delete(key: ConfigKey) returns (err: Option<Error>)
      requires Valid()
      modifies this
      ensures Valid()
      ensures err == None
      ensures store == old(store) - {key}
    {
      store := store - {key};
      err := None;
    }

    /**
      Full scan with the kind/namespace filter. The map is visited in no
      particular order, so the result is pinned down up to order: each
      selected object exactly once, nothing else.
     */
    method List(kind: string, ns: string) returns (out: seq<Config>)
      requires Valid()
      ensures forall i :: 0 <= i < |out| ==>
        out[i].key in store && store[out[i].key] == out[i] && Matches(out[i], kind, ns)
      ensures forall i, j :: 0 <= i < j < |out| ==> out[i].key != out[j].key
      ensures multiset(out) == multiset(Selected(kind, ns))
      ensures |out| == |Selected(kind, ns)|
    {
      out := [];
      var todo := store.Keys;
      ghost var done: set<ConfigKey> := {};
      while todo != {}
        invariant todo <= store.Keys && done == store.Keys - todo
        invariant forall i :: 0 <= i < |out| ==>
          out[i].key in done && store[out[i].key] == out[i] && Matches(out[i], kind, ns)
        invariant forall i, j :: 0 <= i < j < |out| ==> out[i].key != out[j].key
        invariant multiset(out) == multiset(SelectedAmong(done, kind, ns))
        decreases todo
      {
        var k :| k in todo;
        SelectedAmongStep(done, k, kind, ns);
        var v := store[k];
        if v.key.kind == kind && (ns == "" || v.key.namespace == ns) {
          out := out + [v];
        }
        todo := todo - {k};
        done := done + {k};
      }
      SelectedAmongAll(kind, ns);
      ListedSize(out, Selected(kind, ns));
    }
  }
}
