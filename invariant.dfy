/**
  The registry conformance scenario: put n objects of the mock kind, read
  each back, look for a key never put, count the listing, delete them all
  and count again. Each check that fails is recorded as a failure.
 */
module MapInvariant {
  import opened Wrappers
  import opened Model
  import opened Mocks

  /** What the scenario reports, in the order the checks run. */
  datatype Failure =
    | PutFailed(err: Error)
    | DeleteFailed(err: Error)
    | GetMismatch(want: Config, got: Option<Config>)
    | UnexpectedFound
    | ListLength(wantLength: int, gotLength: int)

  /** The decimal digit character for d. */
  function Digit(d: nat): (c: char)
    requires d < 10
    ensures '0' <= c <= '9'
    ensures c as int - '0' as int == d
  {
    ('0' as int + d) as char
  }

  /** The number a string of decimal digits denotes, most significant first. */
  function DecimalValue(s: string): nat
    requires forall k :: 0 <= k < |s| ==> '0' <= s[k] <= '9'
  {
    if s == [] then 0 else DecimalValue(s[..|s| - 1]) * 10 + (s[|s| - 1] as int - '0' as int)
  }

  /** Decimal digits of a non-negative integer, most significant first,
      with no leading zero. */
  function Itoa(i: nat): (s: string)
    ensures 1 <= |s|
    ensures i < 10 <==> |s| == 1
    ensures forall k :: 0 <= k < |s| ==> '0' <= s[k] <= '9'
    ensures DecimalValue(s) == i
    ensures s[0] == '0' <==> i == 0
  {
    if i < 10 then [Digit(i)]
    else
      var prefix := Itoa(i / 10);
      var s := prefix + [Digit(i % 10)];
      assert s[..|s| - 1] == prefix;
      s
  }

  /** Different numbers are written differently: each text reads back as its number. */
  lemma {:induction false} ItoaInjective(a: nat, b: nat)
    requires Itoa(a) == Itoa(b)
    ensures a == b
  {
    calc {
      a;
      DecimalValue(Itoa(a));
      DecimalValue(Itoa(b));
      b;
    }
  }

  /** The name of the i-th object: the mock name with i appended. */
  function ElementName(i: nat): string
  {
    MockName + Itoa(i)
  }

  /** The i-th object of the scenario. */
  function Element(namespace: string, i: nat): Config
  {
    Config(
      ConfigKey(MockKind, ElementName(i), namespace),
      MockConfig([ConfigPair("key", Itoa(i))]),
      None)
  }

  /** The key looked up as never inserted: the mock name without a suffix. */
  function MissingKey(namespace: string): ConfigKey
  {
    ConfigKey(MockKind, MockName, namespace)
  }

  /** The objects of the scenario have pairwise different keys, all different from the missing key. */
  lemma ElementKeys(namespace: string, a: nat, b: nat)
    ensures Element(namespace, a).key == Element(namespace, b).key ==> a == b
    ensures Element(namespace, a).key != MissingKey(namespace)
    ensures Matches(Element(namespace, a), MockKind, namespace)
  {
    var na, nb := ElementName(a), ElementName(b);
    assert |na| > |MockName|;
    if na == nb {
      assert na[|MockName|..] == Itoa(a);
      assert nb[|MockName|..] == Itoa(b);
      ItoaInjective(a, b);
    }
  }

  /** The indices 0 .. m - 1. */
  ghost function Below(m: nat): set<nat>
  {
    if m == 0 then {} else Below(m - 1) + {m - 1}
  }

  lemma {:induction false} BelowSize(m: nat)
    ensures forall j :: j in Below(m) ==> j < m
    ensures |Below(m)| == m
  {
    if m > 0 {
      BelowSize(m - 1);
      assert m - 1 !in Below(m - 1);
    }
  }

  /** A store where every object sits under its own key and none is of the mock kind in the namespace. */
  ghost predicate Untouched(s0: map<ConfigKey, Config>, namespace: string)
  {
    forall k :: k in s0 ==> s0[k].key == k && !Matches(s0[k], MockKind, namespace)
  }

  /**
    The scenario's objects have pairwise different keys, none of them stored
    at the start or equal to the missing key, and all of them pass the
    listing's filter.
   */
  ghost predicate Fresh(elts: map<nat, Config>, s0: map<ConfigKey, Config>, namespace: string)
  {
    && Untouched(s0, namespace)
    && MissingKey(namespace) !in s0
    && (forall a, b :: a in elts && b in elts && elts[a].key == elts[b].key ==> a == b)
    && (forall j :: j in elts ==>
          && elts[j].key !in s0
          && elts[j].key != MissingKey(namespace)
          && Matches(elts[j], MockKind, namespace))
  }

  ghost function KeysAt(elts: map<nat, Config>, idx: set<nat>): set<ConfigKey>
    requires idx <= elts.Keys
  {
    set j | j in idx :: elts[j].key
  }

  ghost function ValuesAt(elts: map<nat, Config>, idx: set<nat>): set<Config>
    requires idx <= elts.Keys
  {
    set j | j in idx :: elts[j]
  }

  /** Objects with pairwise different keys are pairwise different. */
  lemma {:induction false} ValuesAtSize(elts: map<nat, Config>, idx: set<nat>)
    requires idx <= elts.Keys
    requires forall a, b :: a in elts && b in elts && elts[a].key == elts[b].key ==> a == b
    ensures |ValuesAt(elts, idx)| == |idx|
  {
    if idx != {} {
      var x :| x in idx;
      ValuesAtSize(elts, idx - {x});
      assert elts[x] !in ValuesAt(elts, idx - {x});
      assert ValuesAt(elts, idx) == ValuesAt(elts, idx - {x}) + {elts[x]};
    }
  }

  /** The first `count` objects of the scenario are fresh, and there are `count` of them. */
  lemma ScenarioFresh(elts: map<nat, Config>, s0: map<ConfigKey, Config>, namespace: string, count: nat)
    requires Untouched(s0, namespace)
    requires elts.Keys == Below(count)
    requires forall j :: j in elts ==> elts[j] == Element(namespace, j)
    ensures Fresh(elts, s0, namespace)
    ensures |ValuesAt(elts, elts.Keys)| == count
  {
    forall a, b | a in elts && b in elts && elts[a].key == elts[b].key ensures a == b {
      ElementKeys(namespace, a, b);
    }
    forall j | j in elts ensures elts[j].key != MissingKey(namespace) && Matches(elts[j], MockKind, namespace) {
      ElementKeys(namespace, j, j);
    }
    ValuesAtSize(elts, elts.Keys);
    BelowSize(count);
  }

  /** The store holds what it held at the start, plus the objects with indices in `idx`. */
  ghost predicate Holds(store: map<ConfigKey, Config>, s0: map<ConfigKey, Config>, elts: map<nat, Config>, idx: set<nat>)
  {
    && idx <= elts.Keys
    && store.Keys == s0.Keys + KeysAt(elts, idx)
    && (forall k :: k in s0 ==> store[k] == s0[k])
    && (forall j :: j in idx ==> store[elts[j].key] == elts[j])
  }

  /** Putting one more object of the scenario keeps the store as described. */
  lemma HoldsAfterPut(store: map<ConfigKey, Config>, s0: map<ConfigKey, Config>, elts: map<nat, Config>, idx: set<nat>, j: nat, namespace: string)
    requires Fresh(elts, s0, namespace)
    requires Holds(store, s0, elts, idx)
    requires j in elts && j !in idx
    ensures Holds(store[elts[j].key := elts[j]], s0, elts, idx + {j})
  {
    assert KeysAt(elts, idx + {j}) == KeysAt(elts, idx) + {elts[j].key};
  }

  /** Deleting one object of the scenario keeps the store as described. */
  lemma HoldsAfterDelete(store: map<ConfigKey, Config>, s0: map<ConfigKey, Config>, elts: map<nat, Config>, idx: set<nat>, j: nat, namespace: string)
    requires Fresh(elts, s0, namespace)
    requires Holds(store, s0, elts, idx)
    requires j in idx
    ensures Holds(store - {elts[j].key}, s0, elts, idx - {j})
  {
    assert KeysAt(elts, idx) == KeysAt(elts, idx - {j}) + {elts[j].key};
  }

  /** Once every object of the scenario is gone, the store is the one it started as. */
  lemma HoldsNone(store: map<ConfigKey, Config>, s0: map<ConfigKey, Config>, elts: map<nat, Config>)
    requires Holds(store, s0, elts, {})
    ensures store == s0
  {
    assert KeysAt(elts, {}) == {};
  }

  /** While the scenario's objects are stored, the selection is exactly those objects. */
  lemma SelectedWhileHeld(r: MockRegistry, s0: map<ConfigKey, Config>, elts: map<nat, Config>, namespace: string)
    requires Fresh(elts, s0, namespace)
    requires Holds(r.store, s0, elts, elts.Keys)
    ensures r.Selected(MockKind, namespace) == ValuesAt(elts, elts.Keys)
  {
    forall c | c in r.Selected(MockKind, namespace)
      ensures c in ValuesAt(elts, elts.Keys)
    {
      var k :| k in r.store && r.store[k] == c;
      if k !in s0 {
        var j :| j in elts.Keys && elts[j].key == k;
      }
    }
    forall c | c in ValuesAt(elts, elts.Keys)
      ensures c in r.Selected(MockKind, namespace)
    {
      var j :| j in elts.Keys && elts[j] == c;
      assert r.store[c.key] == c;
    }
  }

  /** The objects with indices 0 .. n - 1, keyed by index. */
  method MakeElements(namespace: string, n: int) returns (elts: map<nat, Config>)
    ensures elts.Keys == Below(if n < 0 then 0 else n)
    ensures forall j :: j in elts ==> elts[j] == Element(namespace, j)
  {
    elts := map[];
    var i := 0;
    while i < n
      invariant 0 <= i <= if n < 0 then 0 else n
      invariant elts.Keys == Below(i)
      invariant forall j :: j in elts ==> elts[j] == Element(namespace, j)
    {
      elts := elts[i := Element(namespace, i)];
      i := i + 1;
    }
    assert i == if n < 0 then 0 else n;
  }

  /** Puts every object of the scenario; the mock catalog accepts them all, so none fails. */
  method PutAll(r: MockRegistry, elts: map<nat, Config>, ghost namespace: string) returns (failures: seq<Failure>)
    requires r.Valid()
    requires Fresh(elts, r.store, namespace)
    modifies r
    ensures r.Valid()
    ensures Holds(r.store, old(r.store), elts, elts.Keys)
    ensures failures == []
  {
    ghost var s0 := r.store;
    MockMappingValidation(MockObject);
    failures := [];
    var todo := elts.Keys;
    ghost var done: set<nat> := {};
    assert KeysAt(elts, {}) == {};
    while todo != {}
      invariant todo <= elts.Keys && done == elts.Keys - todo
      invariant r.Valid() && Holds(r.store, s0, elts, done)
      invariant failures == []
      decreases todo
    {
      var j :| j in todo;
      AcceptedKindValidates(r.mapping, MockKind, elts[j]);
      HoldsAfterPut(r.store, s0, elts, done, j, namespace);
      var err := r.Put(elts[j]);
      match err {
        case Some(e) => failures := failures + [PutFailed(e)];
        case None =>
      }
      todo := todo - {j};
      done := done + {j};
    }
  }

  /** Every object of the scenario reads back as itself. */
  ghost predicate AllStored(r: MockRegistry, elts: map<nat, Config>, idx: set<nat>)
    reads r
  {
    forall j :: j in idx && j in elts ==> r.Get(elts[j].key) == Some(elts[j])
  }

  /** Reads every object back; a failure is recorded for each one that is missing or differs. */
  method GetAll(r: MockRegistry, elts: map<nat, Config>) returns (failures: seq<Failure>)
    ensures failures == [] <==> AllStored(r, elts, elts.Keys)
    ensures |failures| <= |elts|
    ensures forall f :: f in failures ==> f.GetMismatch? && f.want in elts.Values
  {
    failures := [];
    var todo := elts.Keys;
    ghost var done: set<nat> := {};
    while todo != {}
      invariant todo <= elts.Keys && done == elts.Keys - todo
      invariant |failures| + |todo| <= |elts.Keys|
      invariant failures == [] <==> AllStored(r, elts, done)
      invariant forall f :: f in failures ==> f.GetMismatch? && f.want in elts.Values
      decreases todo
    {
      var j :| j in todo;
      var v := r.Get(elts[j].key);
      if v.None? || v.value != elts[j] {
        failures := failures + [GetMismatch(elts[j], v)];
      }
      todo := todo - {j};
      done := done + {j};
    }
  }

  /** Deletes every object of the scenario, which brings the store back to `s0`. */
  method DeleteAll(r: MockRegistry, elts: map<nat, Config>, ghost s0: map<ConfigKey, Config>, ghost namespace: string)
    returns (failures: seq<Failure>)
    requires r.Valid()
    requires Fresh(elts, s0, namespace)
    requires Holds(r.store, s0, elts, elts.Keys)
    modifies r
    ensures r.Valid()
    ensures r.store == s0
    ensures failures == []
  {
    failures := [];
    var todo := elts.Keys;
    while todo != {}
      invariant todo <= elts.Keys
      invariant r.Valid() && Holds(r.store, s0, elts, todo)
      invariant failures == []
      decreases todo
    {
      var j :| j in todo;
      HoldsAfterDelete(r.store, s0, elts, todo, j, namespace);
      var err := r.Delete(elts[j].key);
      match err {
        case Some(e) => failures := failures + [DeleteFailed(e)];
        case None =>
      }
      todo := todo - {j};
    }
    HoldsNone(r.store, s0, elts);
  }

  /** While the store holds the scenario's objects, each reads back as itself. */
  lemma StoredWhileHeld(r: MockRegistry, s0: map<ConfigKey, Config>, elts: map<nat, Config>)
    requires Holds(r.store, s0, elts, elts.Keys)
    ensures AllStored(r, elts, elts.Keys)
  {
    forall j | j in elts.Keys && j in elts ensures r.Get(elts[j].key) == Some(elts[j]) {
      assert elts[j].key in KeysAt(elts, elts.Keys);
    }
  }

  /** Puts every object of the scenario and reads each back; no check fails. */
  method PutAndGet(r: MockRegistry, elts: map<nat, Config>, ghost namespace: string) returns (failures: seq<Failure>)
    requires r.Valid()
    requires Fresh(elts, r.store, namespace)
    modifies r
    ensures r.Valid()
    ensures Holds(r.store, old(r.store), elts, elts.Keys)
    ensures failures == []
  {
    // put all elements
    failures := PutAll(r, elts, namespace);

    // check that elements are stored
    StoredWhileHeld(r, old(r.store), elts);
    var getFailures := GetAll(r, elts);
    failures := failures + getFailures;
  }

  /**
    With the scenario's objects stored, the missing key is not found and
    listing the mock kind in the namespace returns exactly the objects; only
    a negative n makes the length check fail.
   */
  method Inspect(r: MockRegistry, elts: map<nat, Config>, ghost s0: map<ConfigKey, Config>,
                 namespace: string, n: int, ghost count: nat) returns (failures: seq<Failure>)
    requires r.Valid()
    requires Fresh(elts, s0, namespace) && Holds(r.store, s0, elts, elts.Keys)
    requires count == (if n < 0 then 0 else n) && |ValuesAt(elts, elts.Keys)| == count
    ensures failures == if n < 0 then [ListLength(n, 0)] else []
  {
    failures := [];

    // check for missing element
    var missing := r.Get(ConfigKey(MockKind, MockName, namespace));
    assert missing == None;
    if missing.Some? {
      failures := failures + [UnexpectedFound];
    }

    // list elements
    SelectedWhileHeld(r, s0, elts, namespace);
    var l := r.List(MockKind, namespace);
    assert |l| == count;
    if |l| != n {
      failures := failures + [ListLength(n, |l|)];
    }
  }

  /**
    The scenario, run against a registry that holds nothing of the mock
    kind in the namespace. The store
    ends as it began, and the only check that can fail is the first list
    length, when n is negative.
   */
  method CheckMapInvariant(r: MockRegistry, namespace: string, n: int) returns (failures: seq<Failure>)
    requires r.Valid()
    requires r.Selected(MockKind, namespace) == {}
    modifies r
    ensures r.Valid()
    ensures r.store == old(r.store)
    ensures failures == if n < 0 then [ListLength(n, 0)] else []
  {
    ghost var s0 := r.store;
    ghost var count: nat := if n < 0 then 0 else n;
    forall k | k in s0 ensures s0[k].key == k && !Matches(s0[k], MockKind, namespace) {
      assert s0[k] in s0.Values;
      assert s0[k] !in r.Selected(MockKind, namespace);
    }

    // create configuration objects
    var elts := MakeElements(namespace, n);
    ScenarioFresh(elts, s0, namespace, count);

    // put all elements and check that they are stored
    failures := PutAndGet(r, elts, namespace);

    // check for the missing element and list the elements
    var inspectFailures := Inspect(r, elts, s0, namespace, n, count);
    failures := failures + inspectFailures;

    // delete all elements
    var deleteFailures := DeleteAll(r, elts, s0, namespace);
    failures := failures + deleteFailures;

    var l := r.List(MockKind, namespace);
    if |l| != 0 {
      failures := failures + [ListLength(0, |l|)];
    }
  }

  /**
    The scenario as the registry's own test runs it: five objects in the
    test namespace of a new registry. Every check passes.
   */
  method NewRegistryPassesScenario() returns (failures: seq<Failure>)
    ensures failures == []
  {
    var r := new MockRegistry.NewMockRegistry();
    assert r.Selected(MockKind, MockNamespace) == {};
    failures := CheckMapInvariant(r, MockNamespace, 5);
  }
}
