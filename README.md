# Mock configuration registry, conformance scenario and mock generator

This project models the in-memory mock registry of a kind-typed configuration
store (`test/mocks.go`) and proves properties of it in Dafny.

The registry holds configuration objects in a map keyed by
(kind, name, namespace). Every write passes a schema-catalog validation gate first.
`Get` is a point lookup. `Put` validates and then upserts. `Delete` removes a key and never
fails. `List` scans the whole map with a kind filter and an optional namespace filter.
The conformance scenario `CheckMapInvariant` drives a registry through a
put / get / list / delete cycle. The mock generator renders every stored object of
the mock kind into one text artifact, together with the keys it came from. The mock
consumer names itself, owns one generator and distributes nothing.

Modules:

- `Wrappers` (`wrappers.dfy`): `Option`.
- `Model` (`model.dfy`): the data model the mock is written against. It holds
  `ConfigKey`, `Config`, the mock payloads, `ProtoSchema`, the catalog `KindMap`,
  `ConfigOutput` and the validation gate `ValidateConfig`.
- `Mocks` (`registry.dfy`): the constants of the mock, the mock catalog
  `MockMapping` and the class `MockRegistry`.
- `MapInvariant` (`invariant.dfy`): the conformance scenario.
- `Generation` (`generator.dfy`): `MockGenerator` and `MockConfigConsumer`.

`MockRegistry` is a class. Its `store` field is a `map<ConfigKey, Config>` that
`Put` and `Delete` reassign, and its `mapping` is an immutable field. `Valid()`
states the invariant that every object is stored under its own key and that the
catalog is the mock catalog `MockMapping`, the only one `NewMockRegistry` installs.

`List` and the scenario's loops visit the map in whatever order. They pick each next key
with `:|`, which is how the model keeps Go's unspecified map iteration order.
`List` is therefore specified up to order: its result has the multiset of the
selected stored objects, so each one appears exactly once. `Render` exposes that order as the ghost
out-parameter `listed`. Its provenance is `Sources(listed)` and its content is
`Content(listed)`.

The scenario's phases are the helper methods `MakeElements`, `PutAll`, `GetAll`,
`PutAndGet`, `Inspect` and `DeleteAll`, each with its own contract. `CheckMapInvariant` calls them in the
source's order. The calls to `testing.T` become a returned list of `Failure`
values, one per report and in reporting order.

The validation gate belongs to the `model` package (imported at `test/mocks.go:26`),
which is not part of this model. `ValidateConfig` is modelled as follows:
- a kind with no schema fails with `UnknownKind`;
- otherwise the kind's predicate is asked about the spec, and then about the
  status when there is one;
- a reason the predicate gives becomes a `SchemaValidation` error.

The predicate itself is a function value stored in the schema. Its body is
visible only for the mock catalog, where it accepts everything
(`test/mocks.go:56`).

A generator is expected to fail with a render error when a spec is not the
payload it expects. The code instead performs an unchecked type
assertion (`test/mocks.go:172`), which panics on any other spec. The model types
every spec as the mock payload, which rules that case out. On the inputs that
remain, the code returns no error, and neither does `Render`.

## Model

| member | source | states |
|---|---|---|
| `Model.ValidateConfig` | test/mocks.go:85 | An unregistered kind gives exactly `UnknownKind(kind)`. Validation passes exactly when the kind is registered and its predicate accepts the spec and the status, if present. A spec rejection takes precedence. Every schema error carries a reason the predicate gave. |
| `Model.AcceptedKindValidates` | test/mocks.go:56 | A registered schema whose predicate accepts every payload lets every config of its kind through the gate. |
| `Mocks.MockMappingValidation` | test/mocks.go:51-58 | The mock catalog accepts every payload of the mock kind, and `MockObject` passes the gate. A config passes exactly when its kind is `MockConfig`; any other kind fails with `UnknownKind`. |
| `Mocks.MockRegistry.NewMockRegistry` | test/mocks.go:72-77 | A new registry is valid, has an empty store and uses the mock catalog. |
| `Mocks.MockRegistry.Get` | test/mocks.go:79-82 | The key is found exactly when it is stored, and then the stored object is returned, whose own key is the key asked for. A miss is `None`, never an error. |
| `Mocks.MockRegistry.Put` | test/mocks.go:84-90 | Returns exactly the gate's verdict. On rejection the store is unchanged. On success the object replaces the entry at its own key wholesale and every other entry is unchanged. The invariant is kept. |
| `Mocks.MockRegistry.Delete` | test/mocks.go:92-95 | Always returns no error. Afterwards the key is absent and every other entry is unchanged, whether or not the key was present, so deleting twice equals deleting once. |
| `Mocks.MockRegistry.List` | test/mocks.go:97-105 | The result is each stored object with the requested kind, and with the requested namespace unless that is empty, each exactly once, in any order (multiset equality). Every element is the object stored under its key, its keys are pairwise distinct, and its length is the number of such objects, zero when none match. |
| `Mocks.MockRegistry.SelectedAmongStep` | test/mocks.go:99-103 | Visiting one more key of the scan adds that key's object to the selection exactly when it passes the filter, and that object was not selected before. |
| `MapInvariant.Itoa` | test/mocks.go:119 | The text of a non-negative number is non-empty and all decimal digits, and read as a decimal numeral (`DecimalValue`) it denotes that number. It starts with `0` only for zero, so it never has a leading zero, and it is one character exactly when the number is below ten. |
| `MapInvariant.ItoaInjective` | test/mocks.go:114 | Different numbers have different decimal texts, since each text reads back as its own number. |
| `MapInvariant.ElementKeys` | test/mocks.go:110-123 | The scenario's objects have pairwise distinct keys, none equal to the unsuffixed `my-qualified-name` key, and each passes the list filter for the scenario's namespace. |
| `MapInvariant.MakeElements` | test/mocks.go:109-123 | Builds exactly the objects 0 .. n-1, none when n is negative. Object i is of the mock kind, named `my-qualified-name` followed by i, in the given namespace, with the one pair `key` to i in decimal and no status. |
| `MapInvariant.ScenarioFresh` | test/mocks.go:109-123 | On a registry with nothing of the mock kind in the namespace, the scenario's keys are all new, distinct and different from the missing key, and there are exactly as many distinct objects as indices. |
| `MapInvariant.PutAll` | test/mocks.go:125-130 | On a valid registry, whose catalog is the mock catalog, every put of a scenario object passes the gate, so no failure is reported. The store becomes the old store plus every scenario object under its own key, with old entries unchanged. |
| `MapInvariant.HoldsAfterPut` | test/mocks.go:127 | One more upsert of a scenario object keeps the store equal to the old store plus the objects put so far. |
| `MapInvariant.GetAll` | test/mocks.go:132-137 | No failure is reported exactly when every scenario object reads back as itself. Every failure names one of those objects, and there are at most as many failures as objects. |
| `MapInvariant.StoredWhileHeld` | test/mocks.go:132-137 | While the store holds the scenario's objects, `Get` on each object's key returns that object. |
| `MapInvariant.PutAndGet` | test/mocks.go:125-137 | Putting all scenario objects and reading each back reports no failure. Afterwards the store is the old store plus every scenario object under its own key. |
| `MapInvariant.Inspect` | test/mocks.go:139-152 | With the scenario's objects stored, the unsuffixed key is not found, and the list holds n objects. The only failure is the list-length report when n is negative. |
| `MapInvariant.SelectedWhileHeld` | test/mocks.go:148-152 | While the scenario's objects are stored, the objects that list for the mock kind and the namespace are exactly the scenario's objects. |
| `MapInvariant.ValuesAtSize` | test/mocks.go:148-152 | Objects with pairwise distinct keys are as many as their indices, which makes the listed length n. |
| `MapInvariant.DeleteAll` | test/mocks.go:154-159 | Deleting every scenario object reports no failure and returns the store to exactly what it was before the puts. |
| `MapInvariant.HoldsAfterDelete` | test/mocks.go:156 | Deleting one scenario object keeps the store equal to the old store plus the objects not yet deleted. |
| `MapInvariant.HoldsNone` | test/mocks.go:154-159 | Once no scenario object is left, the store equals the store before the puts. |
| `MapInvariant.CheckMapInvariant` | test/mocks.go:107-165 | Runs on a valid registry that holds nothing of the mock kind in the namespace. Every put succeeds, every object reads back equal, the unsuffixed key is never found, the first list has n objects and the last has none. The registry ends exactly as it began. The only failure is the list-length report when n is negative. |
| `MapInvariant.NewRegistryPassesScenario` | test/mocks.go:107-165 | A registry fresh from `NewMockRegistry` (test/mocks.go:72-77), run through the scenario with five objects in the namespace `test`, reports no failure at all. |
| `Generation.WritePairs` | test/mocks.go:172-177 | Appending the pairs piece by piece to a buffer yields the buffer followed by `key: value` and a newline for each pair, in order. |
| `Generation.SourcesAt` | test/mocks.go:171 | The provenance of a list of configs has one entry per config, and entry i is config i's key. |
| `Generation.PairsTextAppend` | test/mocks.go:172-177 | The text of two runs of pairs is the text of the first followed by the text of the second. |
| `Generation.ContentAppend` | test/mocks.go:170-178 | The content of two runs of configs is the content of the first followed by the content of the second. |
| `Generation.ContentCons` | test/mocks.go:170-178 | Read front to back, the content is the first config's lines followed by the content of the rest. |
| `Generation.PairsTextCons` | test/mocks.go:172-177 | Read front to back, the text of pairs is the first pair's `key: value` line followed by the text of the rest. |
| `Generation.MockGenerator.Render` | test/mocks.go:167-183 | Returns exactly one output and no error, and changes nothing. The configs it visits are the registry's mock-kind objects in all namespaces, each once. Sources lists their keys in visiting order. Content is the in-order concatenation of `key: value` and a newline over every pair of every visited config. Sources are distinct stored keys of the mock kind, as many as there are such objects. |
| `Generation.MockConfigConsumer.Name` | test/mocks.go:185-187 | The name is the constant `MockConfigConsumer`. |
| `Generation.MockConfigConsumer.Generators` | test/mocks.go:189-191 | The generators are exactly the consumer's one generator. |
| `Generation.MockConfigConsumer.Distribute` | test/mocks.go:193-195 | Distribution always succeeds. |

## Left out

- The internals of `model.KindMap.ValidateConfig`: the `model` package is not part of this model. Any check it makes beyond the kind lookup and the schema predicate, such as a key or name check, is not modelled.
- Protobuf payloads: `Spec` is the mock payload, a list of string pairs, and `Status` is an optional field-less value. The message type names in the schema are carried as data only.
- The panicking type assertion on `Spec` (test/mocks.go:172): specs are typed as the mock payload, so the assertion cannot fail.
- `reflect.DeepEqual` becomes structural equality of values. `testing.T` reporting becomes the returned `Failure` list; the text of the messages is not modelled.
- Byte strings: Go strings and `Content` (`buffer.Bytes()`, test/mocks.go:181) are byte sequences, while the model's strings are sequences of characters. The byte-level content, including strings that are not valid UTF-8, is therefore not modelled.
- `strconv.Itoa` and `fmt.Sprintf("%s%d")` are modelled only for non-negative numbers, the only ones the scenario formats.
- Pointer aliasing of `*model.Config` and `*model.ConfigKey`: configs and keys are immutable values, and the output's sources are copies of keys.
- The `model.Registry` and `model.Generator` interfaces: `Render` and the scenario take a `MockRegistry`, and the consumer holds a `MockGenerator`.
- Nil versus empty slices: sequences have no nil.
- Concurrency and locking: the mock has none.
- `Distribute` delivery: it is a no-op that returns no error, and that is all that is modelled.
- CheckMapInvariant: its outcome is stated only for a valid registry that holds no mock-kind object in the namespace, the situation the scenario is written for. Every registry `NewMockRegistry` builds qualifies. On registries already holding mock-kind objects in the namespace, the reports are not stated.
