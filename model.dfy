/**
  The configuration data model the mock registry is written against:
  keys, configuration objects, rendered outputs, and the kind-to-schema
  mapping with its validation gate.
 */
module Model {
  import opened Wrappers

  /** Identifies one configuration object; equality is structural. */
  datatype ConfigKey = ConfigKey(kind: string, name: string, namespace: string)

  /** One key/value pair of the mock payload. */
  datatype ConfigPair = ConfigPair(key: string, value: string)

  /** The mock spec payload: an ordered list of pairs. */
  datatype MockConfig = MockConfig(pairs: seq<ConfigPair>)

  /** The mock status payload carries no fields. */
  datatype MockConfigStatus = MockConfigStatus

  /** A configuration object: its key, its spec and an optional status. */
  datatype Config = Config(key: ConfigKey, spec: MockConfig, status: Option<MockConfigStatus>)

  /** The payloads a schema's validation predicate is asked about. */
  datatype Message = SpecMessage(spec: MockConfig) | StatusMessage(status: MockConfigStatus)

  /** Schema descriptor of one kind; `validate` yields an error reason or nothing. */
  datatype ProtoSchema = ProtoSchema(
    messageName: string,
    statusMessageName: string,
    description: string,
    validate: Message -> Option<string>)

  /** The schema catalog: kind name to schema descriptor. */
  type KindMap = map<string, ProtoSchema>

  datatype Error = UnknownKind(kind: string) | SchemaValidation(reason: string)

  /** A rendered artifact and the keys that contributed to it, in order. */
  datatype ConfigOutput = ConfigOutput(sources: seq<ConfigKey>, content: string)

  /** The schema of `kind` is registered in `m` and accepts every payload. */
  ghost predicate AcceptsKind(m: KindMap, kind: string)
  {
    kind in m && forall msg: Message :: m[kind].validate(msg) == None
  }

  /**
    The validation gate a registry runs before every write: an unregistered
    kind is refused, otherwise the kind's predicate is asked about the spec
    and then, when there is one, about the status.
   */
  function ValidateConfig(m: KindMap, obj: Config): (err: Option<Error>)
    ensures obj.key.kind !in m <==> err == Some(UnknownKind(obj.key.kind))
    ensures err.None? <==>
      && obj.key.kind in m
      && m[obj.key.kind].validate(SpecMessage(obj.spec)).None?
      && (obj.status.Some? ==> m[obj.key.kind].validate(StatusMessage(obj.status.value)).None?)
    ensures obj.key.kind in m && m[obj.key.kind].validate(SpecMessage(obj.spec)).Some? ==>
      err == Some(SchemaValidation(m[obj.key.kind].validate(SpecMessage(obj.spec)).value))
    ensures err.Some? && obj.key.kind in m ==>
      && err.value.SchemaValidation?
      && (|| m[obj.key.kind].validate(SpecMessage(obj.spec)) == Some(err.value.reason)
          || (obj.status.Some? && m[obj.key.kind].validate(StatusMessage(obj.status.value)) == Some(err.value.reason)))
  {
    if obj.key.kind !in m then
      Some(UnknownKind(obj.key.kind))
    else
      var schema := m[obj.key.kind];
      match schema.validate(SpecMessage(obj.spec))
      case Some(reason) => Some(SchemaValidation(reason))
      case None =>
        if obj.status.None? then None
        else
          match schema.validate(StatusMessage(obj.status.value))
          case Some(reason) => Some(SchemaValidation(reason))
          case None => None
  }

  /** A schema that accepts every payload lets every config of its kind through. */
  lemma AcceptedKindValidates(m: KindMap, kind: string, obj: Config)
    requires AcceptsKind(m, kind)
    requires obj.key.kind == kind
    ensures ValidateConfig(m, obj) == None
  {
    assert m[kind].validate(SpecMessage(obj.spec)) == None;
    if obj.status.Some? {
      assert m[kind].validate(StatusMessage(obj.status.value)) == None;
    }
  }
}
