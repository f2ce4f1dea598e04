/**
  The mock generator, which renders every stored object of the mock kind
  into one text artifact, and the mock consumer that owns it.
 */
module Generation {
  import opened Wrappers
  import opened Model
  import opened Mocks

  /** The text one pair contributes: `key: value` and a newline. */
  function PairLine(p: ConfigPair): string
  {
    p.key + ": " + p.value + "\n"
  }

  /** The lines of a list of pairs, in order. */
  function PairsText(ps: seq<ConfigPair>): string
  {
    if ps == [] then "" else PairsText(ps[..|ps| - 1]) + PairLine(ps[|ps| - 1])
  }

  /** The rendered content of a list of configs: the text of every pair of every config, in order. */
  function Content(cs: seq<Config>): string
  {
    if cs == [] then "" else Content(cs[..|cs| - 1]) + PairsText(cs[|cs| - 1].spec.pairs)
  }

  /** The provenance of a list of configs: their keys, in order. */
  function Sources(cs: seq<Config>): seq<ConfigKey>
  {
    if cs == [] then [] else Sources(cs[..|cs| - 1]) + [cs[|cs| - 1].key]
  }

  lemma {:induction false} SourcesAt(cs: seq<Config>)
    ensures |Sources(cs)| == |cs|
    ensures forall i :: 0 <= i < |cs| ==> Sources(cs)[i] == cs[i].key
  {
    if cs != [] {
      SourcesAt(cs[..|cs| - 1]);
    }
  }

  /** Rendering pairs distributes over concatenation. */
  lemma {:induction false} PairsTextAppend(a: seq<ConfigPair>, b: seq<ConfigPair>)
    ensures PairsText(a + b) == PairsText(a) + PairsText(b)
    decreases |b|
  {
    if b == [] {
      assert a + b == a;
    } else {
      var b', last := b[..|b| - 1], b[|b| - 1];
      var ab := a + b;
      assert ab[..|ab| - 1] == a + b' && ab[|ab| - 1] == last;
      PairsTextAppend(a, b');
      calc {
        PairsText(ab);
        PairsText(a + b') + PairLine(last);
        PairsText(a) + PairsText(b') + PairLine(last);
        PairsText(a) + PairsText(b);
      }
    }
  }

  /** Rendering configs distributes over concatenation. */
  lemma {:induction false} ContentAppend(a: seq<Config>, b: seq<Config>)
    ensures Content(a + b) == Content(a) + Content(b)
    decreases |b|
  {
    if b == [] {
      assert a + b == a;
    } else {
      var b', last := b[..|b| - 1], b[|b| - 1];
      var ab := a + b;
      assert ab[..|ab| - 1] == a + b' && ab[|ab| - 1] == last;
      ContentAppend(a, b');
      assert Content(ab) == Content(a + b') + PairsText(last.spec.pairs);
      assert Content(b) == Content(b') + PairsText(last.spec.pairs);
    }
  }

  /** Read front to back, the content is the first config's lines followed by the rest's. */
  lemma ContentCons(c: Config, cs: seq<Config>)
    ensures Content([c] + cs) == PairsText(c.spec.pairs) + Content(cs)
  {
    ContentAppend([c], cs);
    assert [c][..0] == [];
  }

  /** Read front to back, the lines of the pairs are the first pair's line followed by the rest's. */
  lemma PairsTextCons(p: ConfigPair, ps: seq<ConfigPair>)
    ensures PairsText([p] + ps) == PairLine(p) + PairsText(ps)
  {
    PairsTextAppend([p], ps);
    assert [p][..0] == [];
  }

  /** Writes the lines of `pairs` to the end of `buffer`, one write per piece. */
  method WritePairs(buffer: string, pairs: seq<ConfigPair>) returns (out: string)
    ensures out == buffer + PairsText(pairs)
  {
    out := buffer;
    var j := 0;
    while j < |pairs|
      invariant 0 <= j <= |pairs|
      invariant out == buffer + PairsText(pairs[..j])
    {
      var pair := pairs[j];
      ghost var before := out;
      out := out + pair.key;
      out := out + ": ";
      out := out + pair.value;
      out := out + "\n";
      assert out == before + PairLine(pair);
      assert pairs[..j + 1][..j] == pairs[..j];
      assert PairsText(pairs[..j + 1]) == PairsText(pairs[..j]) + PairLine(pair);
      j := j + 1;
    }
    assert pairs[..|pairs|] == pairs;
  }

  class MockGenerator {
    constructor ()
    {
    }

    /**
      Reads the registry's objects of the mock kind in all namespaces and
      renders them into exactly one output. `listed` is the order in which
      the registry handed them out.
     */
    method Render(reg: MockRegistry) returns (outs: seq<ConfigOutput>, err: Option<Error>, ghost listed: seq<Config>)
      requires reg.Valid()
      ensures err == None && |outs| == 1
      ensures multiset(listed) == multiset(reg.Selected(MockKind, ""))
      ensures outs[0].sources == Sources(listed)
      ensures outs[0].content == Content(listed)
      ensures |outs[0].sources| == |reg.Selected(MockKind, "")|
      ensures forall i :: 0 <= i < |outs[0].sources| ==>
        outs[0].sources[i] in reg.store && reg.store[outs[0].sources[i]].key.kind == MockKind
      ensures forall i, j :: 0 <= i < j < |outs[0].sources| ==> outs[0].sources[i] != outs[0].sources[j]
    {
      var configs := reg.List(MockKind, "");
      listed := configs;
      var buffer: string := "";
      var keys: seq<ConfigKey> := [];
      var i := 0;
      while i < |configs|
        invariant 0 <= i <= |configs|
        invariant keys == Sources(configs[..i])
        invariant buffer == Content(configs[..i])
      {
        var config := configs[i];
        keys := keys + [config.key];
        buffer := WritePairs(buffer, config.spec.pairs);
        assert configs[..i + 1][..i] == configs[..i];
        i := i + 1;
      }
      assert configs[..|configs|] == configs;
      SourcesAt(configs);
      outs := [ConfigOutput(keys, buffer)];
      err := None;
    }
  }

  class MockConfigConsumer {
    const generator: MockGenerator

    constructor (generator: MockGenerator)
      ensures this.generator == generator
    {
      this.generator := generator;
    }

    /** A fixed name. */
    function Name(): (name: string)
      ensures name == "MockConfigConsumer"
    {
      "MockConfigConsumer"
    }

    /** The one generator this consumer owns. */
    function Generators(): (gens: seq<MockGenerator>)
      ensures gens == [generator]
    {
      [generator]
    }

    /** Delivery is a no-op that always succeeds. */
    method Distribute(outputs: seq<ConfigOutput>) returns (err: Option<Error>)
      ensures err == None
    {
      err := None;
    }
  }
}
