/** The id generator container: the registry of id generators by name,
    loaded with `none`, `native` and `sequence`, which `reset` restores. */
module IdGeneratorContainers {
  import opened Wrappers
  import opened Registries

  const InitialGenerators: map<string, string> := map[
    "none" := "Mongator\\Id\\NoneIdGenerator",
    "native" := "Mongator\\Id\\NativeIdGenerator",
    "sequence" := "Mongator\\Id\\SequenceIdGenerator"
  ]

  /** The container as loaded; `reset` restores the same map. */
  method NewIdGeneratorContainer() returns (c: Registry)
    ensures fresh(c) && c.State() == Fresh(InitialGenerators, 0) && c.defaults == InitialGenerators
  {
    c := new Registry(InitialGenerators, InitialGenerators);
  }

  /** Exactly the three generators are known at load and after `reset`;
      whatever was added or removed in between, `reset` forgets. */
  lemma InitialGeneratorNames(created: nat, name: string)
    ensures Has(Fresh(InitialGenerators, created), name) <==> name == "none" || name == "native" || name == "sequence"
  {
  }

  /** A name added after loading is gone after `reset`. */
  lemma ResetForgetsAdded(s: RegistryState, name: string, cls: string, defined: string -> bool, extendsBase: string -> bool)
    requires Added(s, name, cls, defined, extendsBase).Ok?
    requires name != "none" && name != "native" && name != "sequence"
    ensures Has(Added(s, name, cls, defined, extendsBase).value, name)
    ensures !Has(Fresh(InitialGenerators, Added(s, name, cls, defined, extendsBase).value.created), name)
  {
  }
}
