/** The type container: the registry of mapping types by name. Its initial
    map has twelve types; `reset` restores a map of ten, without `object`
    and `array`. */
module TypeContainers {
  import opened Wrappers
  import opened Registries

  /** The types the container is loaded with. */
  const InitialTypes: map<string, string> := map[
    "bin_data" := "Mongator\\Type\\BinDataType",
    "boolean" := "Mongator\\Type\\BooleanType",
    "date" := "Mongator\\Type\\DateType",
    "float" := "Mongator\\Type\\FloatType",
    "integer" := "Mongator\\Type\\IntegerType",
    "raw" := "Mongator\\Type\\RawType",
    "object" := "Mongator\\Type\\ObjectType",
    "array" := "Mongator\\Type\\ArrayType",
    "referenceOne" := "Mongator\\Type\\ReferenceOneType",
    "referenceMany" := "Mongator\\Type\\ReferenceManyType",
    "serialized" := "Mongator\\Type\\SerializedType",
    "string" := "Mongator\\Type\\StringType"
  ]

  /** The types `reset` restores. */
  const ResetTypes: map<string, string> := map[
    "bin_data" := "Mongator\\Type\\BinDataType",
    "boolean" := "Mongator\\Type\\BooleanType",
    "date" := "Mongator\\Type\\DateType",
    "float" := "Mongator\\Type\\FloatType",
    "integer" := "Mongator\\Type\\IntegerType",
    "raw" := "Mongator\\Type\\RawType",
    "referenceOne" := "Mongator\\Type\\ReferenceOneType",
    "referenceMany" := "Mongator\\Type\\ReferenceManyType",
    "serialized" := "Mongator\\Type\\SerializedType",
    "string" := "Mongator\\Type\\StringType"
  ]

  /** The container as loaded. */
  method NewTypeContainer() returns (c: Registry)
    ensures fresh(c) && c.State() == Fresh(InitialTypes, 0) && c.defaults == ResetTypes
  {
    c := new Registry(InitialTypes, ResetTypes);
  }

  /** `reset` does not restore the initial map: it drops `object` and
      `array` and keeps every other type as it was. */
  lemma ResetDropsObjectAndArray(created: nat)
    ensures Has(Fresh(InitialTypes, created), "object") && Has(Fresh(InitialTypes, created), "array")
    ensures !Has(Fresh(ResetTypes, created), "object") && !Has(Fresh(ResetTypes, created), "array")
    ensures ResetTypes == InitialTypes - {"object", "array"}
  {
    assert "object" in InitialTypes && "array" in InitialTypes;
    assert ResetTypes.Keys == InitialTypes.Keys - {"object", "array"};
  }

  /** Hence `get("object")` works on the loaded container but fails after a
      `reset`, until the type is added again. */
  lemma ObjectTypeLostOnReset(created: nat, defined: string -> bool)
    requires defined("Mongator\\Type\\ObjectType")
    ensures Fetched(Fresh(InitialTypes, created), "object", defined).Ok?
    ensures Fetched(Fresh(ResetTypes, created), "object", defined) == Err(InvalidArgument)
  {
    ResetDropsObjectAndArray(created);
  }
}
