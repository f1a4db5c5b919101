/** The static registries of named classes: the type container and the id
    generator container. Each maps a name to a class name and memoises one
    instance per name, created on first `get`. The PHP class keeps this in
    static properties; here one `Registry` object stands for that static
    state. Which class names exist and which extend the required base
    class come from the runtime and are parameters. An instance is
    identified by the class it was made from and a serial number, so that
    two instances made at different times are told apart. */
module Registries {
  import opened Wrappers

  datatype Instance = Instance(cls: string, serial: nat)

  /** `classes` is `$map`, `instances` the memo (`$types` / `$idGenerators`),
      and `created` counts the instances made so far. */
  datatype RegistryState = RegistryState(classes: map<string, string>, instances: map<string, Instance>, created: nat)

  /** What every operation keeps: a memoised name is registered, its
      instance is of the registered class, and instances are numbered
      below `created`, one serial per name. */
  ghost predicate Valid(s: RegistryState) {
    && s.instances.Keys <= s.classes.Keys
    && (forall n :: n in s.instances ==> s.instances[n].cls == s.classes[n] && s.instances[n].serial < s.created)
    && (forall n, m :: n in s.instances && m in s.instances && n != m ==> s.instances[n].serial != s.instances[m].serial)
  }

  /** The state the class starts with, and the state `reset` restores. */
  function Fresh(defaults: map<string, string>, created: nat): (s: RegistryState)
    ensures Valid(s) && s.classes == defaults && s.instances == map[]
  {
    RegistryState(defaults, map[], created)
  }

  /** `has`. */
  predicate Has(s: RegistryState, name: string) {
    name in s.classes
  }

  /** `add`: an existing name is rejected; then the class is reflected on,
      which fails for an unknown class; then a class outside the required
      hierarchy is rejected. Otherwise the name is registered and the memo
      is left alone. */
  function Added(s: RegistryState, name: string, cls: string, defined: string -> bool, extendsBase: string -> bool): (r: Result<RegistryState>)
    ensures r.Ok? <==> !Has(s, name) && defined(cls) && extendsBase(cls)
    ensures Has(s, name) ==> r == Err(InvalidArgument)
    ensures !Has(s, name) && !defined(cls) ==> r == Err(Reflection)
    ensures !Has(s, name) && defined(cls) && !extendsBase(cls) ==> r == Err(InvalidArgument)
    ensures r.Ok? ==> Has(r.value, name) && r.value.classes[name] == cls
    ensures r.Ok? ==> forall n :: n != name ==> (Has(r.value, n) <==> Has(s, n))
    ensures r.Ok? ==> r.value.instances == s.instances
  {
    if name in s.classes then Err(InvalidArgument)
    else if !defined(cls) then Err(Reflection)
    else if !extendsBase(cls) then Err(InvalidArgument)
    else Ok(s.(classes := s.classes[name := cls]))
  }

  /** `get`: the memoised instance when there is one; otherwise an unknown
      name is rejected, and a registered name gets a new instance of its
      class, which is memoised. Instantiating a class that does not exist
      is an engine error. */
  function Fetched(s: RegistryState, name: string, defined: string -> bool): (r: Result<(RegistryState, Instance)>)
    ensures name in s.instances ==> r == Ok((s, s.instances[name]))
    ensures name !in s.instances ==>
      (r.Ok? <==> Has(s, name) && defined(s.classes[name])) &&
      (!Has(s, name) ==> r == Err(InvalidArgument)) &&
      (Has(s, name) && !defined(s.classes[name]) ==> r == Err(PhpError))
    ensures r.Ok? ==> var (s', i) := r.value;
      s'.classes == s.classes && name in s'.instances && s'.instances[name] == i
  {
    if name in s.instances then Ok((s, s.instances[name]))
    else if name !in s.classes then Err(InvalidArgument)
    else if !defined(s.classes[name]) then Err(PhpError)
    else
      var i := Instance(s.classes[name], s.created);
      Ok((RegistryState(s.classes, s.instances[name := i], s.created + 1), i))
  }

  /** `remove`: an unknown name is rejected; otherwise the name and its
      memoised instance both go. */
  function Removed(s: RegistryState, name: string): (r: Result<RegistryState>)
    ensures r.Err? <==> !Has(s, name)
    ensures r.Err? ==> r.error == InvalidArgument
    ensures r.Ok? ==> !Has(r.value, name) && name !in r.value.instances
    ensures r.Ok? ==> forall n :: n != name ==>
      (Has(r.value, n) <==> Has(s, n)) && (n in r.value.instances <==> n in s.instances)
  {
    if name !in s.classes then Err(InvalidArgument)
    else Ok(s.(classes := s.classes - {name}, instances := s.instances - {name}))
  }

  /** `add` keeps the registry valid. */
  lemma AddValid(s: RegistryState, name: string, cls: string, defined: string -> bool, extendsBase: string -> bool)
    requires Valid(s)
    ensures Added(s, name, cls, defined, extendsBase).Ok? ==> Valid(Added(s, name, cls, defined, extendsBase).value)
  {
  }

  /** `get` keeps the registry valid: the new instance takes the next
      serial, which no memoised instance has. */
  lemma GetValid(s: RegistryState, name: string, defined: string -> bool)
    requires Valid(s)
    ensures Fetched(s, name, defined).Ok? ==> Valid(Fetched(s, name, defined).value.0)
  {
    if name !in s.instances && name in s.classes && defined(s.classes[name]) {
      var s' := Fetched(s, name, defined).value.0;
      assert s'.instances == s.instances[name := Instance(s.classes[name], s.created)];
      forall n | n in s'.instances
        ensures s'.instances[n].cls == s'.classes[n] && s'.instances[n].serial < s'.created
      {
      }
    }
  }

  /** `remove` keeps the registry valid. */
  lemma RemoveValid(s: RegistryState, name: string)
    requires Valid(s)
    ensures Removed(s, name).Ok? ==> Valid(Removed(s, name).value)
  {
  }

  /** Memoisation: a second `get` of a name returns the instance the first
      one returned, and changes nothing. */
  lemma GetMemoised(s: RegistryState, name: string, defined: string -> bool)
    requires Fetched(s, name, defined).Ok?
    ensures var (s', i) := Fetched(s, name, defined).value;
      Fetched(s', name, defined) == Ok((s', i))
  {
  }

  /** After `remove`, the name is unknown to `get` until it is added again,
      and a `get` after re-adding makes an instance other than every one
      memoised before the removal. */
  lemma RemoveForgetsInstance(s: RegistryState, name: string, cls: string, defined: string -> bool, extendsBase: string -> bool)
    requires Valid(s) && Has(s, name)
    ensures Fetched(Removed(s, name).value, name, defined) == Err(InvalidArgument)
    ensures var s1 := Removed(s, name).value;
      Added(s1, name, cls, defined, extendsBase).Ok? && defined(cls) ==>
        var g := Fetched(Added(s1, name, cls, defined, extendsBase).value, name, defined);
        g.Ok? && g.value.1.cls == cls && forall n :: n in s.instances ==> s.instances[n] != g.value.1
  {
    var s1 := Removed(s, name).value;
    if Added(s1, name, cls, defined, extendsBase).Ok? && defined(cls) {
      var s2 := Added(s1, name, cls, defined, extendsBase).value;
      assert name !in s2.instances;
      assert s2.created == s.created;
    }
  }

  /** The mutable registry: the static state of one container class. */
  class Registry {
    var classes: map<string, string>
    var instances: map<string, Instance>
    var created: nat
    /** The map that `reset` restores. */
    const defaults: map<string, string>

    function State(): RegistryState
      reads this
    {
      RegistryState(classes, instances, created)
    }

    /** The class as loaded: its initial map and an empty memo. */
    constructor(initial: map<string, string>, defaults: map<string, string>)
      ensures State() == Fresh(initial, 0) && this.defaults == defaults
    {
      classes := initial;
      instances := map[];
      created := 0;
      this.defaults := defaults;
    }

    predicate HasName(name: string)
      reads this
    {
      Has(State(), name)
    }

    method Add(name: string, cls: string, defined: string -> bool, extendsBase: string -> bool) returns (o: Outcome)
      modifies this
      ensures var r := Added(old(State()), name, cls, defined, extendsBase);
        (o.Pass? <==> r.Ok?) &&
        (o.Fail? ==> o.error == r.error && State() == old(State())) &&
        (r.Ok? ==> State() == r.value)
    {
      if name in classes {
        return Fail(InvalidArgument);
      }
      if !defined(cls) {
        return Fail(Reflection);
      }
      if !extendsBase(cls) {
        return Fail(InvalidArgument);
      }
      classes := classes[name := cls];
      return Pass;
    }

    method Get(name: string, defined: string -> bool) returns (r: Result<Instance>)
      modifies this
      ensures var g := Fetched(old(State()), name, defined);
        (r.Ok? <==> g.Ok?) &&
        (r.Err? ==> r.error == g.error && State() == old(State())) &&
        (g.Ok? ==> State() == g.value.0 && r.value == g.value.1)
    {
      if name !in instances {
        if name !in classes {
          return Err(InvalidArgument);
        }
        if !defined(classes[name]) {
          return Err(PhpError);
        }
        instances := instances[name := Instance(classes[name], created)];
        created := created + 1;
      }
      return Ok(instances[name]);
    }

    method Remove(name: string) returns (o: Outcome)
      modifies this
      ensures var r := Removed(old(State()), name);
        (o.Pass? <==> r.Ok?) &&
        (o.Fail? ==> o.error == r.error && State() == old(State())) &&
        (r.Ok? ==> State() == r.value)
    {
      if name !in classes {
        return Fail(InvalidArgument);
      }
      classes := classes - {name};
      instances := instances - {name};
      return Pass;
    }

    /** `reset`: the default map and an empty memo. */
    method Reset()
      modifies this
      ensures State() == Fresh(defaults, old(created))
    {
      classes := defaults;
      instances := map[];
    }
  }
}
