/** The Mongator entry point: a registry of named connections with an
    optional default, a memo of one repository per document class, and the
    unit of work that `persist`, `remove` and `flush` hand over to.
    Connections are opaque handles. Which classes the metadata describes as
    documents and which repository classes exist are parameters. */
module Mongators {
  import opened Wrappers
  import opened PhpArrays
  import opened Staging

  /** A connection, known only by identity. */
  datatype Connection = Connection(id: nat)

  /** A repository instance: the class it was made from and a serial
      number telling instances apart. */
  datatype RepositoryRef = RepositoryRef(cls: string, serial: nat)

  /** The repositories made so far, by document class in creation order,
      and how many have been made. */
  datatype Memo = Memo(repos: Assoc<RepositoryRef>, created: nat)

  // ---------------------------------------------------------------------
  // Connections

  /** `getConnection`: the connection of that name, or an error when there
      is none. */
  function ConnectionNamed(connections: Assoc<Connection>, name: string): (r: Result<Connection>)
    ensures r.Ok? <==> HasKey(connections, name)
    ensures r.Err? ==> r.error == InvalidArgument
    ensures r.Ok? ==> Lookup(connections, name) == Some(r.value)
  {
    match Lookup(connections, name)
    case Some(c) => Ok(c)
    case None => Err(InvalidArgument)
  }

  /** `getDefaultConnection`: a runtime error when no default name is set,
      or when no connection has that name. */
  function DefaultConnection(connections: Assoc<Connection>, defaultName: Option<string>): (r: Result<Connection>)
    ensures r.Ok? <==> defaultName.Some? && HasKey(connections, defaultName.value)
    ensures r.Err? ==> r.error == Runtime
    ensures r.Ok? ==> Lookup(connections, defaultName.value) == Some(r.value)
  {
    match defaultName
    case None => Err(Runtime)
    case Some(name) =>
      match Lookup(connections, name)
      case Some(c) => Ok(c)
      case None => Err(Runtime)
  }

  /** `setConnections` stores exactly the given connections: each name
      looks up the connection given for it, and no other name is known. */
  lemma SetConnectionsLookup(given: Assoc<Connection>, name: string)
    requires DistinctKeys(given)
    ensures DistinctKeys(Merge([], given))
    ensures Lookup(Merge([], given), name) == Lookup(given, name)
    ensures HasKey(Merge([], given), name) <==> HasKey(given, name)
  {
    MergeLookup([], given, name);
  }

  /** `removeConnection` removes the name, and only it; `getConnection` of
      the removed name then fails. */
  lemma RemoveConnectionForgets(connections: Assoc<Connection>, name: string, other: string)
    requires DistinctKeys(connections) && HasKey(connections, name)
    ensures ConnectionNamed(Unset(connections, name), name) == Err(InvalidArgument)
    ensures other != name ==> ConnectionNamed(Unset(connections, name), other) == ConnectionNamed(connections, other)
  {
    UnsetLookup(connections, name, name);
    UnsetLookup(connections, name, other);
  }

  /** After `setConnection`, `getConnection` of that name gives the new
      connection, and of any other name what it gave before. */
  lemma SetConnectionThenGet(connections: Assoc<Connection>, name: string, c: Connection, other: string)
    requires DistinctKeys(connections)
    ensures ConnectionNamed(Put(connections, name, c), name) == Ok(c)
    ensures other != name ==> ConnectionNamed(Put(connections, name, c), other) == ConnectionNamed(connections, other)
  {
    PutLookup(connections, name, c, name);
    PutLookup(connections, name, c, other);
  }

  // ---------------------------------------------------------------------
  // Repositories

  /** Every memoised repository was made from its document class's
      repository class, and serials are below `created` and distinct. */
  ghost predicate ValidMemo(m: Memo) {
    && DistinctKeys(m.repos)
    && (forall i :: 0 <= i < |m.repos| ==> m.repos[i].1.cls == m.repos[i].0 + "Repository" && m.repos[i].1.serial < m.created)
    && (forall i, j :: 0 <= i < j < |m.repos| ==> m.repos[i].1.serial != m.repos[j].1.serial)
  }

  /** `getRepository`: the memoised repository of the class; otherwise a
      class the metadata does not describe as a document is rejected, and
      so is a document class whose repository class does not exist; a new
      repository is made and memoised. */
  function RepositoryFor(m: Memo, cls: string, isDocument: string -> bool, classExists: string -> bool): (r: Result<(Memo, RepositoryRef)>)
    ensures HasKey(m.repos, cls) ==> r == Ok((m, Lookup(m.repos, cls).value))
    ensures !HasKey(m.repos, cls) ==>
      && (r.Ok? <==> isDocument(cls) && classExists(cls + "Repository"))
      && (!isDocument(cls) ==> r == Err(InvalidArgument))
      && (isDocument(cls) && !classExists(cls + "Repository") ==> r == Err(Runtime))
  {
    match Lookup(m.repos, cls)
    case Some(repo) => Ok((m, repo))
    case None =>
      if !isDocument(cls) then Err(InvalidArgument)
      else if !classExists(cls + "Repository") then Err(Runtime)
      else
        var repo := RepositoryRef(cls + "Repository", m.created);
        Ok((Memo(m.repos + [(cls, repo)], m.created + 1), repo))
  }

  /** A new repository extends the memo at its end, keeps it valid, and
      differs from every repository made before. */
  lemma RepositoryForEffect(m: Memo, cls: string, isDocument: string -> bool, classExists: string -> bool, k: string)
    requires ValidMemo(m)
    ensures var r := RepositoryFor(m, cls, isDocument, classExists);
      r.Ok? ==>
        && ValidMemo(r.value.0)
        && Lookup(r.value.0.repos, cls) == Some(r.value.1)
        && (k != cls ==> Lookup(r.value.0.repos, k) == Lookup(m.repos, k))
        && (HasKey(r.value.0.repos, k) <==> HasKey(m.repos, k) || k == cls)
        && (!HasKey(m.repos, cls) ==> forall i :: 0 <= i < |m.repos| ==> m.repos[i].1 != r.value.1)
  {
    var r := RepositoryFor(m, cls, isDocument, classExists);
    if r.Ok? && !HasKey(m.repos, cls) {
      var entry := (cls, RepositoryRef(cls + "Repository", m.created));
      assert r.value.0.repos == m.repos + [entry];
      PutLookup(m.repos, cls, entry.1, k);
      PutLookup(m.repos, cls, entry.1, cls);
      assert Put(m.repos, cls, entry.1) == m.repos + [entry];
    }
  }

  /** Memoisation: asking again for the same class gives the same
      repository and changes nothing. */
  lemma RepositoryMemoised(m: Memo, cls: string, isDocument: string -> bool, classExists: string -> bool)
    requires ValidMemo(m)
    requires RepositoryFor(m, cls, isDocument, classExists).Ok?
    ensures var (m', repo) := RepositoryFor(m, cls, isDocument, classExists).value;
      RepositoryFor(m', cls, isDocument, classExists) == Ok((m', repo))
  {
    RepositoryForEffect(m, cls, isDocument, classExists, cls);
  }

  /** `getAllRepositories`: `getRepository` for each document class in
      turn; the first failure ends it, keeping what was memoised before. */
  function AllRepositories(m: Memo, classes: seq<string>, isDocument: string -> bool, classExists: string -> bool): (Memo, Outcome)
    decreases |classes|
  {
    if classes == [] then (m, Pass)
    else
      match RepositoryFor(m, classes[0], isDocument, classExists)
      case Err(e) => (m, Fail(e))
      case Ok((m', _)) => AllRepositories(m', classes[1..], isDocument, classExists)
  }

  /** A class passes `getRepository` when it is memoised already or can be
      made. */
  predicate Available(m: Memo, cls: string, isDocument: string -> bool, classExists: string -> bool) {
    HasKey(m.repos, cls) || (isDocument(cls) && classExists(cls + "Repository"))
  }

  /** `getAllRepositories` succeeds exactly when every listed class is
      available; then every listed class has a repository. It never
      replaces a memoised repository, and what it adds are listed
      classes. */
  lemma {:induction false} AllRepositoriesCovers(m: Memo, classes: seq<string>, isDocument: string -> bool, classExists: string -> bool, k: string)
    requires ValidMemo(m)
    ensures var (m', o) := AllRepositories(m, classes, isDocument, classExists);
      && ValidMemo(m')
      && (o.Pass? <==> forall c :: c in classes ==> Available(m, c, isDocument, classExists))
      && (o.Pass? ==> forall c :: c in classes ==> HasKey(m'.repos, c))
      && (HasKey(m.repos, k) ==> Lookup(m'.repos, k) == Lookup(m.repos, k))
      && (HasKey(m'.repos, k) ==> HasKey(m.repos, k) || k in classes)
    decreases |classes|
  {
    if classes != [] {
      var c := classes[0];
      var r := RepositoryFor(m, c, isDocument, classExists);
      RepositoryForEffect(m, c, isDocument, classExists, k);
      if r.Ok? {
        var m1 := r.value.0;
        var rest := classes[1..];
        AllRepositoriesCovers(m1, rest, isDocument, classExists, k);
        var (m', o) := AllRepositories(m1, rest, isDocument, classExists);
        assert AllRepositories(m, classes, isDocument, classExists) == (m', o);
        forall c' | c' in rest
          ensures Available(m1, c', isDocument, classExists) <==> Available(m, c', isDocument, classExists)
        {
          RepositoryForEffect(m, c, isDocument, classExists, c');
        }
        assert Available(m, c, isDocument, classExists);
        assert forall c' :: c' in classes <==> c' == c || c' in rest;
        if o.Pass? {
          forall c' | c' in classes
            ensures HasKey(m'.repos, c')
          {
            if c' == c {
              AllRepositoriesCovers(m1, rest, isDocument, classExists, c);
              RepositoryForEffect(m, c, isDocument, classExists, c);
            }
          }
        }
      } else {
        assert !Available(m, c, isDocument, classExists);
      }
    }
  }

  // ---------------------------------------------------------------------
  // Events

  /** An event dispatcher, recording the events handed to it. */
  class EventDispatcher {
    var dispatched: seq<(string, string)>

    constructor()
      ensures dispatched == []
    {
      dispatched := [];
    }

    method Dispatch(name: string, event: string)
      modifies this
      ensures dispatched == old(dispatched) + [(name, event)]
    {
      dispatched := dispatched + [(name, event)];
    }
  }

  class Mongator {
    var connections: Assoc<Connection>
    var defaultConnectionName: Option<string>
    var memo: Memo
    var dispatcher: Option<EventDispatcher>
    const unitOfWork: UnitOfWork

    ghost predicate Valid()
      reads this, unitOfWork
    {
      DistinctKeys(connections) && ValidMemo(memo) && unitOfWork.Valid()
    }

    /** No connections, no default, no repositories, no dispatcher, and a
        fresh unit of work. */
    constructor()
      ensures Valid() && fresh(unitOfWork)
      ensures connections == [] && defaultConnectionName == None && memo == Memo([], 0) && dispatcher == None
      ensures unitOfWork.persist == Empty && unitOfWork.remove == Empty
    {
      connections := [];
      defaultConnectionName := None;
      memo := Memo([], 0);
      dispatcher := None;
      unitOfWork := new UnitOfWork();
    }

    /** `setConnection`: stores or replaces the connection of that name. */
    method SetConnection(name: string, c: Connection)
      requires Valid()
      modifies this
      ensures Valid()
      ensures connections == Put(old(connections), name, c)
      ensures defaultConnectionName == old(defaultConnectionName) && memo == old(memo) && dispatcher == old(dispatcher)
    {
      PutLookup(connections, name, c, name);
      connections := Put(connections, name, c);
    }

    /** `setConnections`: replaces every connection by the given ones,
        setting them one by one. */
    method SetConnections(given: Assoc<Connection>)
      requires Valid()
      modifies this
      ensures Valid()
      ensures connections == Merge([], given)
      ensures defaultConnectionName == old(defaultConnectionName) && memo == old(memo) && dispatcher == old(dispatcher)
    {
      connections := [];
      var i := 0;
      while i < |given|
        invariant 0 <= i <= |given|
        invariant Valid()
        invariant Merge(connections, given[i..]) == Merge([], given)
        invariant defaultConnectionName == old(defaultConnectionName) && memo == old(memo) && dispatcher == old(dispatcher)
      {
        assert given[i..][1..] == given[i + 1..];
        SetConnection(given[i].0, given[i].1);
        i := i + 1;
      }
    }

    /** `removeConnection`. */
    method RemoveConnection(name: string) returns (o: Outcome)
      requires Valid()
      modifies this
      ensures Valid()
      ensures o.Fail? <==> !HasKey(old(connections), name)
      ensures o.Fail? ==> o.error == InvalidArgument && connections == old(connections)
      ensures o.Pass? ==> connections == Unset(old(connections), name)
      ensures defaultConnectionName == old(defaultConnectionName) && memo == old(memo) && dispatcher == old(dispatcher)
    {
      if !HasConnection(name) {
        return Fail(InvalidArgument);
      }
      UnsetLookup(connections, name, name);
      connections := Unset(connections, name);
      return Pass;
    }

    /** `clearConnections`. */
    method ClearConnections()
      requires Valid()
      modifies this
      ensures Valid()
      ensures connections == [] && forall name :: !HasConnection(name)
      ensures defaultConnectionName == old(defaultConnectionName) && memo == old(memo) && dispatcher == old(dispatcher)
    {
      connections := [];
    }

    /** `hasConnection`. */
    predicate HasConnection(name: string)
      reads this
    {
      HasKey(connections, name)
    }

    /** `getConnection`. */
    function GetConnection(name: string): (r: Result<Connection>)
      reads this
      ensures r.Ok? <==> HasConnection(name)
      ensures r == ConnectionNamed(connections, name)
    {
      ConnectionNamed(connections, name)
    }

    /** `setDefaultConnectionName`: any name, registered or not; null
        unsets the default, so that `getDefaultConnection` fails again. */
    method SetDefaultConnectionName(name: Option<string>)
      modifies this
      ensures defaultConnectionName == name
      ensures connections == old(connections) && memo == old(memo) && dispatcher == old(dispatcher)
      ensures name.None? ==> GetDefaultConnection() == Err(Runtime)
    {
      defaultConnectionName := name;
    }

    /** `getDefaultConnection`. */
    function GetDefaultConnection(): (r: Result<Connection>)
      reads this
      ensures r == DefaultConnection(connections, defaultConnectionName)
    {
      DefaultConnection(connections, defaultConnectionName)
    }

    /** `getRepository`. */
    method GetRepository(cls: string, isDocument: string -> bool, classExists: string -> bool) returns (r: Result<RepositoryRef>)
      requires Valid()
      modifies this
      ensures Valid()
      ensures var f := RepositoryFor(old(memo), cls, isDocument, classExists);
        (r.Ok? <==> f.Ok?) &&
        (r.Err? ==> r.error == f.error && memo == old(memo)) &&
        (f.Ok? ==> memo == f.value.0 && r.value == f.value.1)
      ensures connections == old(connections) && defaultConnectionName == old(defaultConnectionName) && dispatcher == old(dispatcher)
    {
      RepositoryForEffect(memo, cls, isDocument, classExists, cls);
      var f := RepositoryFor(memo, cls, isDocument, classExists);
      if f.Err? {
        return Err(f.error);
      }
      memo := f.value.0;
      return Ok(f.value.1);
    }

    /** `getAllRepositories`: the memo after asking for every document
        class. */
    method GetAllRepositories(classes: seq<string>, isDocument: string -> bool, classExists: string -> bool) returns (r: Result<Assoc<RepositoryRef>>)
      requires Valid()
      modifies this
      ensures Valid()
      ensures var (m', o) := AllRepositories(old(memo), classes, isDocument, classExists);
        memo == m' && (r.Ok? <==> o.Pass?) && (r.Ok? ==> r.value == m'.repos) && (r.Err? ==> r.error == o.error)
      ensures connections == old(connections) && defaultConnectionName == old(defaultConnectionName) && dispatcher == old(dispatcher)
    {
      var i := 0;
      while i < |classes|
        invariant 0 <= i <= |classes|
        invariant Valid()
        invariant AllRepositories(memo, classes[i..], isDocument, classExists) == AllRepositories(old(memo), classes, isDocument, classExists)
        invariant connections == old(connections) && defaultConnectionName == old(defaultConnectionName) && dispatcher == old(dispatcher)
      {
        assert classes[i..][1..] == classes[i + 1..];
        var repo := GetRepository(classes[i], isDocument, classExists);
        if repo.Err? {
          return Err(repo.error);
        }
        i := i + 1;
      }
      return Ok(memo.repos);
    }

    /** `persist`: handed to the unit of work. */
    method Persist(docs: seq<DocRef>)
      requires Valid()
      modifies unitOfWork
      ensures Valid()
      ensures (unitOfWork.persist, unitOfWork.remove) == PersistAll(old(unitOfWork.persist), old(unitOfWork.remove), docs)
    {
      unitOfWork.Persist(docs);
    }

    /** `remove`: handed to the unit of work. */
    method Remove(docs: seq<DocRef>)
      requires Valid()
      modifies unitOfWork
      ensures Valid()
      ensures (unitOfWork.persist, unitOfWork.remove) == RemoveAll(old(unitOfWork.persist), old(unitOfWork.remove), docs)
    {
      unitOfWork.Remove(docs);
    }

    /** `flush`: commits the unit of work; `throws` says which repository
        calls raise. */
    method Flush(throws: Call -> bool) returns (trace: seq<Call>, o: Outcome)
      requires Valid()
      modifies unitOfWork
      ensures Valid()
      ensures o.Pass? ==> trace == old(CommitPlan(unitOfWork.persist, unitOfWork.remove)) && !unitOfWork.HasPending()
      ensures o.Pass? ==> forall k :: 0 <= k < |trace| ==> !throws(trace[k])
      ensures o.Fail? ==> trace != [] && trace <= old(CommitPlan(unitOfWork.persist, unitOfWork.remove)) && throws(trace[|trace| - 1])
      ensures forall k :: 0 <= k < |trace| - 1 ==> !throws(trace[k])
      ensures o.Fail? ==> unitOfWork.persist == old(unitOfWork.persist) && unitOfWork.remove == old(unitOfWork.remove)
    {
      trace, o := unitOfWork.Commit(throws);
    }

    /** `setEventDispatcher`. */
    method SetEventDispatcher(d: EventDispatcher)
      modifies this
      ensures dispatcher == Some(d)
      ensures connections == old(connections) && defaultConnectionName == old(defaultConnectionName) && memo == old(memo)
    {
      dispatcher := Some(d);
    }

    /** `dispatchEvent`: nothing without a dispatcher; otherwise the event
        goes to it. */
    method DispatchEvent(name: string, event: string)
      modifies if dispatcher.Some? then {dispatcher.value} else {}
      ensures dispatcher.Some? ==> dispatcher.value.dispatched == old(dispatcher.value.dispatched) + [(name, event)]
    {
      if dispatcher.Some? {
        dispatcher.value.Dispatch(name, event);
      }
    }
  }
}
