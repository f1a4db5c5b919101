/** UnitOfWork: documents staged for saving or deleting, in two PHP arrays
    from document class to object hash to document. Staging a document for
    one operation withdraws it from the other; `commit` saves class by
    class, then deletes class by class, then empties both arrays. */
module Staging {
  import opened Wrappers

  /** A document instance: its class and its object hash
      (`spl_object_hash`). */
  datatype DocRef = DocRef(cls: string, oid: nat)

  /** One of the two arrays: class → object hash → document, with its
      class keys in insertion order (the order `foreach` visits them). */
  datatype Ledger = Ledger(entries: map<string, map<nat, DocRef>>, order: seq<string>)

  /** The order lists exactly the class keys, each once. */
  ghost predicate WellOrdered(l: Ledger) {
    && (forall c :: c in l.entries <==> c in l.order)
    && (forall i, j :: 0 <= i < j < |l.order| ==> l.order[i] != l.order[j])
  }

  const Empty := Ledger(map[], [])

  /** `isset($l[$class][$oid])`. */
  predicate Holds(l: Ledger, d: DocRef) {
    d.cls in l.entries && d.oid in l.entries[d.cls]
  }

  /** `$l[$class][$oid] = $document`: a new class key is appended. */
  function Stage(l: Ledger, d: DocRef): Ledger {
    var batch := if d.cls in l.entries then l.entries[d.cls] else map[];
    Ledger(l.entries[d.cls := batch[d.oid := d]], if d.cls in l.entries then l.order else l.order + [d.cls])
  }

  /** `unset($l[$class][$oid])` when set: the class key stays, possibly
      holding an empty array. */
  function Unstage(l: Ledger, d: DocRef): Ledger {
    if Holds(l, d) then Ledger(l.entries[d.cls := l.entries[d.cls] - {d.oid}], l.order) else l
  }

  /** `persist($documents)` on the pair (persist, remove). `remove` is the
      same fold with the two arrays swapped. */
  function PersistAll(p: Ledger, r: Ledger, docs: seq<DocRef>): (Ledger, Ledger)
    decreases |docs|
  {
    if docs == [] then (p, r) else PersistAll(Stage(p, docs[0]), Unstage(r, docs[0]), docs[1..])
  }

  function RemoveAll(p: Ledger, r: Ledger, docs: seq<DocRef>): (Ledger, Ledger) {
    var (r', p') := PersistAll(r, p, docs);
    (p', r')
  }

  /** No instance is pending for both operations. */
  ghost predicate Exclusive(p: Ledger, r: Ledger) {
    forall d :: Holds(p, d) ==> !Holds(r, d)
  }

  /** `persist`: every listed document ends up pending for saving and not
      for removal, every other document keeps its status, the class order
      of the persist array only grows at its end, and the remove array
      keeps its class keys (emptied entries are not dropped). */
  lemma {:induction false} PersistAllEffect(p: Ledger, r: Ledger, docs: seq<DocRef>, d: DocRef)
    requires WellOrdered(p) && WellOrdered(r)
    ensures var (p', r') := PersistAll(p, r, docs);
      && WellOrdered(p') && WellOrdered(r')
      && (d in docs ==> Holds(p', d) && !Holds(r', d))
      && (d !in docs ==> (Holds(p', d) <==> Holds(p, d)) && (Holds(r', d) <==> Holds(r, d)))
      && p.order <= p'.order
      && r'.order == r.order && r'.entries.Keys == r.entries.Keys
    decreases |docs|
  {
    if docs != [] {
      var x := docs[0];
      var p1, r1 := Stage(p, x), Unstage(r, x);
      StageEffect(p, x, d);
      UnstageEffect(r, x, d);
      PersistAllEffect(p1, r1, docs[1..], d);
      assert d in docs <==> d == x || d in docs[1..];
    }
  }

  /** Staging `x` keeps the order well formed and only grows it, and
      makes `x` held. */
  lemma StageEffect(l: Ledger, x: DocRef, d: DocRef)
    requires WellOrdered(l)
    ensures var l' := Stage(l, x);
      WellOrdered(l') && l.order <= l'.order && (Holds(l', d) <==> d == x || Holds(l, d))
  {
    var l' := Stage(l, x);
    if x.cls !in l.entries {
      forall i, j | 0 <= i < j < |l'.order|
        ensures l'.order[i] != l'.order[j]
      {
        if j == |l.order| {
          assert l'.order[i] == l.order[i];
        }
      }
    }
  }

  /** Unstaging `x` keeps the class keys and their order, and makes `x`
      not held. */
  lemma UnstageEffect(l: Ledger, x: DocRef, d: DocRef)
    requires WellOrdered(l)
    ensures var l' := Unstage(l, x);
      WellOrdered(l') && l'.order == l.order && l'.entries.Keys == l.entries.Keys &&
      (Holds(l', d) <==> d != x && Holds(l, d))
  {
  }

  /** One document of `persist`. */
  lemma PersistAllStep(p: Ledger, r: Ledger, docs: seq<DocRef>)
    requires docs != []
    ensures PersistAll(p, r, docs) == PersistAll(Stage(p, docs[0]), Unstage(r, docs[0]), docs[1..])
  {
  }

  /** Staging keeps both arrays well ordered and exclusive. */
  lemma PersistAllValid(p: Ledger, r: Ledger, docs: seq<DocRef>)
    requires WellOrdered(p) && WellOrdered(r) && Exclusive(p, r)
    ensures var (p', r') := PersistAll(p, r, docs);
      WellOrdered(p') && WellOrdered(r') && Exclusive(p', r') && Exclusive(r', p')
  {
    PersistAllKeepsExclusive(p, r, docs);
    PersistAllEffect(p, r, docs, DocRef("", 0));
  }

  /** Staging keeps the two arrays exclusive. */
  lemma PersistAllKeepsExclusive(p: Ledger, r: Ledger, docs: seq<DocRef>)
    requires WellOrdered(p) && WellOrdered(r) && Exclusive(p, r)
    ensures var (p', r') := PersistAll(p, r, docs);
      Exclusive(p', r') && Exclusive(r', p')
  {
    var (p', r') := PersistAll(p, r, docs);
    forall d
      ensures Holds(p', d) ==> !Holds(r', d)
      ensures Holds(r', d) ==> !Holds(p', d)
    {
      PersistAllEffect(p, r, docs, d);
    }
  }

  /** `commit`'s calls into the repositories. */
  datatype Call = Save(cls: string, docs: map<nat, DocRef>) | Delete(cls: string, docs: map<nat, DocRef>)

  /** `commit` when nothing throws: one save per persist class key, in
      order, then one delete per remove class key. */
  function CommitPlan(p: Ledger, r: Ledger): seq<Call>
    requires WellOrdered(p) && WellOrdered(r)
  {
    Saves(p) + Deletes(r)
  }

  /** One save per class key, in order. */
  function Saves(l: Ledger): seq<Call>
    requires WellOrdered(l)
  {
    seq(|l.order|, i requires 0 <= i < |l.order| => Save(l.order[i], l.entries[l.order[i]]))
  }

  /** One delete per class key, in order. */
  function Deletes(l: Ledger): seq<Call>
    requires WellOrdered(l)
  {
    seq(|l.order|, i requires 0 <= i < |l.order| => Delete(l.order[i], l.entries[l.order[i]]))
  }

  /** A prefix of either half of a sequence is a prefix of the whole. */
  lemma PrefixOfConcat<T>(a: seq<T>, b: seq<T>, i: nat, j: nat)
    requires i <= |a| && j <= |b|
    ensures a[..i] <= a + b && a + b[..j] <= a + b
  {
    assert (a + b)[..i] == a[..i];
    assert (a + b)[..|a| + j] == a + b[..j];
  }

  /** Every class key of the persist array is saved once and every class
      key of the remove array is deleted once. */
  lemma CommitPlanCoversEachClass(p: Ledger, r: Ledger, c: string)
    requires WellOrdered(p) && WellOrdered(r)
    ensures var plan := CommitPlan(p, r);
      && (c in p.entries <==> exists i :: 0 <= i < |plan| && plan[i].Save? && plan[i].cls == c)
      && (c in r.entries <==> exists i :: 0 <= i < |plan| && plan[i].Delete? && plan[i].cls == c)
  {
    var plan := CommitPlan(p, r);
    var n := |p.order|;
    if c in p.entries {
      var i :| 0 <= i < n && p.order[i] == c;
      assert plan[i].Save? && plan[i].cls == c;
    }
    if c in r.entries {
      var i :| 0 <= i < |r.order| && r.order[i] == c;
      assert plan[n + i].Delete? && plan[n + i].cls == c;
    }
  }

  /** All saves come before all deletes, no class is saved twice or
      deleted twice, and each call carries that class's documents. */
  lemma CommitPlanShape(p: Ledger, r: Ledger)
    requires WellOrdered(p) && WellOrdered(r)
    ensures var plan := CommitPlan(p, r);
      && (forall i :: 0 <= i < |plan| ==> (plan[i].Save? <==> i < |p.order|))
      && (forall i :: 0 <= i < |plan| && plan[i].Save? ==> plan[i].cls in p.entries && plan[i].docs == p.entries[plan[i].cls])
      && (forall i :: 0 <= i < |plan| && plan[i].Delete? ==> plan[i].cls in r.entries && plan[i].docs == r.entries[plan[i].cls])
      && (forall i, j :: 0 <= i < j < |plan| && plan[i].Save? == plan[j].Save? ==> plan[i].cls != plan[j].cls)
  {
    var plan := CommitPlan(p, r);
    var n := |p.order|;
    forall i, j | 0 <= i < j < |plan| && plan[i].Save? == plan[j].Save?
      ensures plan[i].cls != plan[j].cls
    {
      if j < n {
        assert plan[i].cls == p.order[i] && plan[j].cls == p.order[j];
      } else {
        assert plan[i].cls == r.order[i - n] && plan[j].cls == r.order[j - n];
      }
    }
  }

  /** The loop of `persist` over its two arrays (`remove` passes them
      swapped): each document is withdrawn from the other array when it is
      there, then staged. */
  method Stages(p0: Ledger, r0: Ledger, docs: seq<DocRef>) returns (p: Ledger, r: Ledger)
    ensures (p, r) == PersistAll(p0, r0, docs)
  {
    p, r := p0, r0;
    var i := 0;
    while i < |docs|
      invariant 0 <= i <= |docs|
      invariant PersistAll(p, r, docs[i..]) == PersistAll(p0, r0, docs)
    {
      var d := docs[i];
      PersistAllStep(p, r, docs[i..]);
      if Holds(r, d) {
        r := Unstage(r, d);
      }
      p := Stage(p, d);
      assert docs[i..][1..] == docs[i + 1..];
      i := i + 1;
    }
  }

  /** The two loops of `commit`: a save per persist class key, then a
      delete per remove class key, stopping after the first call that
      throws. Either every call of the plan is made, or a prefix of it whose
      last call threw. */
  method Calls(p: Ledger, r: Ledger, throws: Call -> bool) returns (trace: seq<Call>, threw: bool)
    requires WellOrdered(p) && WellOrdered(r)
    ensures trace <= CommitPlan(p, r)
    ensures threw ==> trace != [] && throws(trace[|trace| - 1])
    ensures !threw ==> trace == CommitPlan(p, r) && forall k :: 0 <= k < |trace| ==> !throws(trace[k])
    ensures forall k :: 0 <= k < |trace| - 1 ==> !throws(trace[k])
  {
    ghost var saves, deletes := Saves(p), Deletes(r);
    trace, threw := [], false;
    var i := 0;
    while i < |p.order|
      invariant 0 <= i <= |p.order|
      invariant trace == saves[..i]
      invariant forall k :: 0 <= k < |trace| ==> !throws(trace[k])
    {
      var call := Save(p.order[i], p.entries[p.order[i]]);
      assert saves[..i] + [call] == saves[..i + 1];
      trace := trace + [call];
      if throws(call) {
        PrefixOfConcat(saves, deletes, i + 1, 0);
        return trace, true;
      }
      i := i + 1;
    }
    assert trace == saves;
    var j := 0;
    while j < |r.order|
      invariant 0 <= j <= |r.order|
      invariant trace == saves + deletes[..j]
      invariant forall k :: 0 <= k < |trace| ==> !throws(trace[k])
    {
      var call := Delete(r.order[j], r.entries[r.order[j]]);
      assert deletes[..j] + [call] == deletes[..j + 1];
      trace := trace + [call];
      if throws(call) {
        PrefixOfConcat(saves, deletes, 0, j + 1);
        return trace, true;
      }
      j := j + 1;
    }
    assert deletes[..j] == deletes;
  }

  class UnitOfWork {
    var persist: Ledger
    var remove: Ledger

    ghost predicate Valid()
      reads this
    {
      WellOrdered(persist) && WellOrdered(remove) && Exclusive(persist, remove)
    }

    constructor ()
      ensures Valid() && persist == Empty && remove == Empty
    {
      persist := Empty;
      remove := Empty;
    }

    predicate IsPendingForPersist(d: DocRef)
      reads this
    {
      Holds(persist, d)
    }

    predicate IsPendingForRemove(d: DocRef)
      reads this
    {
      Holds(remove, d)
    }

    /** `(bool) count($this->persist)`: counts class keys, even those
        holding an empty array. */
    predicate HasPendingForPersist()
      reads this
    {
      persist.entries != map[]
    }

    predicate HasPendingForRemove()
      reads this
    {
      remove.entries != map[]
    }

    predicate HasPending()
      reads this
    {
      HasPendingForPersist() || HasPendingForRemove()
    }

    /** `persist`: a single document is passed as a one-element list. */
    method Persist(docs: seq<DocRef>)
      requires Valid()
      modifies this
      ensures (persist, remove) == PersistAll(old(persist), old(remove), docs)
      ensures Valid()
    {
      var p, r := Stages(persist, remove, docs);
      PersistAllValid(persist, remove, docs);
      persist, remove := p, r;
    }

    /** `remove`: the mirror image of `persist`. */
    method Remove(docs: seq<DocRef>)
      requires Valid()
      modifies this
      ensures (persist, remove) == RemoveAll(old(persist), old(remove), docs)
      ensures Valid()
    {
      var r, p := Stages(remove, persist, docs);
      PersistAllValid(remove, persist, docs);
      persist, remove := p, r;
    }

    /** `commit`: `throws` says which repository calls raise. The first one
        that raises ends the commit with the exception and nothing is
        cleared. */
    method Commit(throws: Call -> bool) returns (trace: seq<Call>, outcome: Outcome)
      requires Valid()
      modifies this
      ensures outcome.Pass? ==> trace == old(CommitPlan(persist, remove)) && persist == Empty && remove == Empty
      ensures outcome.Pass? ==> forall k :: 0 <= k < |trace| ==> !throws(trace[k])
      ensures outcome.Fail? ==>
        && trace != [] && trace <= old(CommitPlan(persist, remove)) && throws(trace[|trace| - 1])
        && persist == old(persist) && remove == old(remove)
      ensures forall k :: 0 <= k < |trace| - 1 ==> !throws(trace[k])
      ensures Valid()
    {
      var threw;
      trace, threw := Calls(persist, remove, throws);
      if threw {
        return trace, Fail(GenericException);
      }
      Clear();
      outcome := Pass;
    }

    /** `clear`: empties both arrays. */
    method Clear()
      modifies this
      ensures persist == Empty && remove == Empty
      ensures Valid() && !HasPending()
    {
      persist := Empty;
      remove := Empty;
    }
  }

  /** `persist(d)` then `remove(d)` on an empty unit of work: the document
      is pending for removal only, yet `hasPendingForPersist` still holds
      because the emptied class key is kept. */
  lemma PersistThenRemoveKeepsEmptyClass(d: DocRef)
    ensures var (p1, r1) := PersistAll(Empty, Empty, [d]);
      var (p2, r2) := RemoveAll(p1, r1, [d]);
      && !Holds(p2, d) && Holds(r2, d)
      && p2.entries == map[d.cls := map[]] && p2.order == [d.cls]
  {
    assert [d][1..] == [];
    assert d.cls !in Empty.entries;
    var p1 := Stage(Empty, d);
    assert p1.entries[d.cls] == map[d.oid := d];
    assert PersistAll(Empty, Empty, [d]) == (p1, Empty);
    assert PersistAll(Empty, p1, [d]) == PersistAll(Stage(Empty, d), Unstage(p1, d), []);
    assert RemoveAll(p1, Empty, [d]) == (Unstage(p1, d), Stage(Empty, d));
    assert Holds(p1, d) && p1.entries[d.cls] == map[d.oid := d];
    assert map[d.oid := d] - {d.oid} == map[];
  }

  /** Staging the same document twice is the same as staging it once. */
  lemma {:induction false} PersistTwiceIsPersistOnce(p: Ledger, r: Ledger, d: DocRef)
    ensures PersistAll(p, r, [d, d]) == PersistAll(p, r, [d])
  {
    var p1, r1 := Stage(p, d), Unstage(r, d);
    assert [d, d][1..] == [d] && [d][1..] == [];
    var batch := p1.entries[d.cls];
    assert batch[d.oid := d] == batch;
    assert p1.entries[d.cls := batch] == p1.entries;
    assert !Holds(r1, d);
  }
}
