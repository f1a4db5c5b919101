/** AbstractGroup: a one-to-many relation staged in memory. A group keeps a
    lazily initialised `saved` baseline, an `add` queue, a `remove` queue and
    a `clear` flag. Its members are `saved ++ add` with each entry of
    `remove` deleting the first equal member.

    The specification is a `GroupState` value with one function per
    operation. The class `Group` runs the operations in place, with the
    source's loops, and is proved against those functions. */
module Groups {
  import opened Wrappers

  // ---------------------------------------------------------------------
  // Sequence helpers: PHP's `array_search` and the removal loop of `all()`

  /** `array_search`: the first index holding `x`, or -1 when there is none. */
  function IndexOf<T(==)>(s: seq<T>, x: T): (i: int)
    ensures -1 <= i < |s|
    ensures i >= 0 ==> s[i] == x && x !in s[..i]
    ensures i < 0 ==> x !in s
  {
    if |s| == 0 then -1
    else if s[0] == x then 0
    else
      var j := IndexOf(s[1..], x);
      assert j >= 0 ==> s[1..][..j] == s[1..j + 1];
      if j < 0 then -1 else j + 1
  }

  /** Deletes the first element equal to `x`, if any, and closes the gap
      (`unset` followed by `array_values`). */
  function RemoveFirst<T(==)>(s: seq<T>, x: T): seq<T> {
    var i := IndexOf(s, x);
    if i < 0 then s else s[..i] + s[i + 1..]
  }

  /** Applies `RemoveFirst` for every entry of `rs`, in order. */
  function Without<T(==)>(s: seq<T>, rs: seq<T>): seq<T>
    decreases |rs|
  {
    if rs == [] then s else Without(RemoveFirst(s, rs[0]), rs[1..])
  }

  /** The removal loop of `all()`: for each entry of `rs`, the first equal
      element is searched for and, when found, cut out. */
  method RemoveEach<T(==)>(s: seq<T>, rs: seq<T>) returns (r: seq<T>)
    ensures r == Without(s, rs)
  {
    r := s;
    var i := 0;
    while i < |rs|
      invariant 0 <= i <= |rs|
      invariant Without(r, rs[i..]) == Without(s, rs)
    {
      assert rs[i..][1..] == rs[i + 1..];
      var k := IndexOf(r, rs[i]);
      if k >= 0 {
        r := r[..k] + r[k + 1..];
      }
      i := i + 1;
    }
  }

  /** `a` is `b` with some elements left out, order kept. */
  ghost predicate IsSubsequence<T>(a: seq<T>, b: seq<T>)
    decreases |b|
  {
    if b == [] then a == []
    else (a != [] && a[0] == b[0] && IsSubsequence(a[1..], b[1..])) || IsSubsequence(a, b[1..])
  }

  lemma {:induction false} RemoveFirstMultiset<T>(s: seq<T>, x: T)
    ensures multiset(RemoveFirst(s, x)) == multiset(s) - multiset{x}
    ensures x in s ==> |RemoveFirst(s, x)| == |s| - 1
    ensures x !in s ==> RemoveFirst(s, x) == s
  {
    var i := IndexOf(s, x);
    if i >= 0 {
      assert s == s[..i] + [s[i]] + s[i + 1..];
      assert multiset(s) == multiset(s[..i]) + multiset{x} + multiset(s[i + 1..]);
    }
  }

  /** Each entry of `rs` deletes at most one equal element:
      the members left are exactly the multiset difference. */
  lemma {:induction false} WithoutMultiset<T>(s: seq<T>, rs: seq<T>)
    ensures multiset(Without(s, rs)) == multiset(s) - multiset(rs)
    decreases |rs|
  {
    if rs != [] {
      var x, s' := rs[0], RemoveFirst(s, rs[0]);
      RemoveFirstMultiset(s, x);
      WithoutMultiset(s', rs[1..]);
      assert multiset(rs) == multiset{x} + multiset(rs[1..]) by {
        assert rs == [x] + rs[1..];
      }
      MinusTwice(multiset(s), multiset{x}, multiset(rs[1..]));
    }
  }

  lemma MinusTwice<T>(a: multiset<T>, b: multiset<T>, c: multiset<T>)
    ensures (a - b) - c == a - (b + c)
  {
  }

  /** At most `|rs|` elements disappear, and none is ever added. */
  lemma WithoutLength<T>(s: seq<T>, rs: seq<T>)
    ensures |s| - |rs| <= |Without(s, rs)| <= |s|
  {
    WithoutMultiset(s, rs);
    var m := multiset(s) - multiset(rs);
    assert |multiset(s)| <= |m| + |multiset(rs)| by {
      assert multiset(s) <= m + multiset(rs);
      MultisetSubsetSize(multiset(s), m + multiset(rs));
    }
    assert m <= multiset(s);
    MultisetSubsetSize(m, multiset(s));
  }

  lemma MultisetSubsetSize<T>(a: multiset<T>, b: multiset<T>)
    requires a <= b
    ensures |a| <= |b|
  {
    assert b == a + (b - a);
  }

  lemma {:induction false} SubsequenceOfSelf<T>(s: seq<T>)
    ensures IsSubsequence(s, s)
    decreases |s|
  {
    if s != [] {
      SubsequenceOfSelf(s[1..]);
    }
  }

  lemma {:induction false} SubsequenceTransitive<T>(a: seq<T>, b: seq<T>, c: seq<T>)
    requires IsSubsequence(a, b) && IsSubsequence(b, c)
    ensures IsSubsequence(a, c)
    decreases |c|
  {
    if c != [] {
      if b != [] && b[0] == c[0] && IsSubsequence(b[1..], c[1..]) {
        if a != [] && a[0] == b[0] && IsSubsequence(a[1..], b[1..]) {
          SubsequenceTransitive(a[1..], b[1..], c[1..]);
        } else {
          SubsequenceTransitive(a, b[1..], c[1..]);
        }
      } else {
        SubsequenceTransitive(a, b, c[1..]);
      }
    }
  }

  lemma {:induction false} DeleteAtIsSubsequence<T>(s: seq<T>, i: nat)
    requires i < |s|
    ensures IsSubsequence(s[..i] + s[i + 1..], s)
    decreases i
  {
    if i == 0 {
      assert s[..0] + s[1..] == s[1..];
      SubsequenceOfSelf(s[1..]);
    } else {
      DeleteAtIsSubsequence(s[1..], i - 1);
      var t := s[..i] + s[i + 1..];
      assert t[0] == s[0];
      assert t[1..] == s[1..][..i - 1] + s[1..][i..];
    }
  }

  /** The members left keep their relative order. */
  lemma {:induction false} WithoutIsSubsequence<T>(s: seq<T>, rs: seq<T>)
    ensures IsSubsequence(Without(s, rs), s)
    decreases |rs|
  {
    if rs == [] {
      SubsequenceOfSelf(s);
    } else {
      var s' := RemoveFirst(s, rs[0]);
      WithoutIsSubsequence(s', rs[1..]);
      var i := IndexOf(s, rs[0]);
      if i < 0 {
        assert s' == s;
      } else {
        DeleteAtIsSubsequence(s, i);
        SubsequenceTransitive(Without(s', rs[1..]), s', s);
      }
    }
  }

  // ---------------------------------------------------------------------
  // The group's state and its operations

  /** A single document, which PHP wraps into a one-element list, or a list. */
  datatype OneOrMany<T> = One(doc: T) | Many(docs: seq<T>)

  function AsList<T>(x: OneOrMany<T>): seq<T> {
    match x
    case One(d) => [d]
    case Many(ds) => ds
  }

  /** The `$saved` property: null until initialised, then a list. */
  datatype Saved<T> = Unloaded | Loaded(docs: seq<T>) {
    function GetOr(default: seq<T>): seq<T> {
      match this
      case Loaded(docs) => docs
      case Unloaded => default
    }
  }

  /** `add` and `remove` stand for the archive lists (an absent list reads
      as empty); `clear` for the archive's clear flag. */
  datatype GroupState<T> = GroupState(saved: Saved<T>, add: seq<T>, remove: seq<T>, clear: bool)

  /** A group after its constructor. */
  function NewGroup<T>(): GroupState<T> {
    GroupState(Unloaded, [], [], false)
  }

  /** `getSaved`: the stored baseline, or the one the group's source yields
      (`doInitializeSaved(doInitializeSavedData())`) when not initialised. */
  function SavedOf<T>(g: GroupState<T>, baseline: seq<T>): seq<T> {
    g.saved.GetOr(baseline)
  }

  /** The state after `getSaved` has run. */
  function Initialized<T>(g: GroupState<T>, baseline: seq<T>): GroupState<T> {
    g.(saved := Loaded(SavedOf(g, baseline)))
  }

  /** `all()`: saved ++ add, then each remove entry deletes the first equal
      member. */
  function AllOf<T(==)>(g: GroupState<T>, baseline: seq<T>): seq<T> {
    Without(SavedOf(g, baseline) + g.add, g.remove)
  }

  /** `one()`: the first member, or null. */
  function OneOf<T(==)>(g: GroupState<T>, baseline: seq<T>): (r: Option<T>)
    ensures r.Some? <==> AllOf(g, baseline) != []
    ensures r.Some? ==> r.value == AllOf(g, baseline)[0] && r.value in SavedOf(g, baseline) + g.add
  {
    var all := AllOf(g, baseline);
    if |all| == 0 then None
    else
      WithoutMultiset(SavedOf(g, baseline) + g.add, g.remove);
      assert all[0] in multiset(all);
      Some(all[0])
  }

  /** `count()`: the number of members, bounded by the queues' sizes. */
  function CountOf<T(==)>(g: GroupState<T>, baseline: seq<T>): (n: nat)
    ensures n == |AllOf(g, baseline)|
    ensures |SavedOf(g, baseline)| + |g.add| - |g.remove| <= n <= |SavedOf(g, baseline)| + |g.add|
  {
    WithoutLength(SavedOf(g, baseline) + g.add, g.remove);
    |AllOf(g, baseline)|
  }

  /** The new state of an operation that can fail, with its outcome. When
      it fails, `state` is what PHP leaves behind before the exception. */
  datatype Step<T> = Step(state: GroupState<T>, outcome: Outcome)

  /** `add`: with a pending remove, a group that still has members rejects
      the call (after `all()` has initialised the baseline); a group whose
      members are all removed first drops both queues and empties the
      baseline. Then the documents are appended, in order, without
      deduplication. */
  function AddDocs<T(==)>(g: GroupState<T>, baseline: seq<T>, docs: seq<T>): Step<T> {
    if g.remove != [] then
      if AllOf(g, baseline) != [] then Step(Initialized(g, baseline), Fail(Runtime))
      else Step(GroupState(Loaded([]), docs, [], g.clear), Pass)
    else Step(g.(add := g.add + docs), Pass)
  }

  /** `remove`: appends to the remove queue, checking nothing. */
  function RemoveDocs<T>(g: GroupState<T>, docs: seq<T>): GroupState<T> {
    g.(remove := g.remove + docs)
  }

  /** `clear`: only raises the flag. */
  function ClearMark<T>(g: GroupState<T>): GroupState<T> {
    g.(clear := true)
  }

  /** `markAllSaved` once every member has been updated by the caller:
      `members` becomes the baseline and both queues are dropped. */
  function Promote<T>(g: GroupState<T>, members: seq<T>): GroupState<T> {
    GroupState(Loaded(members), [], [], g.clear)
  }

  /** `markAllSaved`: the members become the baseline, each one updated by
      `settle` (its own `clearModified` and path rewrite). */
  function SavedAll<T(==)>(g: GroupState<T>, baseline: seq<T>, settle: T -> T): GroupState<T> {
    var all := AllOf(g, baseline);
    Promote(g, seq(|all|, i requires 0 <= i < |all| => settle(all[i])))
  }

  /** `replace`: an empty list only drops the add queue and raises the
      clear flag; otherwise the baseline is emptied, both queues are
      dropped and the documents are queued for adding. */
  function ReplaceDocs<T(==)>(g: GroupState<T>, baseline: seq<T>, docs: seq<T>): GroupState<T> {
    var g1 := g.(add := []);
    if docs == [] then ClearMark(g1)
    else
      var g2 := Initialized(g1, baseline);
      var g3 := RemoveDocs(g2, SavedOf(g1, baseline)).(remove := []);
      var g4 := g3.(saved := Loaded([]));
      AddDocs(g4, baseline, docs).state
  }

  /** `reset`: drops the baseline only when a queue was non-empty, and
      always drops both queues. */
  function ResetOf<T>(g: GroupState<T>): GroupState<T> {
    GroupState(if g.add != [] || g.remove != [] then Unloaded else g.saved, [], [], g.clear)
  }

  // ---------------------------------------------------------------------
  // Properties of the operations

  /** Members are exactly saved ++ add minus the remove queue, counted with
      multiplicity, and keep their order. */
  lemma AllIsStagedDifference<T>(g: GroupState<T>, baseline: seq<T>)
    ensures multiset(AllOf(g, baseline)) == multiset(SavedOf(g, baseline) + g.add) - multiset(g.remove)
    ensures IsSubsequence(AllOf(g, baseline), SavedOf(g, baseline) + g.add)
  {
    WithoutMultiset(SavedOf(g, baseline) + g.add, g.remove);
    WithoutIsSubsequence(SavedOf(g, baseline) + g.add, g.remove);
  }

  /** Without a pending remove, `add` never fails and appends exactly the
      given documents, duplicates included. */
  lemma AddWithoutRemoveAppends<T>(g: GroupState<T>, baseline: seq<T>, docs: seq<T>)
    requires g.remove == []
    ensures AddDocs(g, baseline, docs).outcome == Pass
    ensures AllOf(AddDocs(g, baseline, docs).state, baseline) == AllOf(g, baseline) + docs
  {
  }

  /** `add` fails exactly when a remove is pending and members remain. */
  lemma AddConflict<T>(g: GroupState<T>, baseline: seq<T>, docs: seq<T>)
    ensures AddDocs(g, baseline, docs).outcome.Fail? <==> g.remove != [] && AllOf(g, baseline) != []
    ensures AddDocs(g, baseline, docs).outcome.Pass? ==> AllOf(AddDocs(g, baseline, docs).state, baseline) == AllOf(g, baseline) + docs
  {
  }

  /** Removing the only member and then adding `y` succeeds and leaves `[y]`. */
  lemma RemoveThenAddOnSingleton<T>(g: GroupState<T>, baseline: seq<T>, x: T, y: T)
    requires g.remove == [] && AllOf(g, baseline) == [x]
    ensures var g1 := RemoveDocs(g, [x]);
            AllOf(g1, baseline) == [] &&
            AddDocs(g1, baseline, [y]).outcome == Pass &&
            AllOf(AddDocs(g1, baseline, [y]).state, baseline) == [y]
  {
    var s := SavedOf(g, baseline) + g.add;
    assert s == [x];
    assert IndexOf(s, x) == 0;
    assert RemoveFirst(s, x) == [];
    var g1 := RemoveDocs(g, [x]);
    assert g1.remove == [x] && SavedOf(g1, baseline) + g1.add == s;
    assert Without(s, [x]) == Without([], [x][1..]);
  }

  /** `clear` changes no member, and no group operation lowers the flag. */
  lemma ClearIsOnlyAMarker<T>(g: GroupState<T>, baseline: seq<T>, docs: seq<T>, settle: T -> T)
    ensures AllOf(ClearMark(g), baseline) == AllOf(g, baseline) && ClearMark(g).clear
    ensures g.clear ==> AddDocs(g, baseline, docs).state.clear && RemoveDocs(g, docs).clear
    ensures g.clear ==> SavedAll(g, baseline, settle).clear && ReplaceDocs(g, baseline, docs).clear
    ensures g.clear ==> ResetOf(g).clear
  {
  }

  /** With members left unchanged by `settle`, `markAllSaved` keeps the
      members and empties both queues; later `all()` no longer depends on
      the source's baseline. */
  lemma MarkAllSavedKeepsMembers<T>(g: GroupState<T>, baseline: seq<T>, other: seq<T>)
    ensures var g' := SavedAll(g, baseline, x => x);
            AllOf(g', other) == AllOf(g, baseline) && g'.add == [] && g'.remove == [] && g'.saved.Loaded?
  {
    var all := AllOf(g, baseline);
    assert seq(|all|, i requires 0 <= i < |all| => (x => x)(all[i])) == all;
  }

  /** `replace(docs)` with a non-empty list: the members are exactly `docs`
      and the remove queue is empty; with an empty list the members are
      kept and the clear flag is raised. */
  lemma ReplaceSetsMembers<T>(g: GroupState<T>, baseline: seq<T>, docs: seq<T>)
    ensures docs != [] ==> var g' := ReplaceDocs(g, baseline, docs);
      g'.saved == Loaded([]) && g'.add == docs && g'.remove == [] && AllOf(g', baseline) == docs
    ensures docs == [] ==> var g' := ReplaceDocs(g, baseline, docs);
      g'.add == [] && g'.clear && g'.saved == g.saved && g'.remove == g.remove
  {
  }

  /** `replace([a, b])` then `markAllSaved` ends with members `[a, b]`,
      count 2 and both queues empty. */
  lemma ReplaceThenMarkAllSaved<T>(g: GroupState<T>, baseline: seq<T>, a: T, b: T)
    ensures var g' := SavedAll(ReplaceDocs(g, baseline, [a, b]), baseline, x => x);
            AllOf(g', baseline) == [a, b] && CountOf(g', baseline) == 2 && g'.add == [] && g'.remove == []
  {
    ReplaceSetsMembers(g, baseline, [a, b]);
    MarkAllSavedKeepsMembers(ReplaceDocs(g, baseline, [a, b]), baseline, baseline);
  }

  /** `reset` empties both queues, and re-reads the baseline afterwards
      exactly when a queue was non-empty. */
  lemma ResetDropsQueues<T>(g: GroupState<T>, baseline: seq<T>)
    ensures ResetOf(g).add == [] && ResetOf(g).remove == []
    ensures (g.add != [] || g.remove != []) ==> AllOf(ResetOf(g), baseline) == baseline
    ensures (g.add == [] && g.remove == []) ==> AllOf(ResetOf(g), baseline) == AllOf(g, baseline)
  {
  }

  // ---------------------------------------------------------------------
  // The group object

  class Group<T(==)> {
    var saved: Saved<T>
    var add: seq<T>
    var remove: seq<T>
    var clear: bool
    /** What the group's source yields when the baseline is initialised. */
    const baseline: seq<T>

    function State(): GroupState<T>
      reads this
    {
      GroupState(saved, add, remove, clear)
    }

    constructor (baseline: seq<T>)
      ensures State() == NewGroup() && this.baseline == baseline
    {
      this.baseline := baseline;
      saved := Unloaded;
      add := [];
      remove := [];
      clear := false;
    }

    predicate IsSavedInitialized()
      reads this
    {
      saved.Loaded?
    }

    method GetSaved() returns (s: seq<T>)
      modifies this
      ensures s == SavedOf(old(State()), baseline)
      ensures State() == Initialized(old(State()), baseline)
    {
      if saved.Unloaded? {
        saved := Loaded(baseline);
      }
      s := saved.docs;
    }

    method All() returns (r: seq<T>)
      modifies this
      ensures r == AllOf(old(State()), baseline)
      ensures State() == Initialized(old(State()), baseline)
    {
      var s := GetSaved();
      r := RemoveEach(s + add, remove);
    }

    method One() returns (d: Option<T>)
      modifies this
      ensures d == OneOf(old(State()), baseline)
      ensures State() == Initialized(old(State()), baseline)
    {
      var all := All();
      d := if |all| == 0 then None else Some(all[0]);
    }

    method Count() returns (n: nat)
      modifies this
      ensures n == CountOf(old(State()), baseline)
      ensures State() == Initialized(old(State()), baseline)
    {
      var all := All();
      n := |all|;
    }

    method Add(documents: OneOrMany<T>) returns (outcome: Outcome)
      modifies this
      ensures State() == AddDocs(old(State()), baseline, AsList(documents)).state
      ensures outcome == AddDocs(old(State()), baseline, AsList(documents)).outcome
    {
      if remove != [] {
        var all := All();
        if all != [] {
          return Fail(Runtime);
        }
        add := [];
        remove := [];
        saved := Loaded([]);
      }
      var docs := AsList(documents);
      ghost var add0, saved0, remove0 := add, saved, remove;
      var i := 0;
      while i < |docs|
        invariant 0 <= i <= |docs|
        invariant add == add0 + docs[..i]
        invariant saved == saved0 && remove == remove0 && clear == old(clear)
      {
        add := add + [docs[i]];
        i := i + 1;
      }
      assert docs[..i] == docs;
      outcome := Pass;
    }

    method Remove(documents: OneOrMany<T>)
      modifies this
      ensures State() == RemoveDocs(old(State()), AsList(documents))
    {
      var docs := AsList(documents);
      ghost var remove0 := remove;
      var i := 0;
      while i < |docs|
        invariant 0 <= i <= |docs|
        invariant remove == remove0 + docs[..i]
        invariant saved == old(saved) && add == old(add) && clear == old(clear)
      {
        remove := remove + [docs[i]];
        i := i + 1;
      }
      assert docs[..i] == docs;
    }

    method Clear()
      modifies this
      ensures State() == ClearMark(old(State()))
    {
      clear := true;
    }

    method MarkAllSaved(settle: T -> T)
      modifies this
      ensures State() == SavedAll(old(State()), baseline, settle)
    {
      var all := All();
      var members: seq<T> := [];
      var i := 0;
      while i < |all|
        invariant 0 <= i <= |all|
        invariant members == seq(i, j requires 0 <= j < i => settle(all[j]))
      {
        members := members + [settle(all[i])];
        i := i + 1;
      }
      saved := Loaded(members);
      add := [];
      remove := [];
    }

    method Replace(documents: seq<T>)
      modifies this
      ensures State() == ReplaceDocs(old(State()), baseline, documents)
    {
      add := [];
      if documents == [] {
        Clear();
        return;
      }
      var s := GetSaved();
      Remove(Many(s));
      remove := [];
      saved := Loaded([]);
      var _ := Add(Many(documents));
    }

    /** `refreshSaved`: re-reads the baseline even when already initialised. */
    method RefreshSaved()
      modifies this
      ensures State() == old(State()).(saved := Loaded(baseline))
    {
      saved := Loaded(baseline);
    }

    /** `clearSaved`: the next read initialises the baseline again. */
    method ClearSaved()
      modifies this
      ensures State() == old(State()).(saved := Unloaded)
      ensures !IsSavedInitialized()
    {
      saved := Unloaded;
    }

    method Reset()
      modifies this
      ensures State() == ResetOf(old(State()))
    {
      if add != [] || remove != [] {
        saved := Unloaded;
      }
      add := [];
      remove := [];
    }
  }
}
