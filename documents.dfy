/** The change-tracking state of a document (AbstractDocument) and of its
    embedded documents and embedded groups (EmbeddedDocument,
    EmbeddedGroup), as values.

    A document holds its `fields`, the originals of the fields changed
    since the last save (`fieldsModified`), its embedded-one slots, its
    embedded-many groups and, in its archive, the `embedded_one.<name>`
    markers left by replacing an embedded one and the `root_and_path`
    entry that ties an embedded document to its root document. */
module Documents {
  import opened Wrappers
  import opened PhpValues
  import opened Strings
  import opened Groups

  /** The identity of a root `Document`. */
  type RootRef = nat

  /** The archive entry `root_and_path`. */
  datatype Rap = Rap(root: RootRef, path: string)

  /** An entry of `data['embeddedsOne']`: the name and the embedded
      document, or null. */
  datatype Slot = Slot(name: string, doc: Option<Doc>)

  /** An entry of `data['embeddedsMany']`. */
  datatype GroupSlot = GroupSlot(name: string, group: EGroup)

  /** A document. `fields` is None when `data['fields']` is not set; absent
      `embeddedsOne` / `embeddedsMany` entries read as empty lists.
      `changed` holds the archive entries `embedded_one.<k>`, by `<k>`,
      with the original embedded value (or null). */
  datatype Doc = Doc(
    fields: Option<map<string, Value>>,
    fieldsModified: map<string, Value>,
    embeddedsOne: seq<Slot>,
    embeddedsMany: seq<GroupSlot>,
    changed: map<string, Option<Doc>>,
    rap: Option<Rap>)

  /** The archive entry `saved_data`: null until set, then the list of
      stored entries, each the document its data builds, or null. */
  datatype SavedData = NoSavedData | SavedData(entries: seq<Option<Doc>>)

  /** An embedded group: the staging state of `AbstractGroup`, its own
      `root_and_path` and its `saved_data`. */
  datatype EGroup = EGroup(state: GroupState<Doc>, rap: Option<Rap>, savedData: SavedData)

  function NewDoc(fields: Option<map<string, Value>>, embeddedsOne: seq<Slot>, embeddedsMany: seq<GroupSlot>): Doc {
    Doc(fields, map[], embeddedsOne, embeddedsMany, map[], None)
  }

  function NewEGroup(): EGroup {
    EGroup(NewGroup(), None, NoSavedData)
  }

  // ---------------------------------------------------------------------
  // A size measure, for the termination of `clearModified`

  function SumNat(s: seq<nat>): nat {
    if s == [] then 0 else s[0] + SumNat(s[1..])
  }

  lemma {:induction false} SumNatBounds(s: seq<nat>, k: nat)
    requires k < |s|
    ensures s[k] <= SumNat(s)
  {
    if k > 0 {
      SumNatBounds(s[1..], k - 1);
    }
  }

  /** The number of documents in a tree, counting the embedded ones, the
      members of each group's saved list and add queue, and the entries of
      its saved data. The remove queue and the markers are not counted. */
  ghost function Size(d: Doc): nat
    decreases d
  {
    1 + SumNat(seq(|d.embeddedsOne|, i requires 0 <= i < |d.embeddedsOne| =>
          if d.embeddedsOne[i].doc.Some? then Size(d.embeddedsOne[i].doc.value) else 0))
      + SumNat(seq(|d.embeddedsMany|, i requires 0 <= i < |d.embeddedsMany| => GroupSize(d.embeddedsMany[i].group)))
  }

  ghost function GroupSize(g: EGroup): nat
    decreases g
  {
    1 + SumNat(seq(|g.state.add|, k requires 0 <= k < |g.state.add| => Size(g.state.add[k])))
      + (if g.state.saved.Loaded? then
           SumNat(seq(|g.state.saved.docs|, k requires 0 <= k < |g.state.saved.docs| => Size(g.state.saved.docs[k])))
         else 0)
      + (if g.savedData.SavedData? then
           SumNat(seq(|g.savedData.entries|, k requires 0 <= k < |g.savedData.entries| =>
             if g.savedData.entries[k].Some? then Size(g.savedData.entries[k].value) else 0))
         else 0)
  }

  lemma SlotSmaller(d: Doc, i: nat)
    requires i < |d.embeddedsOne| && d.embeddedsOne[i].doc.Some?
    ensures Size(d.embeddedsOne[i].doc.value) < Size(d)
  {
    SumNatBounds(seq(|d.embeddedsOne|, i requires 0 <= i < |d.embeddedsOne| =>
      if d.embeddedsOne[i].doc.Some? then Size(d.embeddedsOne[i].doc.value) else 0), i);
  }

  lemma GroupSmaller(d: Doc, i: nat)
    requires i < |d.embeddedsMany|
    ensures GroupSize(d.embeddedsMany[i].group) < Size(d)
  {
    SumNatBounds(seq(|d.embeddedsMany|, i requires 0 <= i < |d.embeddedsMany| => GroupSize(d.embeddedsMany[i].group)), i);
  }

  lemma AddSmaller(g: EGroup, k: nat)
    requires k < |g.state.add|
    ensures Size(g.state.add[k]) < GroupSize(g)
  {
    SumNatBounds(seq(|g.state.add|, k requires 0 <= k < |g.state.add| => Size(g.state.add[k])), k);
  }

  lemma SavedSmaller(g: EGroup, k: nat)
    requires g.state.saved.Loaded? && k < |g.state.saved.docs|
    ensures Size(g.state.saved.docs[k]) < GroupSize(g)
  {
    SumNatBounds(seq(|g.state.saved.docs|, k requires 0 <= k < |g.state.saved.docs| => Size(g.state.saved.docs[k])), k);
  }

  lemma EntrySmaller(g: EGroup, k: nat)
    requires g.savedData.SavedData? && k < |g.savedData.entries| && g.savedData.entries[k].Some?
    ensures Size(g.savedData.entries[k].value) < GroupSize(g)
  {
    SumNatBounds(seq(|g.savedData.entries|, k requires 0 <= k < |g.savedData.entries| =>
      if g.savedData.entries[k].Some? then Size(g.savedData.entries[k].value) else 0), k);
  }

  // ---------------------------------------------------------------------
  // Root and path

  /** `EmbeddedDocument::setRootAndPath`: records the root and path, then
      gives each embedded one the path `<path>.<name>` and each embedded
      group the path `<path>.<name>`. A null embedded one is a call on null. */
  function SetRootAndPath(d: Doc, root: RootRef, path: string): (r: Result<Doc>)
    decreases d, 2, 0
    ensures r.Ok? ==> r.value.rap == Some(Rap(root, path))
    ensures r.Ok? ==> r.value.fields == d.fields && r.value.fieldsModified == d.fieldsModified && r.value.changed == d.changed
    ensures r.Ok? ==> |r.value.embeddedsOne| == |d.embeddedsOne| && |r.value.embeddedsMany| == |d.embeddedsMany|
  {
    var slots :- SetSlots(d, 0, root, path);
    var groups :- SetGroups(d, 0, root, path);
    Ok(d.(embeddedsOne := slots, embeddedsMany := groups, rap := Some(Rap(root, path))))
  }

  /** The embedded ones from index `i` on, each re-rooted. */
  function SetSlots(d: Doc, i: nat, root: RootRef, path: string): (r: Result<seq<Slot>>)
    requires i <= |d.embeddedsOne|
    decreases d, 1, |d.embeddedsOne| - i
    ensures r.Ok? ==> |r.value| == |d.embeddedsOne| - i
    ensures r.Ok? ==> forall k :: i <= k < |d.embeddedsOne| ==>
      var s := d.embeddedsOne[k];
      && s.doc.Some?
      && SetRootAndPath(s.doc.value, root, path + "." + s.name).Ok?
      && r.value[k - i] == Slot(s.name, Some(SetRootAndPath(s.doc.value, root, path + "." + s.name).value))
  {
    if i == |d.embeddedsOne| then Ok([])
    else
      var s := d.embeddedsOne[i];
      if s.doc.None? then Err(PhpError)
      else
        var c :- SetRootAndPath(s.doc.value, root, path + "." + s.name);
        var rest :- SetSlots(d, i + 1, root, path);
        Ok([Slot(s.name, Some(c))] + rest)
  }

  /** The embedded groups from index `i` on, each re-rooted. */
  function SetGroups(d: Doc, i: nat, root: RootRef, path: string): (r: Result<seq<GroupSlot>>)
    requires i <= |d.embeddedsMany|
    decreases d, 1, |d.embeddedsMany| - i
    ensures r.Ok? ==> |r.value| == |d.embeddedsMany| - i
    ensures r.Ok? ==> forall k :: i <= k < |d.embeddedsMany| ==>
      var m := d.embeddedsMany[k];
      && GroupSetRootAndPath(m.group, root, path + "." + m.name).Ok?
      && r.value[k - i] == GroupSlot(m.name, GroupSetRootAndPath(m.group, root, path + "." + m.name).value)
  {
    if i == |d.embeddedsMany| then Ok([])
    else
      var m := d.embeddedsMany[i];
      var g :- GroupSetRootAndPath(m.group, root, path + "." + m.name);
      var rest :- SetGroups(d, i + 1, root, path);
      Ok([GroupSlot(m.name, g)] + rest)
  }

  /** The path an embedded group gives its `k`-th queued member. */
  function AddPath(path: string, k: nat): string {
    path + "._add" + NatToString(k)
  }

  /** `EmbeddedGroup::setRootAndPath`: records the root and path, then
      gives the `k`-th member of the add queue the path `<path>._add<k>`. */
  function GroupSetRootAndPath(g: EGroup, root: RootRef, path: string): (r: Result<EGroup>)
    decreases g, 2, 0
    ensures r.Ok? ==> r.value.rap == Some(Rap(root, path))
    ensures r.Ok? ==> r.value.savedData == g.savedData && r.value.state.saved == g.state.saved
    ensures r.Ok? ==> r.value.state.remove == g.state.remove && r.value.state.clear == g.state.clear
    ensures r.Ok? ==> |r.value.state.add| == |g.state.add|
  {
    var adds :- SetAdds(g, 0, root, path);
    Ok(g.(state := g.state.(add := adds), rap := Some(Rap(root, path))))
  }

  function SetAdds(g: EGroup, k: nat, root: RootRef, path: string): (r: Result<seq<Doc>>)
    requires k <= |g.state.add|
    decreases g, 1, |g.state.add| - k
    ensures r.Ok? ==> |r.value| == |g.state.add| - k
  {
    if k == |g.state.add| then Ok([])
    else
      var c :- SetRootAndPath(g.state.add[k], root, AddPath(path, k));
      var rest :- SetAdds(g, k + 1, root, path);
      Ok([c] + rest)
  }

  /** Each queued member from `k` on is re-rooted at its own add path. */
  lemma {:induction false} SetAddsEach(g: EGroup, k: nat, root: RootRef, path: string)
    requires k <= |g.state.add| && SetAdds(g, k, root, path).Ok?
    ensures var r := SetAdds(g, k, root, path).value;
      forall j :: k <= j < |g.state.add| ==> SetRootAndPath(g.state.add[j], root, AddPath(path, j)) == Ok(r[j - k])
    decreases |g.state.add| - k
  {
    if k < |g.state.add| {
      SetAddsEach(g, k + 1, root, path);
      var r := SetAdds(g, k, root, path).value;
      var rest := SetAdds(g, k + 1, root, path).value;
      assert r == [r[0]] + rest;
      forall j | k < j < |g.state.add|
        ensures SetRootAndPath(g.state.add[j], root, AddPath(path, j)) == Ok(r[j - k])
      {
        assert r[j - k] == rest[j - (k + 1)];
      }
    }
  }

  /** After `setRootAndPath(root, path)` every embedded one has the path
      `<path>.<name>`, every embedded group `<path>.<name>`, and the `k`-th
      queued member of such a group `<path>.<name>._add<k>`. */
  lemma SetRootAndPathPaths(d: Doc, root: RootRef, path: string)
    requires SetRootAndPath(d, root, path).Ok?
    ensures var r := SetRootAndPath(d, root, path).value;
      && (forall i :: 0 <= i < |d.embeddedsOne| ==>
            && r.embeddedsOne[i].name == d.embeddedsOne[i].name
            && d.embeddedsOne[i].doc.Some? && r.embeddedsOne[i].doc.Some?
            && r.embeddedsOne[i].doc.value.rap == Some(Rap(root, path + "." + d.embeddedsOne[i].name)))
      && (forall i :: 0 <= i < |d.embeddedsMany| ==>
            var p := path + "." + d.embeddedsMany[i].name;
            && r.embeddedsMany[i].name == d.embeddedsMany[i].name
            && r.embeddedsMany[i].group.rap == Some(Rap(root, p))
            && forall k :: 0 <= k < |r.embeddedsMany[i].group.state.add| ==>
                 r.embeddedsMany[i].group.state.add[k].rap == Some(Rap(root, AddPath(p, k))))
  {
    var r := SetRootAndPath(d, root, path).value;
    assert r.embeddedsOne == SetSlots(d, 0, root, path).value;
    assert r.embeddedsMany == SetGroups(d, 0, root, path).value;
    forall i | 0 <= i < |d.embeddedsMany|
      ensures var p := path + "." + d.embeddedsMany[i].name;
        forall k :: 0 <= k < |r.embeddedsMany[i].group.state.add| ==>
          r.embeddedsMany[i].group.state.add[k].rap == Some(Rap(root, AddPath(p, k)))
    {
      var p := path + "." + d.embeddedsMany[i].name;
      var g := d.embeddedsMany[i].group;
      assert r.embeddedsMany[i].group.state.add == SetAdds(g, 0, root, p).value;
      SetAddsEach(g, 0, root, p);
    }
  }

  /** Re-rooting does not change the size of a tree. */
  lemma {:induction false} SetRootAndPathSize(d: Doc, root: RootRef, path: string)
    requires SetRootAndPath(d, root, path).Ok?
    ensures Size(SetRootAndPath(d, root, path).value) == Size(d)
    decreases d, 1
  {
    SlotsSize(d, root, path);
    GroupsSize(d, root, path);
  }

  /** Re-rooting keeps the size of each embedded one. */
  lemma {:induction false} SlotsSize(d: Doc, root: RootRef, path: string)
    requires SetRootAndPath(d, root, path).Ok?
    ensures var r := SetRootAndPath(d, root, path).value;
      seq(|r.embeddedsOne|, i requires 0 <= i < |r.embeddedsOne| =>
        if r.embeddedsOne[i].doc.Some? then Size(r.embeddedsOne[i].doc.value) else 0)
      == seq(|d.embeddedsOne|, i requires 0 <= i < |d.embeddedsOne| =>
        if d.embeddedsOne[i].doc.Some? then Size(d.embeddedsOne[i].doc.value) else 0)
    decreases d, 0
  {
    var r := SetRootAndPath(d, root, path).value;
    assert r.embeddedsOne == SetSlots(d, 0, root, path).value;
    forall i | 0 <= i < |d.embeddedsOne|
      ensures r.embeddedsOne[i].doc.Some? && d.embeddedsOne[i].doc.Some?
      ensures Size(r.embeddedsOne[i].doc.value) == Size(d.embeddedsOne[i].doc.value)
    {
      SetRootAndPathSize(d.embeddedsOne[i].doc.value, root, path + "." + d.embeddedsOne[i].name);
    }
  }

  /** Re-rooting keeps the size of each embedded group. */
  lemma {:induction false} GroupsSize(d: Doc, root: RootRef, path: string)
    requires SetRootAndPath(d, root, path).Ok?
    ensures var r := SetRootAndPath(d, root, path).value;
      seq(|r.embeddedsMany|, i requires 0 <= i < |r.embeddedsMany| => GroupSize(r.embeddedsMany[i].group))
      == seq(|d.embeddedsMany|, i requires 0 <= i < |d.embeddedsMany| => GroupSize(d.embeddedsMany[i].group))
    decreases d, 0
  {
    var r := SetRootAndPath(d, root, path).value;
    assert r.embeddedsMany == SetGroups(d, 0, root, path).value;
    forall i | 0 <= i < |d.embeddedsMany|
      ensures GroupSize(r.embeddedsMany[i].group) == GroupSize(d.embeddedsMany[i].group)
    {
      GroupSetRootAndPathSize(d.embeddedsMany[i].group, root, path + "." + d.embeddedsMany[i].name);
    }
  }

  lemma {:induction false} GroupSetRootAndPathSize(g: EGroup, root: RootRef, path: string)
    requires GroupSetRootAndPath(g, root, path).Ok?
    ensures GroupSize(GroupSetRootAndPath(g, root, path).value) == GroupSize(g)
    decreases g, 1
  {
    AddsSize(g, root, path);
  }

  /** Re-rooting keeps the size of each queued member. */
  lemma {:induction false} AddsSize(g: EGroup, root: RootRef, path: string)
    requires GroupSetRootAndPath(g, root, path).Ok?
    ensures var r := GroupSetRootAndPath(g, root, path).value;
      seq(|r.state.add|, k requires 0 <= k < |r.state.add| => Size(r.state.add[k]))
      == seq(|g.state.add|, k requires 0 <= k < |g.state.add| => Size(g.state.add[k]))
    decreases g, 0
  {
    var r := GroupSetRootAndPath(g, root, path).value;
    assert r.state.add == SetAdds(g, 0, root, path).value;
    SetAddsEach(g, 0, root, path);
    forall k | 0 <= k < |g.state.add|
      ensures Size(r.state.add[k]) == Size(g.state.add[k])
    {
      SetRootAndPathSize(g.state.add[k], root, AddPath(path, k));
    }
  }

  // ---------------------------------------------------------------------
  // Field and embedded-one queries

  /** `isFieldModified`: an original is recorded, even a null one. */
  predicate IsFieldModified(d: Doc, name: string) {
    name in d.fieldsModified
  }

  /** The current value of a field, null when unset. */
  function FieldValue(d: Doc, name: string): Value {
    if d.fields.Some? && name in d.fields.value then d.fields.value[name] else Null
  }

  /** `getOriginalFieldValue`: the recorded original of a modified field,
      otherwise the current value (an unset or null field reads as null). */
  function GetOriginalFieldValue(d: Doc, name: string): (v: Value)
    ensures IsFieldModified(d, name) ==> v == d.fieldsModified[name]
    ensures !IsFieldModified(d, name) ==> v == FieldValue(d, name)
  {
    if IsFieldModified(d, name) then d.fieldsModified[name]
    else if d.fields.Some? && name in d.fields.value && d.fields.value[name] != Null then d.fields.value[name]
    else Null
  }

  /** `data['embeddedsOne']` has the key `name`. */
  predicate HasSlot(d: Doc, name: string) {
    exists i :: 0 <= i < |d.embeddedsOne| && d.embeddedsOne[i].name == name
  }

  /** The value of the embedded one `name`, null when it is unset. */
  function SlotValue(d: Doc, name: string): (r: Option<Doc>)
    ensures r.Some? ==> HasSlot(d, name)
  {
    SlotValueFrom(d.embeddedsOne, name)
  }

  function SlotValueFrom(slots: seq<Slot>, name: string): (r: Option<Doc>)
    ensures r.Some? ==> exists i :: 0 <= i < |slots| && slots[i].name == name && slots[i].doc == r
  {
    if slots == [] then None
    else if slots[0].name == name then slots[0].doc
    else
      var r := SlotValueFrom(slots[1..], name);
      assert r.Some? ==> exists i :: 0 <= i < |slots| && slots[i].name == name && slots[i].doc == r by {
        if r.Some? {
          var i :| 0 <= i < |slots[1..]| && slots[1..][i].name == name && slots[1..][i].doc == r;
          assert slots[i + 1] == slots[1..][i];
        }
      }
      r
  }

  /** `isEmbeddedOneChanged`: `name` is an embedded-one key and the archive
      has `embedded_one.<name>`. */
  predicate IsEmbeddedOneChanged(d: Doc, name: string) {
    HasSlot(d, name) && name in d.changed
  }

  /** `getOriginalEmbeddedOneValue`: the archived original, otherwise the
      current embedded one (null when unset). */
  function GetOriginalEmbeddedOneValue(d: Doc, name: string): (r: Option<Doc>)
    ensures name in d.changed ==> r == d.changed[name]
    ensures name !in d.changed ==> r == SlotValue(d, name)
  {
    if name in d.changed then d.changed[name] else SlotValue(d, name)
  }

  /** `getEmbeddedsOneChanged`: the changed embedded ones, in slot order,
      each with its original value. */
  function EmbeddedsOneChanged(d: Doc): (r: seq<(string, Option<Doc>)>)
    ensures forall e :: e in r ==> IsEmbeddedOneChanged(d, e.0) && e.1 == GetOriginalEmbeddedOneValue(d, e.0)
    ensures forall i :: 0 <= i < |d.embeddedsOne| && IsEmbeddedOneChanged(d, d.embeddedsOne[i].name) ==>
      (d.embeddedsOne[i].name, GetOriginalEmbeddedOneValue(d, d.embeddedsOne[i].name)) in r
  {
    ChangedFrom(d, 0)
  }

  function ChangedFrom(d: Doc, i: nat): (r: seq<(string, Option<Doc>)>)
    requires i <= |d.embeddedsOne|
    decreases |d.embeddedsOne| - i
    ensures forall e :: e in r ==> IsEmbeddedOneChanged(d, e.0) && e.1 == GetOriginalEmbeddedOneValue(d, e.0)
    ensures forall j :: i <= j < |d.embeddedsOne| && IsEmbeddedOneChanged(d, d.embeddedsOne[j].name) ==>
      (d.embeddedsOne[j].name, GetOriginalEmbeddedOneValue(d, d.embeddedsOne[j].name)) in r
  {
    if i == |d.embeddedsOne| then []
    else
      var n := d.embeddedsOne[i].name;
      var rest := ChangedFrom(d, i + 1);
      if IsEmbeddedOneChanged(d, n) then [(n, GetOriginalEmbeddedOneValue(d, n))] + rest else rest
  }

  // ---------------------------------------------------------------------
  // isModified

  /** The root an embedded document reports through `root_and_path`. */
  function RootOf(d: Doc): Option<RootRef> {
    if d.rap.Some? then Some(d.rap.value.root) else None
  }

  /** `$root && !$root->isNew()`; `isNew` gives each root's flag. */
  predicate Persisted(root: Option<RootRef>, isNew: RootRef -> bool) {
    root.Some? && !isNew(root.value)
  }

  /** `isModified`. `root` is the document itself for a root document and
      the root of `root_and_path` for an embedded one. */
  predicate IsModified(d: Doc, root: Option<RootRef>, isNew: RootRef -> bool)
    decreases d, 1
  {
    || (d.fields.Some? && exists n :: n in d.fields.value && IsFieldModified(d, n))
    || (exists i :: 0 <= i < |d.embeddedsOne| &&
          (|| (d.embeddedsOne[i].doc.Some? && IsModified(d.embeddedsOne[i].doc.value, RootOf(d.embeddedsOne[i].doc.value), isNew))
           || (IsEmbeddedOneChanged(d, d.embeddedsOne[i].name) && Persisted(root, isNew))))
    || (exists i :: 0 <= i < |d.embeddedsMany| && GroupModified(d.embeddedsMany[i].group, root, isNew))
  }

  /** One embedded group's part of `isModified`: a queued member is
      modified; under a persisted root a removal is pending or the group
      was cleared; or the saved list is loaded and either members are
      queued or a saved member is modified. */
  predicate GroupModified(g: EGroup, root: Option<RootRef>, isNew: RootRef -> bool)
    decreases g, 0
  {
    || (exists k :: 0 <= k < |g.state.add| && IsModified(g.state.add[k], RootOf(g.state.add[k]), isNew))
    || (Persisted(root, isNew) && (g.state.remove != [] || g.state.clear))
    || (g.state.saved.Loaded? &&
          (|| g.state.add != []
           || exists k :: 0 <= k < |g.state.saved.docs| && IsModified(g.state.saved.docs[k], RootOf(g.state.saved.docs[k]), isNew)))
  }

  /** A changed field makes the document modified, whatever its root. */
  lemma FieldChangeIsModification(d: Doc, name: string, root: Option<RootRef>, isNew: RootRef -> bool)
    requires d.fields.Some? && name in d.fields.value && name in d.fieldsModified
    ensures IsModified(d, root, isNew)
  {
  }

  /** Under a new root (or none), pending removals and the clear flag do
      not count as changes; under a persisted root either one does. */
  lemma RemovalsCountOnlyWhenPersisted(g: EGroup, root: Option<RootRef>, isNew: RootRef -> bool, extra: seq<Doc>)
    ensures !Persisted(root, isNew) ==>
      GroupModified(g.(state := g.state.(remove := g.state.remove + extra, clear := true)), root, isNew) == GroupModified(g, root, isNew)
    ensures Persisted(root, isNew) && (g.state.remove != [] || g.state.clear) ==> GroupModified(g, root, isNew)
  {
  }

  // ---------------------------------------------------------------------
  // clearModified

  /** The archive key `clearEmbeddedsOneChanged` forms from a slot: it
      iterates the slot VALUES, so a null slot gives `embedded_one.` and a
      document gives its string conversion (`toStr`, None when the object
      cannot be converted, which is an Error). */
  function SlotKey(s: Slot, toStr: Doc -> Option<string>): Option<string> {
    if s.doc.None? then Some("") else toStr(s.doc.value)
  }

  /** The first slot from `i` on whose value cannot be converted to a
      string, or the number of slots when every one can. */
  function Unconvertible(d: Doc, i: nat, toStr: Doc -> Option<string>): (f: nat)
    requires i <= |d.embeddedsOne|
    decreases |d.embeddedsOne| - i
    ensures i <= f <= |d.embeddedsOne|
    ensures forall j :: i <= j < f ==> SlotKey(d.embeddedsOne[j], toStr).Some?
    ensures f < |d.embeddedsOne| ==> SlotKey(d.embeddedsOne[f], toStr).None?
  {
    if i == |d.embeddedsOne| || SlotKey(d.embeddedsOne[i], toStr).None? then i
    else Unconvertible(d, i + 1, toStr)
  }

  /** `clearEmbeddedsOneChanged`: removes the markers keyed by the slot
      values, from slot `i` on, one by one; a value that cannot be
      converted raises, after the removals made before it. */
  function ClearEmbeddedsOneChanged(d: Doc, i: nat, changed: map<string, Option<Doc>>, toStr: Doc -> Option<string>): (r: Effect<map<string, Option<Doc>>>)
    requires i <= |d.embeddedsOne|
    decreases |d.embeddedsOne| - i
    ensures var f := Unconvertible(d, i, toStr);
      && (r.Done? <==> f == |d.embeddedsOne|)
      && (r.Threw? ==> r.error == PhpError)
      && forall k :: k in r.value <==>
           k in changed && forall j :: i <= j < f ==> SlotKey(d.embeddedsOne[j], toStr) != Some(k)
    ensures forall k :: k in r.value ==> r.value[k] == changed[k]
  {
    if i == |d.embeddedsOne| then Done(changed)
    else
      var key := SlotKey(d.embeddedsOne[i], toStr);
      if key.None? then Threw(changed, PhpError)
      else ClearEmbeddedsOneChanged(d, i + 1, changed - {key.value}, toStr)
  }

  /** A marker under an embedded-one name survives `clearModified` unless
      some slot value happens to convert to that name. */
  lemma MarkerUnderNameSurvives(d: Doc, name: string, toStr: Doc -> Option<string>)
    requires IsEmbeddedOneChanged(d, name)
    requires forall j :: 0 <= j < |d.embeddedsOne| ==> SlotKey(d.embeddedsOne[j], toStr).Some?
    requires forall j :: 0 <= j < |d.embeddedsOne| ==> SlotKey(d.embeddedsOne[j], toStr) != Some(name)
    ensures var r := ClearEmbeddedsOneChanged(d, 0, d.changed, toStr);
      r.Done? && IsEmbeddedOneChanged(d.(changed := r.value), name)
  {
  }

  /** The number of non-null entries. */
  function CountSome<T>(s: seq<Option<T>>): nat {
    if s == [] then 0 else (if s[0].Some? then 1 else 0) + CountSome(s[1..])
  }

  function Entries(g: EGroup): seq<Option<Doc>> {
    if g.savedData.SavedData? then g.savedData.entries else []
  }

  /** `doInitializeSaved(doInitializeSavedData())` of an embedded group:
      each non-null entry of the saved data (none when it is unset) becomes
      a member with the group's root and the path `<path>.<key>`. A group
      without root and path fails on the call on null. */
  function Materialize(g: EGroup): (r: Result<seq<Doc>>)
    ensures r.Ok? <==> g.rap.Some? && MaterializeFrom(g, 0, g.rap.value).Ok?
    ensures r.Ok? ==> r == MaterializeFrom(g, 0, g.rap.value)
  {
    if g.rap.None? then Err(PhpError) else MaterializeFrom(g, 0, g.rap.value)
  }

  function MaterializeFrom(g: EGroup, k: nat, rap: Rap): (r: Result<seq<Doc>>)
    requires k <= |Entries(g)|
    decreases |Entries(g)| - k
    ensures r.Ok? ==> |r.value| == CountSome(Entries(g)[k..])
    ensures r.Ok? ==> forall x :: x in r.value ==>
      exists j :: k <= j < |Entries(g)| && Entries(g)[j].Some? &&
        SetRootAndPath(Entries(g)[j].value, rap.root, rap.path + "." + NatToString(j)) == Ok(x)
  {
    var es := Entries(g);
    if k == |es| then Ok([])
    else
      assert es[k..] == [es[k]] + es[k + 1..];
      var rest :- MaterializeFrom(g, k + 1, rap);
      if es[k].None? then Ok(rest)
      else
        var x :- SetRootAndPath(es[k].value, rap.root, rap.path + "." + NatToString(k));
        Ok([x] + rest)
  }

  lemma MaterializedSmaller(g: EGroup, base: seq<Doc>)
    requires Materialize(g) == Ok(base)
    ensures forall x :: x in base ==> Size(x) < GroupSize(g)
  {
    forall x | x in base
      ensures Size(x) < GroupSize(g)
    {
      var rap := g.rap.value;
      var j :| 0 <= j < |Entries(g)| && Entries(g)[j].Some? &&
        SetRootAndPath(Entries(g)[j].value, rap.root, rap.path + "." + NatToString(j)) == Ok(x);
      SetRootAndPathSize(Entries(g)[j].value, rap.root, rap.path + "." + NatToString(j));
      EntrySmaller(g, j);
    }
  }

  /** The baseline `all()` uses: the loaded saved list, or the
      materialised saved data. */
  function BaselineOf(g: EGroup): Result<seq<Doc>> {
    if g.state.saved.Loaded? then Ok([]) else Materialize(g)
  }

  lemma MembersSmaller(g: EGroup, base: seq<Doc>)
    requires BaselineOf(g) == Ok(base)
    ensures forall x :: x in AllOf(g.state, base) ==> Size(x) < GroupSize(g)
  {
    var s := SavedOf(g.state, base) + g.state.add;
    WithoutMultiset(s, g.state.remove);
    forall x | x in AllOf(g.state, base)
      ensures Size(x) < GroupSize(g)
    {
      assert x in multiset(AllOf(g.state, base));
      assert x in s;
      var k :| 0 <= k < |s| && s[k] == x;
      if k >= |SavedOf(g.state, base)| {
        AddSmaller(g, k - |SavedOf(g.state, base)|);
      } else if g.state.saved.Loaded? {
        SavedSmaller(g, k);
      } else {
        MaterializedSmaller(g, base);
        assert x in base;
      }
    }
  }

  /** `clearModified`: forgets the field originals (when `fields` is
      set), clears the embedded-one markers, recurses into each non-null
      embedded one and marks every embedded group as saved, in that order.
      A raise stops it: what was done before stays done, what comes after
      is left as it was. */
  function ClearModified(d: Doc, toStr: Doc -> Option<string>): (r: Effect<Doc>)
    decreases Size(d), 3, 0
    ensures r.value.rap == d.rap && r.value.fields == d.fields
    ensures d.fields.Some? ==> r.value.fieldsModified == map[]
    ensures |r.value.embeddedsOne| == |d.embeddedsOne| && |r.value.embeddedsMany| == |d.embeddedsMany|
  {
    var d1 := d.(fieldsModified := if d.fields.Some? then map[] else d.fieldsModified);
    var markers := ClearEmbeddedsOneChanged(d, 0, d.changed, toStr);
    var d2 := d1.(changed := markers.value);
    if markers.Threw? then markers.With(d2)
    else
      var slots := ClearSlots(d, 0, toStr);
      var d3 := d2.(embeddedsOne := slots.value);
      if slots.Threw? then slots.With(d3)
      else
        var groups := ClearGroups(d, 0, toStr);
        groups.With(d3.(embeddedsMany := groups.value))
  }

  /** The embedded ones from slot `i` on, each cleared in place; after a
      raise the later slots are left as they were. */
  function ClearSlots(d: Doc, i: nat, toStr: Doc -> Option<string>): (r: Effect<seq<Slot>>)
    requires i <= |d.embeddedsOne|
    decreases Size(d), 2, |d.embeddedsOne| - i
    ensures |r.value| == |d.embeddedsOne| - i
  {
    if i == |d.embeddedsOne| then Done([])
    else
      var s := d.embeddedsOne[i];
      var c := ClearSlotDoc(d, i, toStr);
      if c.Threw? then c.With([Slot(s.name, c.value)] + d.embeddedsOne[i + 1..])
      else
        var rest := ClearSlots(d, i + 1, toStr);
        rest.With([Slot(s.name, c.value)] + rest.value)
  }

  /** One slot of `ClearSlots`: a null embedded one stays null. */
  function ClearSlotDoc(d: Doc, i: nat, toStr: Doc -> Option<string>): (r: Effect<Option<Doc>>)
    requires i < |d.embeddedsOne|
    decreases Size(d), 2, |d.embeddedsOne| - i - 1
    ensures r.value.Some? == d.embeddedsOne[i].doc.Some?
  {
    if d.embeddedsOne[i].doc.None? then Done(None)
    else
      SlotSmaller(d, i);
      var c := ClearModified(d.embeddedsOne[i].doc.value, toStr);
      c.With(Some(c.value))
  }

  /** The embedded groups from index `i` on, each marked saved in place;
      after a raise the later groups are left as they were. */
  function ClearGroups(d: Doc, i: nat, toStr: Doc -> Option<string>): (r: Effect<seq<GroupSlot>>)
    requires i <= |d.embeddedsMany|
    decreases Size(d), 1, |d.embeddedsMany| - i
    ensures |r.value| == |d.embeddedsMany| - i
  {
    if i == |d.embeddedsMany| then Done([])
    else
      var m := d.embeddedsMany[i];
      GroupSmaller(d, i);
      var g := MarkAllSaved(m.group, toStr);
      if g.Threw? then g.With([GroupSlot(m.name, g.value)] + d.embeddedsMany[i + 1..])
      else
        var rest := ClearGroups(d, i + 1, toStr);
        rest.With([GroupSlot(m.name, g.value)] + rest.value)
  }

  /** `markAllSaved` of an embedded group: the members (`all()`) become
      the saved list first; then every member is cleared and moved from
      `<path>._add<k>` to `<path>.<k>` (each `._add` of its path becomes
      `.`); then both queues are dropped. When `all()` itself raises
      nothing changes; when a member raises, the saved list holds the
      members as far as they got and the queues are kept. */
  function MarkAllSaved(g: EGroup, toStr: Doc -> Option<string>): (r: Effect<EGroup>)
    decreases GroupSize(g), 3, 0
  {
    var base := BaselineOf(g);
    if base.Err? then Threw(g, base.error)
    else
      var all := AllOf(g.state, base.value);
      MembersSmaller(g, base.value);
      var settled := SettleMembers(g, all, 0, toStr);
      if settled.Done? then Done(g.(state := Promote(g.state, settled.value)))
      else settled.With(g.(state := g.state.(saved := Loaded(settled.value))))
  }

  /** The path a member moves to when its group is marked saved. */
  function SavedPath(path: string): string {
    ReplaceAll(path, "._add", ".")
  }

  /** One member of `markAllSaved`: cleared, then moved to its saved
      path. A member without root and path fails on the call on null. */
  function SettleOne(g: EGroup, x: Doc, toStr: Doc -> Option<string>): (r: Effect<Doc>)
    requires Size(x) < GroupSize(g)
    decreases GroupSize(g), 1, 0
  {
    var m := ClearModified(x, toStr);
    if m.Threw? then m
    else if m.value.rap.None? then Threw(m.value, PhpError)
    else
      match SetRootAndPath(m.value, m.value.rap.value.root, SavedPath(m.value.rap.value.path))
      case Ok(v) => Done(v)
      case Err(e) => Threw(m.value, e)
  }

  /** The members from `k` on, each settled in place; after a raise the
      later members are left as they were. */
  function SettleMembers(g: EGroup, all: seq<Doc>, k: nat, toStr: Doc -> Option<string>): (r: Effect<seq<Doc>>)
    requires k <= |all|
    requires forall x :: x in all ==> Size(x) < GroupSize(g)
    decreases GroupSize(g), 2, |all| - k
    ensures |r.value| == |all| - k
  {
    if k == |all| then Done([])
    else
      var m := SettleOne(g, all[k], toStr);
      if m.Threw? then m.With([m.value] + all[k + 1..])
      else
        var rest := SettleMembers(g, all, k + 1, toStr);
        rest.With([m.value] + rest.value)
  }

  // ---------------------------------------------------------------------
  // What clearModified leaves behind

  /** No field originals (where fields are loaded), no queued additions or
      removals anywhere, every embedded group's saved list loaded. Markers
      of replaced embedded ones and clear flags are not part of it. */
  ghost predicate Settled(d: Doc)
    decreases d, 1
  {
    && (d.fields.Some? ==> d.fieldsModified == map[])
    && (forall i :: 0 <= i < |d.embeddedsOne| && d.embeddedsOne[i].doc.Some? ==> Settled(d.embeddedsOne[i].doc.value))
    && (forall i :: 0 <= i < |d.embeddedsMany| ==> GroupSettled(d.embeddedsMany[i].group))
  }

  ghost predicate GroupSettled(g: EGroup)
    decreases g, 0
  {
    && g.state.add == [] && g.state.remove == [] && g.state.saved.Loaded?
    && forall k :: 0 <= k < |g.state.saved.docs| ==> Settled(g.state.saved.docs[k])
  }

  /** No embedded-one markers and no clear flags anywhere in the tree. */
  ghost predicate Quiet(d: Doc)
    decreases d, 1
  {
    && d.changed == map[]
    && (forall i :: 0 <= i < |d.embeddedsOne| && d.embeddedsOne[i].doc.Some? ==> Quiet(d.embeddedsOne[i].doc.value))
    && (forall i :: 0 <= i < |d.embeddedsMany| ==> GroupQuiet(d.embeddedsMany[i].group))
  }

  ghost predicate GroupQuiet(g: EGroup)
    decreases g, 0
  {
    && !g.state.clear
    && (forall k :: 0 <= k < |g.state.add| ==> Quiet(g.state.add[k]))
    && (g.state.saved.Loaded? ==> forall k :: 0 <= k < |g.state.saved.docs| ==> Quiet(g.state.saved.docs[k]))
  }

  /** Every root is new. */
  ghost predicate AllNew(isNew: RootRef -> bool) {
    forall r :: isNew(r)
  }

  /** A settled tree is not modified when it is also quiet, or when no
      root is persisted (markers and clear flags only count under a
      persisted root). */
  lemma {:induction false} SettledIsUnmodified(d: Doc, root: Option<RootRef>, isNew: RootRef -> bool)
    requires Settled(d) && (Quiet(d) || AllNew(isNew))
    ensures !IsModified(d, root, isNew)
    decreases d, 1
  {
    forall i | 0 <= i < |d.embeddedsOne| && d.embeddedsOne[i].doc.Some?
      ensures !IsModified(d.embeddedsOne[i].doc.value, RootOf(d.embeddedsOne[i].doc.value), isNew)
    {
      SettledIsUnmodified(d.embeddedsOne[i].doc.value, RootOf(d.embeddedsOne[i].doc.value), isNew);
    }
    forall i | 0 <= i < |d.embeddedsMany|
      ensures !GroupModified(d.embeddedsMany[i].group, root, isNew)
    {
      GroupSettledIsUnmodified(d.embeddedsMany[i].group, root, isNew);
    }
  }

  lemma {:induction false} GroupSettledIsUnmodified(g: EGroup, root: Option<RootRef>, isNew: RootRef -> bool)
    requires GroupSettled(g) && (GroupQuiet(g) || AllNew(isNew))
    ensures !GroupModified(g, root, isNew)
    decreases g, 0
  {
    forall k | 0 <= k < |g.state.saved.docs|
      ensures !IsModified(g.state.saved.docs[k], RootOf(g.state.saved.docs[k]), isNew)
    {
      SettledIsUnmodified(g.state.saved.docs[k], RootOf(g.state.saved.docs[k]), isNew);
    }
  }

  /** Re-rooting a settled tree leaves it settled. */
  lemma {:induction false} SetRootAndPathKeepsSettled(d: Doc, root: RootRef, path: string)
    requires Settled(d) && SetRootAndPath(d, root, path).Ok?
    ensures Settled(SetRootAndPath(d, root, path).value)
    decreases d
  {
    var r := SetRootAndPath(d, root, path).value;
    assert r.embeddedsOne == SetSlots(d, 0, root, path).value;
    assert r.embeddedsMany == SetGroups(d, 0, root, path).value;
    forall i | 0 <= i < |r.embeddedsOne| && r.embeddedsOne[i].doc.Some?
      ensures Settled(r.embeddedsOne[i].doc.value)
    {
      var s := d.embeddedsOne[i];
      SetRootAndPathKeepsSettled(s.doc.value, root, path + "." + s.name);
    }
    forall i | 0 <= i < |r.embeddedsMany|
      ensures GroupSettled(r.embeddedsMany[i].group)
    {
      assert GroupSettled(d.embeddedsMany[i].group);
    }
  }

  /** A successful `clearModified` leaves a settled tree. */
  lemma {:induction false} ClearModifiedSettles(d: Doc, toStr: Doc -> Option<string>)
    requires ClearModified(d, toStr).Done?
    ensures Settled(ClearModified(d, toStr).value)
    decreases Size(d), 3, 0
  {
    ClearSlotsSettle(d, 0, toStr);
    ClearGroupsSettle(d, 0, toStr);
  }

  lemma {:induction false} ClearSlotsSettle(d: Doc, i: nat, toStr: Doc -> Option<string>)
    requires i <= |d.embeddedsOne| && ClearSlots(d, i, toStr).Done?
    ensures var r := ClearSlots(d, i, toStr).value;
      forall j :: 0 <= j < |r| && r[j].doc.Some? ==> Settled(r[j].doc.value)
    decreases Size(d), 2, |d.embeddedsOne| - i
  {
    if i < |d.embeddedsOne| {
      var c := ClearSlotDoc(d, i, toStr).value;
      if c.Some? {
        SlotSmaller(d, i);
        ClearModifiedSettles(d.embeddedsOne[i].doc.value, toStr);
      }
      ClearSlotsSettle(d, i + 1, toStr);
    }
  }

  lemma {:induction false} ClearGroupsSettle(d: Doc, i: nat, toStr: Doc -> Option<string>)
    requires i <= |d.embeddedsMany| && ClearGroups(d, i, toStr).Done?
    ensures var r := ClearGroups(d, i, toStr).value;
      forall j :: 0 <= j < |r| ==> GroupSettled(r[j].group)
    decreases Size(d), 1, |d.embeddedsMany| - i
  {
    if i < |d.embeddedsMany| {
      GroupSmaller(d, i);
      MarkAllSavedSettles(d.embeddedsMany[i].group, toStr);
      ClearGroupsSettle(d, i + 1, toStr);
    }
  }

  lemma {:induction false} MarkAllSavedSettles(g: EGroup, toStr: Doc -> Option<string>)
    requires MarkAllSaved(g, toStr).Done?
    ensures GroupSettled(MarkAllSaved(g, toStr).value)
    decreases GroupSize(g), 3, 0
  {
    var base := BaselineOf(g).value;
    MembersSmaller(g, base);
    SettleMembersSettle(g, AllOf(g.state, base), 0, toStr);
  }

  lemma {:induction false} SettleMembersSettle(g: EGroup, all: seq<Doc>, k: nat, toStr: Doc -> Option<string>)
    requires k <= |all|
    requires forall x :: x in all ==> Size(x) < GroupSize(g)
    requires SettleMembers(g, all, k, toStr).Done?
    ensures var r := SettleMembers(g, all, k, toStr).value;
      forall j :: 0 <= j < |r| ==> Settled(r[j])
    decreases GroupSize(g), 2, |all| - k
  {
    if k < |all| {
      var first, rest := SettleMembersUnfold(g, all, k, toStr);
      var m := ClearModified(all[k], toStr).value;
      ClearModifiedSettles(all[k], toStr);
      SetRootAndPathKeepsSettled(m, m.rap.value.root, SavedPath(m.rap.value.path));
      SettleMembersSettle(g, all, k + 1, toStr);
      var r := [first] + rest;
      forall j | 0 <= j < |r|
        ensures Settled(r[j])
      {
        if j > 0 {
          assert r[j] == rest[j - 1];
        }
      }
    }
  }

  /** One member of `markAllSaved`, named. */
  lemma SettleMembersUnfold(g: EGroup, all: seq<Doc>, k: nat, toStr: Doc -> Option<string>) returns (first: Doc, rest: seq<Doc>)
    requires k < |all|
    requires forall x :: x in all ==> Size(x) < GroupSize(g)
    requires SettleMembers(g, all, k, toStr).Done?
    ensures var m := ClearModified(all[k], toStr);
      && m.Done? && m.value.rap.Some?
      && SetRootAndPath(m.value, m.value.rap.value.root, SavedPath(m.value.rap.value.path)) == Ok(first)
    ensures SettleMembers(g, all, k + 1, toStr) == Done(rest)
    ensures SettleMembers(g, all, k, toStr).value == [first] + rest
  {
    var m := ClearModified(all[k], toStr).value;
    first := SetRootAndPath(m, m.rap.value.root, SavedPath(m.rap.value.path)).value;
    rest := SettleMembers(g, all, k + 1, toStr).value;
  }

  /** A member whose path the saved-path rewrite gives: the `k`-th queued
      member of a group at `path` (itself free of `._add`) ends at
      `<path>.<k>`. */
  lemma SettleMembersPaths(g: EGroup, all: seq<Doc>, k: nat, toStr: Doc -> Option<string>)
    requires k <= |all|
    requires forall x :: x in all ==> Size(x) < GroupSize(g)
    requires SettleMembers(g, all, k, toStr).Done?
    ensures var r := SettleMembers(g, all, k, toStr).value;
      forall j :: k <= j < |all| ==>
        all[j].rap.Some? && r[j - k].rap == Some(Rap(all[j].rap.value.root, SavedPath(all[j].rap.value.path)))
    decreases |all| - k
  {
    if k < |all| {
      SettleMembersPaths(g, all, k + 1, toStr);
    }
  }

  /** Members `k` to `f - 1` settled without raising into `out`. */
  ghost predicate SettledUpTo(g: EGroup, all: seq<Doc>, k: nat, f: nat, out: seq<Doc>, toStr: Doc -> Option<string>)
    requires k <= f <= |all| && f - k <= |out|
    requires forall x :: x in all ==> Size(x) < GroupSize(g)
  {
    forall j :: k <= j < f ==> SettleOne(g, all[j], toStr) == Done(out[j - k])
  }

  /** `out` stops at member `f`: that member raised with `e` and is left
      as far as it got, and the members after it are untouched. */
  ghost predicate StoppedAt(g: EGroup, all: seq<Doc>, k: nat, f: nat, out: seq<Doc>, e: ErrorKind, toStr: Doc -> Option<string>)
    requires k <= f < |all| && |out| == |all| - k
    requires forall x :: x in all ==> Size(x) < GroupSize(g)
  {
    && SettledUpTo(g, all, k, f, out, toStr)
    && SettleOne(g, all[f], toStr) == Threw(out[f - k], e)
    && out[f - k + 1..] == all[f + 1..]
  }

  /** `markAllSaved` settles the members one after the other and stops at
      the first that raises: every member before it is settled, that one
      is left as far as it got, and every member after it is untouched. */
  lemma {:induction false} SettleMembersStops(g: EGroup, all: seq<Doc>, k: nat, toStr: Doc -> Option<string>)
    requires k <= |all|
    requires forall x :: x in all ==> Size(x) < GroupSize(g)
    ensures var r := SettleMembers(g, all, k, toStr);
      r.Done? ==> SettledUpTo(g, all, k, |all|, r.value, toStr)
    ensures var r := SettleMembers(g, all, k, toStr);
      r.Threw? ==> exists f :: k <= f < |all| && StoppedAt(g, all, k, f, r.value, r.error, toStr)
    decreases |all| - k
  {
    if k < |all| {
      var r := SettleMembers(g, all, k, toStr);
      var m := SettleOne(g, all[k], toStr);
      if m.Threw? {
        assert r.value == [m.value] + all[k + 1..];
        assert r.value[1..] == all[k + 1..];
        assert StoppedAt(g, all, k, k, r.value, r.error, toStr);
      } else {
        SettleMembersStops(g, all, k + 1, toStr);
        var rest := SettleMembers(g, all, k + 1, toStr);
        assert r == rest.With([m.value] + rest.value);
        if rest.Threw? {
          var f :| k + 1 <= f < |all| && StoppedAt(g, all, k + 1, f, rest.value, rest.error, toStr);
          StoppedAtCons(g, all, k, f, m.value, rest.value, rest.error, toStr);
        } else {
          SettledUpToCons(g, all, k, |all|, m.value, rest.value, toStr);
        }
      }
    }
  }

  lemma SettledUpToCons(g: EGroup, all: seq<Doc>, k: nat, f: nat, m: Doc, rest: seq<Doc>, toStr: Doc -> Option<string>)
    requires k < f <= |all| && f - (k + 1) <= |rest|
    requires forall x :: x in all ==> Size(x) < GroupSize(g)
    requires SettleOne(g, all[k], toStr) == Done(m)
    requires SettledUpTo(g, all, k + 1, f, rest, toStr)
    ensures SettledUpTo(g, all, k, f, [m] + rest, toStr)
  {
    var out := [m] + rest;
    forall j | k <= j < f
      ensures SettleOne(g, all[j], toStr) == Done(out[j - k])
    {
      if j > k {
        assert out[j - k] == rest[j - (k + 1)];
      }
    }
  }

  lemma StoppedAtCons(g: EGroup, all: seq<Doc>, k: nat, f: nat, m: Doc, rest: seq<Doc>, e: ErrorKind, toStr: Doc -> Option<string>)
    requires k < f < |all| && |rest| == |all| - (k + 1)
    requires forall x :: x in all ==> Size(x) < GroupSize(g)
    requires SettleOne(g, all[k], toStr) == Done(m)
    requires StoppedAt(g, all, k + 1, f, rest, e, toStr)
    ensures StoppedAt(g, all, k, f, [m] + rest, e, toStr)
  {
    var out := [m] + rest;
    SettledUpToCons(g, all, k, f, m, rest, toStr);
    assert out[f - k] == rest[f - (k + 1)];
    assert out[f - k + 1..] == rest[f - (k + 1) + 1..];
  }

  /** Slots `i` to `f - 1` cleared without raising into `out`. */
  ghost predicate ClearedUpTo(d: Doc, i: nat, f: nat, out: seq<Slot>, toStr: Doc -> Option<string>)
    requires i <= f <= |d.embeddedsOne| && f - i <= |out|
  {
    forall j :: i <= j < f ==>
      ClearSlotDoc(d, j, toStr).Done? && out[j - i] == Slot(d.embeddedsOne[j].name, ClearSlotDoc(d, j, toStr).value)
  }

  /** `out` stops at slot `f`: its embedded one raised with `e` and is left
      as far as it got, and the slots after it are untouched. */
  ghost predicate ClearStoppedAt(d: Doc, i: nat, f: nat, out: seq<Slot>, e: ErrorKind, toStr: Doc -> Option<string>)
    requires i <= f < |d.embeddedsOne| && |out| == |d.embeddedsOne| - i
  {
    && ClearedUpTo(d, i, f, out, toStr)
    && ClearSlotDoc(d, f, toStr) == Threw(out[f - i].doc, e)
    && out[f - i].name == d.embeddedsOne[f].name
    && out[f - i + 1..] == d.embeddedsOne[f + 1..]
  }

  /** `clearModified` clears the embedded ones one after the other and
      stops at the first that raises: every slot before it is cleared,
      that one is left as far as it got, and every slot after it is
      untouched. */
  lemma {:induction false} ClearSlotsStops(d: Doc, i: nat, toStr: Doc -> Option<string>)
    requires i <= |d.embeddedsOne|
    ensures var r := ClearSlots(d, i, toStr);
      r.Done? ==> ClearedUpTo(d, i, |d.embeddedsOne|, r.value, toStr)
    ensures var r := ClearSlots(d, i, toStr);
      r.Threw? ==> exists f :: i <= f < |d.embeddedsOne| && ClearStoppedAt(d, i, f, r.value, r.error, toStr)
    decreases |d.embeddedsOne| - i
  {
    if i < |d.embeddedsOne| {
      var r := ClearSlots(d, i, toStr);
      var c := ClearSlotDoc(d, i, toStr);
      var s := Slot(d.embeddedsOne[i].name, c.value);
      if c.Threw? {
        assert r.value == [s] + d.embeddedsOne[i + 1..];
        assert r.value[1..] == d.embeddedsOne[i + 1..];
        assert ClearStoppedAt(d, i, i, r.value, r.error, toStr);
      } else {
        ClearSlotsStops(d, i + 1, toStr);
        var rest := ClearSlots(d, i + 1, toStr);
        assert r == rest.With([s] + rest.value);
        if rest.Threw? {
          var f :| i + 1 <= f < |d.embeddedsOne| && ClearStoppedAt(d, i + 1, f, rest.value, rest.error, toStr);
          ClearStoppedAtCons(d, i, f, rest.value, rest.error, toStr);
        } else {
          ClearedUpToCons(d, i, |d.embeddedsOne|, rest.value, toStr);
        }
      }
    }
  }

  lemma ClearedUpToCons(d: Doc, i: nat, f: nat, rest: seq<Slot>, toStr: Doc -> Option<string>)
    requires i < f <= |d.embeddedsOne| && f - (i + 1) <= |rest|
    requires ClearSlotDoc(d, i, toStr).Done?
    requires ClearedUpTo(d, i + 1, f, rest, toStr)
    ensures ClearedUpTo(d, i, f, [Slot(d.embeddedsOne[i].name, ClearSlotDoc(d, i, toStr).value)] + rest, toStr)
  {
    var out := [Slot(d.embeddedsOne[i].name, ClearSlotDoc(d, i, toStr).value)] + rest;
    forall j | i <= j < f
      ensures ClearSlotDoc(d, j, toStr).Done? && out[j - i] == Slot(d.embeddedsOne[j].name, ClearSlotDoc(d, j, toStr).value)
    {
      if j > i {
        assert out[j - i] == rest[j - (i + 1)];
      }
    }
  }

  lemma ClearStoppedAtCons(d: Doc, i: nat, f: nat, rest: seq<Slot>, e: ErrorKind, toStr: Doc -> Option<string>)
    requires i < f < |d.embeddedsOne| && |rest| == |d.embeddedsOne| - (i + 1)
    requires ClearSlotDoc(d, i, toStr).Done?
    requires ClearStoppedAt(d, i + 1, f, rest, e, toStr)
    ensures ClearStoppedAt(d, i, f, [Slot(d.embeddedsOne[i].name, ClearSlotDoc(d, i, toStr).value)] + rest, e, toStr)
  {
    var out := [Slot(d.embeddedsOne[i].name, ClearSlotDoc(d, i, toStr).value)] + rest;
    ClearedUpToCons(d, i, f, rest, toStr);
    assert out[f - i] == rest[f - (i + 1)];
    assert out[f - i + 1..] == rest[f - (i + 1) + 1..];
  }

  /** The saved path of a queued member's path. */
  lemma QueuedPathBecomesIndexPath(path: string, k: nat)
    requires !Contains(path, "._add")
    ensures SavedPath(AddPath(path, k)) == path + "." + NatToString(k)
  {
    AddPathBecomesSavedPath(path, k);
  }

  /** `markAllSaved` of an embedded group keeps root, path, saved data and
      the clear flag. On success the settled members become the loaded
      saved list and both queues are empty; when a member raises, the saved
      list already holds all the members and the queues are kept; when
      `all()` raises, nothing changes. */
  lemma MarkAllSavedShape(g: EGroup, toStr: Doc -> Option<string>)
    ensures var r := MarkAllSaved(g, toStr);
      && r.value.rap == g.rap && r.value.savedData == g.savedData && r.value.state.clear == g.state.clear
      && (r.Done? ==> r.value.state.add == [] && r.value.state.remove == [] && r.value.state.saved.Loaded?)
      && (r.Threw? ==> r.value.state.add == g.state.add && r.value.state.remove == g.state.remove)
      && (BaselineOf(g).Err? ==> r == Threw(g, BaselineOf(g).error))
      && (BaselineOf(g).Ok? ==> r.value.state.saved.Loaded? && |r.value.state.saved.docs| == |AllOf(g.state, BaselineOf(g).value)|)
  {
    if BaselineOf(g).Ok? {
      var base := BaselineOf(g).value;
      MembersSmaller(g, base);
      var settled := SettleMembers(g, AllOf(g.state, base), 0, toStr);
      assert MarkAllSaved(g, toStr).value.state.saved == Loaded(settled.value);
    }
  }

  /** The `j`-th member of `all()` becomes the `j`-th saved member, at its
      saved path. */
  lemma MarkAllSavedPaths(g: EGroup, toStr: Doc -> Option<string>)
    requires MarkAllSaved(g, toStr).Done?
    ensures var r := MarkAllSaved(g, toStr).value;
      var all := AllOf(g.state, BaselineOf(g).value);
      && r.state.saved.Loaded? && |r.state.saved.docs| == |all|
      && forall j :: 0 <= j < |all| ==>
           all[j].rap.Some? && r.state.saved.docs[j].rap == Some(Rap(all[j].rap.value.root, SavedPath(all[j].rap.value.path)))
  {
    MarkAllSavedDone(g, toStr);
    SettleMembersPaths(g, AllOf(g.state, BaselineOf(g).value), 0, toStr);
  }

  /** A `markAllSaved` that finishes saves exactly the settled members. */
  lemma MarkAllSavedDone(g: EGroup, toStr: Doc -> Option<string>)
    requires MarkAllSaved(g, toStr).Done?
    ensures BaselineOf(g).Ok?
    ensures forall x :: x in AllOf(g.state, BaselineOf(g).value) ==> Size(x) < GroupSize(g)
    ensures var settled := SettleMembers(g, AllOf(g.state, BaselineOf(g).value), 0, toStr);
      settled.Done? && MarkAllSaved(g, toStr).value.state.saved == Loaded(settled.value)
  {
    MembersSmaller(g, BaselineOf(g).value);
  }

  /** `clearModified` works in order and stops at the first raise: the
      field originals are forgotten in any case, the markers are removed up
      to the first slot whose value cannot be converted, and only then are
      the embedded ones cleared and, after them, the groups marked saved. */
  lemma ClearModifiedOrder(d: Doc, toStr: Doc -> Option<string>)
    ensures var r := ClearModified(d, toStr);
      var markers := ClearEmbeddedsOneChanged(d, 0, d.changed, toStr);
      && r.value.fieldsModified == (if d.fields.Some? then map[] else d.fieldsModified)
      && r.value.changed == markers.value
      && (markers.Threw? ==> r == Threw(r.value, PhpError) && r.value.embeddedsOne == d.embeddedsOne && r.value.embeddedsMany == d.embeddedsMany)
      && (markers.Done? ==> r.value.embeddedsOne == ClearSlots(d, 0, toStr).value)
      && (markers.Done? && ClearSlots(d, 0, toStr).Threw? ==> r.Threw? && r.value.embeddedsMany == d.embeddedsMany)
      && (r.Done? <==> markers.Done? && ClearSlots(d, 0, toStr).Done? && ClearGroups(d, 0, toStr).Done?)
  {
    var r := ClearModified(d, toStr);
    var d1 := d.(fieldsModified := if d.fields.Some? then map[] else d.fieldsModified);
    var markers := ClearEmbeddedsOneChanged(d, 0, d.changed, toStr);
    var d2 := d1.(changed := markers.value);
    if markers.Threw? {
      assert markers.error == PhpError;
      assert r == Threw(d2, markers.error);
    } else {
      var slots := ClearSlots(d, 0, toStr);
      var d3 := d2.(embeddedsOne := slots.value);
      if slots.Threw? {
        assert r == Threw(d3, slots.error);
      } else {
        var groups := ClearGroups(d, 0, toStr);
        assert r == groups.With(d3.(embeddedsMany := groups.value));
      }
    }
  }

  /** A `clearModified` that raises on the first marker key has still
      forgotten the field originals: with fields loaded, one of them
      modified and an embedded one that cannot become a string, the
      modification is gone and the markers and embedded ones are as they
      were. */
  lemma ClearModifiedRaisesAfterFields(d: Doc, toStr: Doc -> Option<string>)
    requires d.fields.Some? && d.fieldsModified != map[]
    requires |d.embeddedsOne| >= 1 && SlotKey(d.embeddedsOne[0], toStr).None?
    ensures var r := ClearModified(d, toStr);
      && r.Threw? && r.error == PhpError
      && r.value == d.(fieldsModified := map[])
  {
    ClearModifiedOrder(d, toStr);
    assert Unconvertible(d, 0, toStr) == 0;
    var r := ClearModified(d, toStr);
    assert r.value.changed == d.changed;
  }

  /** `clearModified` followed by `isModified`: nothing is reported while
      every root is still new. */
  lemma ClearModifiedUnmodifiedUnderNewRoots(d: Doc, toStr: Doc -> Option<string>, root: Option<RootRef>, isNew: RootRef -> bool)
    requires ClearModified(d, toStr).Done? && AllNew(isNew)
    ensures !IsModified(ClearModified(d, toStr).value, root, isNew)
  {
    ClearModifiedSettles(d, toStr);
    SettledIsUnmodified(ClearModified(d, toStr).value, root, isNew);
  }

  // ---------------------------------------------------------------------
  // EmbeddedGroup::add and EmbeddedDocument queries

  /** `isEmbeddedManyNew`: the path goes through a group's add queue. */
  predicate IsEmbeddedManyNew(d: Doc) {
    d.rap.Some? && Contains(d.rap.value.path, "._add")
  }

  /** `EmbeddedGroup::add`: the group's `add`, after which, when the group
      has root and path, every queued member is re-rooted at
      `<path>._add<k>`. A pending removal makes `all()` materialise the
      saved data first. */
  function EmbeddedAdd(g: EGroup, docs: seq<Doc>): (r: Result<EGroup>)
    ensures r.Ok? ==> r.value.rap == g.rap && r.value.savedData == g.savedData
    ensures r.Ok? && g.state.remove == [] ==>
      r.value.state.remove == [] && r.value.state.saved == g.state.saved &&
      |r.value.state.add| == |g.state.add| + |docs|
    ensures g.state.remove == [] && g.rap.None? ==> r == Ok(g.(state := g.state.(add := g.state.add + docs)))
  {
    var base :- if g.state.remove != [] && g.state.saved.Unloaded? then Materialize(g) else Ok([]);
    var step := AddDocs(g.state, base, docs);
    if step.outcome.Fail? then Err(step.outcome.error)
    else
      var g1 := g.(state := step.state);
      if g.rap.None? then Ok(g1)
      else GroupSetRootAndPath(g1, g.rap.value.root, g.rap.value.path)
  }

  /** After an add into a rooted group, the `k`-th queued member sits at
      `<path>._add<k>` and so counts as an embedded-many new document. */
  lemma EmbeddedAddPaths(g: EGroup, docs: seq<Doc>)
    requires g.rap.Some? && EmbeddedAdd(g, docs).Ok?
    ensures var r := EmbeddedAdd(g, docs).value;
      forall k :: 0 <= k < |r.state.add| ==>
        && r.state.add[k].rap == Some(Rap(g.rap.value.root, AddPath(g.rap.value.path, k)))
        && IsEmbeddedManyNew(r.state.add[k])
  {
    var r := EmbeddedAdd(g, docs).value;
    var base := if g.state.remove != [] && g.state.saved.Unloaded? then Materialize(g).value else [];
    var g1 := g.(state := AddDocs(g.state, base, docs).state);
    var P := g.rap.value.path;
    assert r.state.add == SetAdds(g1, 0, g.rap.value.root, P).value;
    SetAddsEach(g1, 0, g.rap.value.root, P);
    forall k | 0 <= k < |r.state.add|
      ensures IsEmbeddedManyNew(r.state.add[k])
    {
      AddPathMarksNew(r.state.add[k], g.rap.value.root, P, k);
    }
  }

  /** A document at an add path is an embedded-many new document. */
  lemma AddPathMarksNew(d: Doc, root: RootRef, path: string, k: nat)
    requires d.rap == Some(Rap(root, AddPath(path, k)))
    ensures IsEmbeddedManyNew(d)
  {
    assert StartsWith(AddPath(path, k)[|path|..], "._add");
  }

  /** `__clone`: every loaded field is marked modified with its current
      value as the original (overwriting an earlier original). */
  method Clone(d: Doc) returns (c: Doc)
    ensures d.fields.None? ==> c == d
    ensures d.fields.Some? ==> c == d.(fieldsModified := d.fieldsModified + d.fields.value)
    ensures d.fields.Some? ==> forall n :: n in d.fields.value ==>
      IsFieldModified(c, n) && GetOriginalFieldValue(c, n) == FieldValue(c, n)
  {
    c := d;
    if d.fields.Some? {
      var fs := d.fields.value;
      var todo := fs.Keys;
      var mods := d.fieldsModified;
      while todo != {}
        invariant todo <= fs.Keys
        invariant forall n :: n in mods <==> n in d.fieldsModified || n in fs.Keys - todo
        invariant forall n :: n in mods ==> mods[n] == if n in fs.Keys - todo then fs[n] else d.fieldsModified[n]
        decreases todo
      {
        var n :| n in todo;
        mods := mods[n := fs[n]];
        todo := todo - {n};
      }
      assert mods == d.fieldsModified + fs;
      c := d.(fieldsModified := mods);
    }
  }

  /** `EmbeddedDocument::isFieldInQuery`: asks the root; false without
      root and path. */
  function EmbeddedIsFieldInQuery(d: Doc, rootInQuery: (RootRef, string) -> bool, field: string): (r: bool)
    ensures r ==> d.rap.Some?
    ensures d.rap.Some? ==> r == rootInQuery(d.rap.value.root, field)
  {
    d.rap.Some? && rootInQuery(d.rap.value.root, field)
  }

  /** `EmbeddedDocument::loadFull`: loads the root; false without root
      and path. */
  function EmbeddedLoadFull(d: Doc, rootLoadFull: RootRef -> bool): (r: bool)
    ensures r ==> d.rap.Some?
    ensures d.rap.Some? ==> r == rootLoadFull(d.rap.value.root)
  {
    d.rap.Some? && rootLoadFull(d.rap.value.root)
  }

  /** Where the walk down a path from the root stops: at a document, or
      at an embedded group (which ends the search with false). */
  datatype Reach = Reached(doc: Doc) | InGroup

  predicate HasGroup(d: Doc, name: string) {
    exists i :: 0 <= i < |d.embeddedsMany| && d.embeddedsMany[i].name == name
  }

  /** Calls the getter of each segment in turn: an embedded one continues
      the walk, an embedded group stops it, and a null embedded one or any
      other getter ends in an Error at the next call. */
  function WalkPath(cur: Doc, segs: seq<string>): (r: Result<Reach>)
    decreases |segs|
    ensures segs == [] ==> r == Ok(Reached(cur))
    ensures segs != [] && !HasSlot(cur, segs[0]) && HasGroup(cur, segs[0]) ==> r == Ok(InGroup)
  {
    if segs == [] then Ok(Reached(cur))
    else if HasSlot(cur, segs[0]) then
      match SlotValue(cur, segs[0])
      case None => Err(PhpError)
      case Some(c) => WalkPath(c, segs[1..])
    else if HasGroup(cur, segs[0]) then Ok(InGroup)
    else Err(PhpError)
  }

  /** `isEmbeddedOneChangedInParent`: false without root and path;
      otherwise the parent reached by all but the last path segment is
      asked whether the last segment is a changed embedded one. */
  function IsEmbeddedOneChangedInParent(d: Doc, root: Doc): (r: Result<bool>)
    ensures d.rap.None? ==> r == Ok(false)
  {
    if d.rap.None? then Ok(false)
    else
      var segs := Split(d.rap.value.path, '.');
      var reach :- WalkPath(root, segs[..|segs| - 1]);
      if reach.InGroup? then Ok(false)
      else Ok(IsEmbeddedOneChanged(reach.doc, segs[|segs| - 1]))
  }

  /** A direct embedded one of the root asks the root itself. */
  lemma ChangedInParentAtRoot(d: Doc, root: Doc, r: RootRef, name: string)
    requires d.rap == Some(Rap(r, name)) && '.' !in name
    ensures IsEmbeddedOneChangedInParent(d, root) == Ok(IsEmbeddedOneChanged(root, name))
  {
    SplitPlain(name, '.');
  }

  /** A document below an embedded group of the root is never reported. */
  lemma ChangedInParentUnderGroup(d: Doc, root: Doc, r: RootRef, group: string, rest: string)
    requires d.rap == Some(Rap(r, group + "." + rest)) && '.' !in group
    requires !HasSlot(root, group) && HasGroup(root, group)
    ensures IsEmbeddedOneChangedInParent(d, root) == Ok(false)
  {
    SplitAtSeparator(group, '.', rest);
    var segs := Split(group + "." + rest, '.');
    assert segs == [group] + Split(rest, '.');
    assert segs[..|segs| - 1][0] == group;
  }
}
