/** IndexManager: compares the indexes a document class declares with the
    ones the collection has, by a canonical key built from each index's
    fields and options, and plans the drops and creations that bring the
    collection in line. The collection's index listing is a parameter and
    the drop and create commands are reported, with their success given. */
module Indexes {
  import opened Wrappers
  import opened PhpValues
  import opened Strings
  import opened PhpArrays

  // ---------------------------------------------------------------------
  // sort(): byte-wise string order

  /** `strcmp($a, $b) <= 0`: character by character, a proper prefix
      first. */
  predicate LexLe(a: string, b: string)
    decreases |a|
  {
    a == [] || (b != [] && (a[0] < b[0] || (a[0] == b[0] && LexLe(a[1..], b[1..]))))
  }

  lemma {:induction false} LexLeTotal(a: string, b: string)
    ensures LexLe(a, b) || LexLe(b, a)
    decreases |a|
  {
    if a != [] && b != [] && a[0] == b[0] {
      LexLeTotal(a[1..], b[1..]);
    }
  }

  lemma {:induction false} LexLeAntisymmetric(a: string, b: string)
    requires LexLe(a, b) && LexLe(b, a)
    ensures a == b
    decreases |a|
  {
    if a != [] {
      LexLeAntisymmetric(a[1..], b[1..]);
      assert a == [a[0]] + a[1..] && b == [b[0]] + b[1..];
    }
  }

  lemma {:induction false} LexLeTransitive(a: string, b: string, c: string)
    requires LexLe(a, b) && LexLe(b, c)
    ensures LexLe(a, c)
    decreases |a|
  {
    if a != [] && a[0] == b[0] && b[0] == c[0] {
      LexLeTransitive(a[1..], b[1..], c[1..]);
    }
  }

  predicate Sorted(s: seq<string>) {
    forall i, j :: 0 <= i < j < |s| ==> LexLe(s[i], s[j])
  }

  /** Inserts `x` before the first element it does not follow. */
  function Insert(x: string, s: seq<string>): (r: seq<string>)
    requires Sorted(s)
    ensures Sorted(r) && multiset(r) == multiset(s) + multiset{x}
  {
    if s == [] then [x]
    else if LexLe(x, s[0]) then
      InsertFrontSorted(x, s);
      [x] + s
    else
      LexLeTotal(x, s[0]);
      var rest := Insert(x, s[1..]);
      assert s == [s[0]] + s[1..];
      InsertBehindSorted(s[0], rest, x, s[1..]);
      [s[0]] + rest
  }

  lemma InsertFrontSorted(x: string, s: seq<string>)
    requires Sorted(s) && s != [] && LexLe(x, s[0])
    ensures Sorted([x] + s)
  {
    var r := [x] + s;
    forall i, j | 0 <= i < j < |r|
      ensures LexLe(r[i], r[j])
    {
      assert r[j] == s[j - 1];
      if i == 0 {
        if j > 1 {
          LexLeTransitive(x, s[0], s[j - 1]);
        }
      } else {
        assert r[i] == s[i - 1];
      }
    }
  }

  lemma InsertBehindSorted(h: string, rest: seq<string>, x: string, tail: seq<string>)
    requires Sorted(rest) && Sorted([h] + tail) && LexLe(h, x)
    requires multiset(rest) == multiset(tail) + multiset{x}
    ensures Sorted([h] + rest)
  {
    var r := [h] + rest;
    forall i, j | 0 <= i < j < |r|
      ensures LexLe(r[i], r[j])
    {
      assert r[j] == rest[j - 1];
      if i == 0 {
        assert rest[j - 1] in multiset(rest);
        if rest[j - 1] != x {
          assert rest[j - 1] in multiset(tail);
          var k :| 0 <= k < |tail| && tail[k] == rest[j - 1];
          assert ([h] + tail)[0] == h && ([h] + tail)[k + 1] == tail[k];
        }
      } else {
        assert r[i] == rest[i - 1];
      }
    }
  }

  /** `sort($hash)`: the parts in ascending order. */
  function SortStrings(s: seq<string>): (r: seq<string>)
    ensures Sorted(r) && multiset(r) == multiset(s)
  {
    if s == [] then []
    else
      assert s == [s[0]] + s[1..];
      Insert(s[0], SortStrings(s[1..]))
  }

  /** The first element of a sorted sequence precedes all of it. */
  lemma SortedHeadFirst(a: seq<string>, x: string)
    requires Sorted(a) && x in multiset(a)
    ensures LexLe(a[0], x)
  {
    var i :| 0 <= i < |a| && a[i] == x;
    if i == 0 {
      LexLeTotal(x, x);
    }
  }

  lemma TailMultiset<T>(a: seq<T>)
    requires a != []
    ensures multiset(a[1..]) == multiset(a) - multiset{a[0]}
  {
    assert a == [a[0]] + a[1..];
  }

  /** Two sorted orderings of the same parts are the same sequence. */
  lemma {:induction false} SortedUnique(a: seq<string>, b: seq<string>)
    requires Sorted(a) && Sorted(b) && multiset(a) == multiset(b)
    ensures a == b
    decreases |a|
  {
    if a == [] {
      assert |b| == |multiset(b)| == 0;
    } else {
      SortedHeadsEqual(a, b);
      TailMultiset(a);
      TailMultiset(b);
      SortedUnique(a[1..], b[1..]);
      SameHeadSameTail(a, b);
    }
  }

  /** Two sorted orderings of the same non-empty parts start alike. */
  lemma SortedHeadsEqual(a: seq<string>, b: seq<string>)
    requires Sorted(a) && Sorted(b) && multiset(a) == multiset(b) && a != []
    ensures b != [] && a[0] == b[0]
  {
    assert a[0] in multiset(b);
    SortedHeadFirst(a, b[0]);
    SortedHeadFirst(b, a[0]);
    LexLeAntisymmetric(a[0], b[0]);
  }

  lemma SameHeadSameTail<T>(a: seq<T>, b: seq<T>)
    requires a != [] && b != [] && a[0] == b[0] && a[1..] == b[1..]
    ensures a == b
  {
    assert a == [a[0]] + a[1..] && b == [b[0]] + b[1..];
  }

  // ---------------------------------------------------------------------
  // generateIndexKey

  /** A value `%s` can format: anything but an object without a string
      form. `toStr` stands for an object's `__toString`. */
  predicate Printable(v: Value, toStr: Value -> Option<string>) {
    !v.Obj? || toStr(v).Some?
  }

  /** `%s` of a non-numeric value that has a string form. */
  function TextOf(v: Value, toStr: Value -> Option<string>): string
    requires Printable(v, toStr) && !IsNumeric(v)
  {
    match v
    case Null => ""
    case Bool(b) => if b then "1" else ""
    case Str(s) => s
    case Arr(_) => "Array"
    case Obj(_, _) => toStr(v).value
  }

  /** The part for one index field: `<key>_1` for null, `<key>_<int>` for
      a numeric value, `<key>_<value>` otherwise. */
  function KeyPart(key: string, v: Value, toStr: Value -> Option<string>): string
    requires Printable(v, toStr)
  {
    if v.Null? then key + "_1"
    else if IsNumeric(v) then key + "_" + IntToString(IntOf(v))
    else key + "_" + TextOf(v, toStr)
  }

  /** Every field value can be formatted. */
  predicate Formattable(ks: Assoc<Value>, toStr: Value -> Option<string>) {
    forall i :: 0 <= i < |ks| ==> Printable(ks[i].1, toStr)
  }

  function Parts(ks: Assoc<Value>, toStr: Value -> Option<string>): (r: seq<string>)
    requires Formattable(ks, toStr)
    ensures |r| == |ks|
    ensures forall k :: 0 <= k < |ks| ==> r[k] == KeyPart(ks[k].0, ks[k].1, toStr)
  {
    if ks == [] then [] else [KeyPart(ks[0].0, ks[0].1, toStr)] + Parts(ks[1..], toStr)
  }

  /** A numeric string is formatted by its integer whatever whitespace
      surrounds it, so `'a' => " 1 "` gives the part `a_1`, as `1` does;
      `unique => " 1"` likewise gives `unique_1`. */
  lemma PaddedNumeralPart(key: string, w: string, i: int, v: string, toStr: Value -> Option<string>)
    requires AllSpace(w) && AllSpace(v)
    ensures KeyPart(key, Str(w + IntToString(i) + v), toStr) == key + "_" + IntToString(i)
    ensures KeyPart(key, Int(i), toStr) == key + "_" + IntToString(i)
    ensures OptionParts([("unique", Str(w + IntToString(i) + v))]) == ["unique_" + IntToString(i)]
  {
    PaddedIntToString(w, i, v);
    PaddedNumeric(w + IntToString(i) + v, i);
    NumericPart(key, Str(w + IntToString(i) + v), toStr);
    NumericPart(key, Int(i), toStr);
    PaddedUnique(w + IntToString(i) + v, i);
  }

  lemma PaddedNumeric(s: string, i: int)
    requires StrToInt(s) == i && IsNumericString(s)
    ensures IsNumeric(Str(s)) && IntOf(Str(s)) == i
  {
  }

  lemma PaddedUnique(s: string, i: int)
    requires IsNumeric(Str(s)) && IntOf(Str(s)) == i
    ensures OptionParts([("unique", Str(s))]) == ["unique_" + IntToString(i)]
  {
    var options := [("unique", Str(s))];
    assert IsSet(options, "unique") && Lookup(options, "unique").value == Str(s);
    assert !IsSet(options, "sparse") && !IsSet(options, "language") && !IsSet(options, "default_language");
  }

  /** A numeral that starts with "." is numeric, and its integer is 0:
      `'a' => ".5"` gives the part `a_0`. */
  lemma LeadingDotPart(key: string, f: string, toStr: Value -> Option<string>)
    requires f != [] && AllDigits(f)
    ensures KeyPart(key, Str("." + f), toStr) == key + "_0"
  {
    var s := "." + f;
    LeadingDotNumeral(f);
    PaddedNumeric(s, 0);
    NumericPart(key, Str(s), toStr);
    assert IntToString(0) == "0";
  }

  /** A numeric value's part is formatted by its integer. */
  lemma NumericPart(key: string, v: Value, toStr: Value -> Option<string>)
    requires IsNumeric(v)
    ensures KeyPart(key, v, toStr) == key + "_" + IntToString(IntOf(v))
  {
  }

  /** `isset($a[$k])`: present and not null. */
  predicate IsSet(a: Assoc<Value>, k: string) {
    Lookup(a, k).Some? && !Lookup(a, k).value.Null?
  }

  /** With `weights` the index is a text index: the weights replace the
      keys (a non-array weights value gives no parts). */
  function KeyFields(keys: Assoc<Value>, options: Assoc<Value>): Assoc<Value> {
    if IsSet(options, "weights") then
      match Lookup(options, "weights").value
      case Arr(e) => e
      case _ => []
    else keys
  }

  function TextPart(options: Assoc<Value>): seq<string> {
    if IsSet(options, "weights") then ["text_1"] else []
  }

  /** `unique_%d`, `sparse_%d`, and `language_%d` from `language`, else
      from `default_language` (a language name formats as 0). */
  function OptionParts(options: Assoc<Value>): seq<string> {
    (if IsSet(options, "unique") then ["unique_" + IntToString(IntOf(Lookup(options, "unique").value))] else []) +
    (if IsSet(options, "sparse") then ["sparse_" + IntToString(IntOf(Lookup(options, "sparse").value))] else []) +
    (if IsSet(options, "language") then ["language_" + IntToString(IntOf(Lookup(options, "language").value))]
     else if IsSet(options, "default_language") then ["language_" + IntToString(IntOf(Lookup(options, "default_language").value))]
     else [])
  }

  /** Every part of the key, unsorted. */
  function AllParts(keys: Assoc<Value>, options: Assoc<Value>, toStr: Value -> Option<string>): seq<string>
    requires Formattable(KeyFields(keys, options), toStr)
  {
    TextPart(options) + Parts(KeyFields(keys, options), toStr) + OptionParts(options)
  }

  /** `generateIndexKey`: the parts, sorted, joined with `_`. An object
      among the field values cannot be formatted, and with no part at all
      the list is never created and `sort` refuses it: both raise an
      Error. */
  function IndexKey(keys: Assoc<Value>, options: Assoc<Value>, toStr: Value -> Option<string>): (r: Result<string>)
    ensures r.Err? <==> !Formattable(KeyFields(keys, options), toStr) || AllParts(keys, options, toStr) == []
  {
    if !Formattable(KeyFields(keys, options), toStr) then Err(PhpError)
    else
      var all := AllParts(keys, options, toStr);
      if all == [] then Err(PhpError) else Ok(Join(SortStrings(all), "_"))
  }

  /** The key is the parts in ascending order, joined with `_`. */
  lemma IndexKeyIsSorted(keys: Assoc<Value>, options: Assoc<Value>, toStr: Value -> Option<string>)
    requires IndexKey(keys, options, toStr).Ok?
    ensures exists s: seq<string> ::
      && Sorted(s)
      && multiset(s) == multiset(AllParts(keys, options, toStr))
      && IndexKey(keys, options, toStr).value == Join(s, "_")
  {
    var s := SortStrings(AllParts(keys, options, toStr));
    assert IndexKey(keys, options, toStr).value == Join(s, "_");
  }

  lemma {:induction false} PartsConcat(a: Assoc<Value>, b: Assoc<Value>, toStr: Value -> Option<string>)
    requires Formattable(a, toStr) && Formattable(b, toStr)
    ensures Formattable(a + b, toStr) && Parts(a + b, toStr) == Parts(a, toStr) + Parts(b, toStr)
    decreases |a|
  {
    if a != [] {
      assert (a + b)[1..] == a[1..] + b;
      PartsConcat(a[1..], b, toStr);
    } else {
      assert a + b == b;
    }
  }

  /** A slice of object-free entries is object-free. */
  lemma FormattableSlice(b: Assoc<Value>, lo: nat, hi: nat, toStr: Value -> Option<string>)
    requires Formattable(b, toStr) && lo <= hi <= |b|
    ensures Formattable(b[lo..hi], toStr)
  {
    var s := b[lo..hi];
    forall j | 0 <= j < |s|
      ensures Printable(s[j].1, toStr)
    {
      assert s[j] == b[lo + j];
    }
  }

  /** Removing the entry at `i` removes its part. */
  lemma {:induction false} PartsRemove(b: Assoc<Value>, i: nat, toStr: Value -> Option<string>)
    requires Formattable(b, toStr) && i < |b|
    ensures Formattable(b[..i] + b[i + 1..], toStr)
    ensures multiset(Parts(b, toStr)) == multiset(Parts(b[..i] + b[i + 1..], toStr)) + multiset{KeyPart(b[i].0, b[i].1, toStr)}
    decreases i
  {
    var rest := b[1..];
    FormattableSlice(b, 1, |b|, toStr);
    var removed := b[..i] + b[i + 1..];
    RemoveShape(b, i);
    if i > 0 {
      PartsRemove(rest, i - 1, toStr);
      var shorter := rest[..i - 1] + rest[i..];
      PartsCons(b[0], shorter, toStr);
    }
  }

  /** Removing the entry at `i` from a sequence: the rest when `i` is 0,
      otherwise the head followed by the rest with entry `i - 1` removed. */
  lemma RemoveShape<T>(b: seq<T>, i: nat)
    requires i < |b|
    ensures i == 0 ==> b[..i] + b[i + 1..] == b[1..]
    ensures i > 0 ==> b[1..][i - 1] == b[i] && b[..i] + b[i + 1..] == [b[0]] + (b[1..][..i - 1] + b[1..][i..])
  {
    if i > 0 {
      assert b[..i] == [b[0]] + b[1..][..i - 1];
    }
  }

  lemma PartsCons(x: (string, Value), s: Assoc<Value>, toStr: Value -> Option<string>)
    requires Printable(x.1, toStr) && Formattable(s, toStr)
    ensures Formattable([x] + s, toStr) && Parts([x] + s, toStr) == [KeyPart(x.0, x.1, toStr)] + Parts(s, toStr)
  {
    assert ([x] + s)[1..] == s;
  }

  /** Reordering the fields reorders their parts. */
  lemma {:induction false} PartsPermute(a: Assoc<Value>, b: Assoc<Value>, toStr: Value -> Option<string>)
    requires Formattable(a, toStr) && multiset(a) == multiset(b)
    ensures Formattable(b, toStr) && multiset(Parts(a, toStr)) == multiset(Parts(b, toStr))
    decreases |a|
  {
    FormattablePermute(a, b, toStr);
    if a == [] {
      assert |b| == |multiset(b)| == 0;
    } else {
      var i := MatchHead(a, b);
      FormattableSlice(a, 1, |a|, toStr);
      PartsRemove(b, i, toStr);
      PartsPermute(a[1..], b[..i] + b[i + 1..], toStr);
      PartsJoin(a, b, i, toStr);
    }
  }

  /** Where the first entry of `a` sits in its permutation `b`, and what
      is left of both without it. */
  lemma MatchHead<T>(a: seq<T>, b: seq<T>) returns (i: nat)
    requires a != [] && multiset(a) == multiset(b)
    ensures i < |b| && b[i] == a[0]
    ensures multiset(a[1..]) == multiset(b[..i] + b[i + 1..])
  {
    assert a[0] in multiset(b);
    i :| 0 <= i < |b| && b[i] == a[0];
    MultisetRemove(b, i);
    TailMultiset(a);
  }

  lemma PartsJoin(a: Assoc<Value>, b: Assoc<Value>, i: nat, toStr: Value -> Option<string>)
    requires Formattable(a, toStr) && Formattable(b, toStr) && a != [] && i < |b| && b[i] == a[0]
    requires Formattable(a[1..], toStr) && Formattable(b[..i] + b[i + 1..], toStr)
    requires multiset(Parts(a[1..], toStr)) == multiset(Parts(b[..i] + b[i + 1..], toStr))
    ensures multiset(Parts(a, toStr)) == multiset(Parts(b, toStr))
  {
    PartsRemove(b, i, toStr);
    PartsCons(a[0], a[1..], toStr);
    assert [a[0]] + a[1..] == a;
    PermuteStep(Parts(a[1..], toStr), Parts(b, toStr), Parts(b[..i] + b[i + 1..], toStr), KeyPart(a[0].0, a[0].1, toStr));
  }

  lemma PermuteStep(pa: seq<string>, pb: seq<string>, rest: seq<string>, part: string)
    requires multiset(pa) == multiset(rest) && multiset(pb) == multiset(rest) + multiset{part}
    ensures multiset([part] + pa) == multiset(pb)
  {
  }

  lemma FormattablePermute(a: Assoc<Value>, b: Assoc<Value>, toStr: Value -> Option<string>)
    requires Formattable(a, toStr) && multiset(a) == multiset(b)
    ensures Formattable(b, toStr)
  {
    forall i | 0 <= i < |b|
      ensures Printable(b[i].1, toStr)
    {
      assert b[i] in multiset(a);
    }
  }

  lemma MultisetRemove<T>(b: seq<T>, i: nat)
    requires i < |b|
    ensures multiset(b[..i] + b[i + 1..]) == multiset(b) - multiset{b[i]}
  {
    assert b == b[..i] + [b[i]] + b[i + 1..];
  }

  /** The key does not depend on the order in which the fields are
      written. */
  lemma IndexKeyOrderIndependent(keys1: Assoc<Value>, keys2: Assoc<Value>, options: Assoc<Value>, toStr: Value -> Option<string>)
    requires multiset(keys1) == multiset(keys2)
    ensures IndexKey(keys1, options, toStr) == IndexKey(keys2, options, toStr)
  {
    var k1 := KeyFields(keys1, options);
    var k2 := KeyFields(keys2, options);
    if !IsSet(options, "weights") && Formattable(k1, toStr) {
      PartsPermute(k1, k2, toStr);
      var s1 := TextPart(options) + Parts(k1, toStr) + OptionParts(options);
      var s2 := TextPart(options) + Parts(k2, toStr) + OptionParts(options);
      SortedUnique(SortStrings(s1), SortStrings(s2));
    } else if !IsSet(options, "weights") && Formattable(k2, toStr) {
      PartsPermute(k2, k1, toStr);
    }
  }

  /** `['b' => -1, 'a' => 1]` with `unique` is known as
      `a_1_b_-1_unique_1`. */
  lemma IndexKeyExample(keys: Assoc<Value>, options: Assoc<Value>, toStr: Value -> Option<string>)
    requires keys == [("b", Int(-1)), ("a", Int(1))] && options == [("unique", Bool(true))]
    ensures IndexKey(keys, options, toStr) == Ok("a_1_b_-1_unique_1")
  {
    ExampleAllParts(keys, options, toStr);
    var s := ["a_1", "b_-1", "unique_1"];
    ExamplePermutation(s, AllParts(keys, options, toStr));
    ExampleSorted();
    IndexKeyIsSortedJoin(keys, options, s, toStr);
    JoinExample();
  }

  lemma ExampleAllParts(keys: Assoc<Value>, options: Assoc<Value>, toStr: Value -> Option<string>)
    requires keys == [("b", Int(-1)), ("a", Int(1))] && options == [("unique", Bool(true))]
    ensures KeyFields(keys, options) == keys && Formattable(keys, toStr)
    ensures AllParts(keys, options, toStr) == ["b_-1", "a_1", "unique_1"]
  {
    ExampleParts(toStr);
    ExampleOptionParts();
  }

  /** Any sorted arrangement of the parts is the key. */
  lemma IndexKeyIsSortedJoin(keys: Assoc<Value>, options: Assoc<Value>, s: seq<string>, toStr: Value -> Option<string>)
    requires Formattable(KeyFields(keys, options), toStr)
    requires Sorted(s) && s != [] && multiset(s) == multiset(AllParts(keys, options, toStr))
    ensures IndexKey(keys, options, toStr) == Ok(Join(s, "_"))
  {
    var all := AllParts(keys, options, toStr);
    SortedUnique(SortStrings(all), s);
  }

  lemma ExampleParts(toStr: Value -> Option<string>)
    ensures Parts([("b", Int(-1)), ("a", Int(1))], toStr) == ["b_-1", "a_1"]
  {
    var keys := [("b", Int(-1)), ("a", Int(1))];
    assert NatToString(1) == "1" && IntToString(-1) == "-1" && IntToString(1) == "1";
    assert KeyPart("b", Int(-1), toStr) == "b_-1";
    assert KeyPart("a", Int(1), toStr) == "a_1";
    assert keys[1..] == [("a", Int(1))] && keys[1..][1..] == [];
  }

  lemma ExampleOptionParts()
    ensures !IsSet([("unique", Bool(true))], "weights")
    ensures OptionParts([("unique", Bool(true))]) == ["unique_1"]
  {
    var options := [("unique", Bool(true))];
    assert !IsSet(options, "weights") && !IsSet(options, "sparse") && !IsSet(options, "language");
    assert !IsSet(options, "default_language");
    assert Lookup(options, "unique") == Some(Bool(true));
    assert IntOf(Bool(true)) == 1 && IntToString(1) == "1";
    assert "unique_" + IntToString(IntOf(Lookup(options, "unique").value)) == "unique_1";
  }

  lemma ExamplePermutation(s: seq<string>, p: seq<string>)
    requires |s| == 3 && p == [s[1], s[0], s[2]]
    ensures multiset(s) == multiset(p)
  {
    assert s == [s[0]] + [s[1]] + [s[2]];
    assert p == [s[1]] + [s[0]] + [s[2]];
  }

  lemma ExampleSorted()
    ensures Sorted(["a_1", "b_-1", "unique_1"])
  {
    var s := ["a_1", "b_-1", "unique_1"];
    assert LexLe(s[0], s[1]) && LexLe(s[0], s[2]) && LexLe(s[1], s[2]);
  }

  lemma JoinExample()
    ensures Join(["a_1", "b_-1", "unique_1"], "_") == "a_1_b_-1_unique_1"
  {
    var s := ["a_1", "b_-1", "unique_1"];
    assert s[1..] == ["b_-1", "unique_1"] && s[1..][1..] == ["unique_1"];
    assert Join(s[1..], "_") == "b_-1" + "_" + "unique_1";
  }

  /** An object among the key values is formatted by its string form:
      `['a' => $o]` is known as `a_<string of $o>`, and only an object
      without one makes the key fail. */
  lemma ObjectKey(o: Value, toStr: Value -> Option<string>)
    requires o.Obj?
    ensures toStr(o).Some? ==> IndexKey([("a", o)], [], toStr) == Ok("a_" + toStr(o).value)
    ensures toStr(o).None? ==> IndexKey([("a", o)], [], toStr) == Err(PhpError)
  {
    var keys := [("a", o)];
    assert KeyFields(keys, []) == keys;
    if toStr(o).Some? {
      var part := "a_" + toStr(o).value;
      assert KeyPart("a", o, toStr) == part;
      assert keys[1..] == [];
      assert Parts(keys, toStr) == [part];
      assert AllParts(keys, [], toStr) == [part];
      IndexKeyIsSortedJoin(keys, [], [part], toStr);
    } else {
      assert !Printable(keys[0].1, toStr);
    }
  }

  /** A text index is keyed by its weights alone: the declared keys do
      not matter. */
  lemma TextIndexIgnoresKeys(keys1: Assoc<Value>, keys2: Assoc<Value>, options: Assoc<Value>, toStr: Value -> Option<string>)
    requires IsSet(options, "weights")
    ensures IndexKey(keys1, options, toStr) == IndexKey(keys2, options, toStr)
  {
  }

  // ---------------------------------------------------------------------
  // getDiff and commit

  /** A declared index; `options` may be missing. */
  datatype IndexConfig = IndexConfig(keys: Assoc<Value>, options: Option<Assoc<Value>>)

  /** An index as the server lists it: its name, its `key` document, and
      the whole description, which serves as its options. */
  datatype ServerIndex = ServerIndex(name: string, key: Assoc<Value>, description: Assoc<Value>)

  datatype Diff = Diff(missing: Assoc<IndexConfig>, present: Assoc<IndexConfig>, unknown: Assoc<ServerIndex>)

  /** `listIndexes`: the server's indexes by key, a later one with the same
      key replacing an earlier one in place. */
  function ListIndexes(acc: Assoc<ServerIndex>, server: seq<ServerIndex>, toStr: Value -> Option<string>): (r: Result<Assoc<ServerIndex>>)
    requires DistinctKeys(acc)
    ensures r.Ok? ==> DistinctKeys(r.value)
    decreases |server|
  {
    if server == [] then Ok(acc)
    else
      var name :- IndexKey(server[0].key, server[0].description, toStr);
      PutLookup(acc, name, server[0], name);
      ListIndexes(Put(acc, name, server[0]), server[1..], toStr)
  }

  /** The declared index with its options defaulted to `[]`. */
  function WithOptions(c: IndexConfig): IndexConfig {
    c.(options := Some(c.options.GetOr([])))
  }

  /** One round of the loop of `getDiff`: a key still in the server set
      is present (and leaves the set), any other is missing. */
  function Sort(d: Diff, name: string, c: IndexConfig): Diff {
    if HasKey(d.unknown, name) then Diff(d.missing, Put(d.present, name, c), Unset(d.unknown, name))
    else Diff(Put(d.missing, name, c), d.present, d.unknown)
  }

  /** The loop of `getDiff` over the declared indexes. */
  function DiffFrom(d: Diff, config: seq<IndexConfig>, toStr: Value -> Option<string>): (r: Result<Diff>)
    decreases |config|
  {
    if config == [] then Ok(d)
    else
      var c := WithOptions(config[0]);
      var name :- IndexKey(c.keys, c.options.value, toStr);
      DiffFrom(Sort(d, name, c), config[1..], toStr)
  }

  /** `getDiff`: the server set without `_id_1`, split against the
      declared indexes. */
  function GetDiff(config: seq<IndexConfig>, server: seq<ServerIndex>, toStr: Value -> Option<string>): Result<Diff> {
    var listed :- ListIndexes([], server, toStr);
    DiffFrom(Diff([], [], Unset(listed, "_id_1")), config, toStr)
  }

  /** The key a declared index is known by. */
  function ConfigKey(c: IndexConfig, toStr: Value -> Option<string>): Result<string> {
    IndexKey(c.keys, c.options.GetOr([]), toStr)
  }

  /** What the loop keeps true: the three arrays have distinct keys, a
      present key came from the server set, and a server key is unknown
      exactly when it is not present. */
  ghost predicate DiffInvariant(d: Diff, set0: Assoc<ServerIndex>) {
    && DistinctKeys(d.missing) && DistinctKeys(d.present) && DistinctKeys(d.unknown)
    && (forall k :: HasKey(d.present, k) ==> HasKey(set0, k))
    && (forall k :: HasKey(d.unknown, k) <==> HasKey(set0, k) && !HasKey(d.present, k))
  }

  /** One round keeps the invariant, loses no key, and files `name`. */
  lemma SortProperties(d: Diff, name: string, c: IndexConfig, set0: Assoc<ServerIndex>)
    requires DiffInvariant(d, set0)
    ensures DiffInvariant(Sort(d, name, c), set0)
    ensures HasKey(Sort(d, name, c).present, name) || HasKey(Sort(d, name, c).missing, name)
    ensures forall k :: HasKey(d.present, k) ==> HasKey(Sort(d, name, c).present, k)
    ensures forall k :: HasKey(d.missing, k) ==> HasKey(Sort(d, name, c).missing, k)
  {
    var d' := Sort(d, name, c);
    forall k
      ensures HasKey(d.present, k) ==> HasKey(d'.present, k)
      ensures HasKey(d.missing, k) ==> HasKey(d'.missing, k)
      ensures HasKey(d'.present, k) ==> HasKey(set0, k)
      ensures HasKey(d'.unknown, k) <==> HasKey(set0, k) && !HasKey(d'.present, k)
    {
      PutLookup(d.present, name, c, k);
      PutLookup(d.missing, name, c, k);
      UnsetLookup(d.unknown, name, k);
    }
    PutLookup(d.present, name, c, name);
    PutLookup(d.missing, name, c, name);
    UnsetLookup(d.unknown, name, name);
  }

  lemma {:induction false} DiffFromProperties(d: Diff, config: seq<IndexConfig>, set0: Assoc<ServerIndex>, toStr: Value -> Option<string>)
    requires DiffInvariant(d, set0) && DiffFrom(d, config, toStr).Ok?
    ensures DiffInvariant(DiffFrom(d, config, toStr).value, set0)
    ensures forall k :: HasKey(d.present, k) ==> HasKey(DiffFrom(d, config, toStr).value.present, k)
    ensures forall k :: HasKey(d.missing, k) ==> HasKey(DiffFrom(d, config, toStr).value.missing, k)
    ensures forall i :: 0 <= i < |config| ==> Filed(DiffFrom(d, config, toStr).value, config[i], toStr)
    decreases |config|
  {
    if config != [] {
      var name, c := DiffFromUnfold(d, config, toStr);
      var d' := Sort(d, name, c);
      SortProperties(d, name, c, set0);
      DiffFromProperties(d', config[1..], set0, toStr);
      var r := DiffFrom(d, config, toStr).value;
      assert Filed(r, config[0], toStr);
      forall i | 1 <= i < |config|
        ensures Filed(r, config[i], toStr)
      {
        assert config[i] == config[1..][i - 1];
      }
    }
  }

  /** One round of the loop of `getDiff`, named. */
  lemma DiffFromUnfold(d: Diff, config: seq<IndexConfig>, toStr: Value -> Option<string>) returns (name: string, c: IndexConfig)
    requires config != [] && DiffFrom(d, config, toStr).Ok?
    ensures c == WithOptions(config[0]) && ConfigKey(config[0], toStr) == Ok(name)
    ensures DiffFrom(d, config, toStr) == DiffFrom(Sort(d, name, c), config[1..], toStr)
  {
    c := WithOptions(config[0]);
    name := IndexKey(c.keys, c.options.value, toStr).value;
  }

  /** The declared index has a key and is present or missing under it. */
  ghost predicate Filed(d: Diff, c: IndexConfig, toStr: Value -> Option<string>) {
    ConfigKey(c, toStr).Ok? && (HasKey(d.present, ConfigKey(c, toStr).value) || HasKey(d.missing, ConfigKey(c, toStr).value))
  }

  /** `getDiff`: `_id_1` is never unknown; every declared index is
      present or missing; a server index is unknown exactly when no
      declared index matched it; a present key is one the server has. */
  lemma GetDiffProperties(config: seq<IndexConfig>, server: seq<ServerIndex>, toStr: Value -> Option<string>)
    requires GetDiff(config, server, toStr).Ok?
    ensures var d := GetDiff(config, server, toStr).value;
      var set0 := Unset(ListIndexes([], server, toStr).value, "_id_1");
      && !HasKey(d.unknown, "_id_1")
      && (forall i :: 0 <= i < |config| ==> Filed(d, config[i], toStr))
      && (forall k :: HasKey(d.unknown, k) <==> HasKey(set0, k) && !HasKey(d.present, k))
      && (forall k :: HasKey(d.present, k) ==> HasKey(set0, k))
  {
    var listed := ListIndexes([], server, toStr).value;
    var set0 := Unset(listed, "_id_1");
    UnsetLookup(listed, "_id_1", "_id_1");
    DiffFromProperties(Diff([], [], set0), config, set0, toStr);
  }

  /** A key no remaining declared index has keeps its standing. */
  lemma {:induction false} DiffFromFrame(d: Diff, config: seq<IndexConfig>, set0: Assoc<ServerIndex>, k: string, toStr: Value -> Option<string>)
    requires DiffInvariant(d, set0) && DiffFrom(d, config, toStr).Ok?
    requires forall i :: 0 <= i < |config| ==> ConfigKey(config[i], toStr) != Ok(k)
    ensures HasKey(DiffFrom(d, config, toStr).value.present, k) == HasKey(d.present, k)
    ensures HasKey(DiffFrom(d, config, toStr).value.missing, k) == HasKey(d.missing, k)
    decreases |config|
  {
    if config != [] {
      var c := WithOptions(config[0]);
      var name := IndexKey(c.keys, c.options.value, toStr).value;
      assert ConfigKey(config[0], toStr) == Ok(name);
      SortProperties(d, name, c, set0);
      PutLookup(d.present, name, c, k);
      PutLookup(d.missing, name, c, k);
      forall i | 0 <= i < |config[1..]|
        ensures ConfigKey(config[1..][i], toStr) != Ok(k)
      {
        assert config[1..][i] == config[i + 1];
      }
      DiffFromFrame(Sort(d, name, c), config[1..], set0, k, toStr);
    }
  }

  /** Keys that no two declared indexes share. */
  predicate DistinctConfigKeys(config: seq<IndexConfig>, toStr: Value -> Option<string>) {
    forall i, j :: 0 <= i < j < |config| ==> ConfigKey(config[i], toStr) != ConfigKey(config[j], toStr)
  }

  lemma {:induction false} DiffFromExactlyOne(d: Diff, config: seq<IndexConfig>, set0: Assoc<ServerIndex>, toStr: Value -> Option<string>)
    requires DiffInvariant(d, set0) && DiffFrom(d, config, toStr).Ok? && DistinctConfigKeys(config, toStr)
    requires forall i :: 0 <= i < |config| && ConfigKey(config[i], toStr).Ok? ==>
      !HasKey(d.present, ConfigKey(config[i], toStr).value) && !HasKey(d.missing, ConfigKey(config[i], toStr).value)
    ensures forall i :: 0 <= i < |config| && ConfigKey(config[i], toStr).Ok? ==>
      !(HasKey(DiffFrom(d, config, toStr).value.present, ConfigKey(config[i], toStr).value) &&
        HasKey(DiffFrom(d, config, toStr).value.missing, ConfigKey(config[i], toStr).value))
    decreases |config|
  {
    if config != [] {
      var c := WithOptions(config[0]);
      var name := IndexKey(c.keys, c.options.value, toStr).value;
      assert ConfigKey(config[0], toStr) == Ok(name);
      var d' := Sort(d, name, c);
      var r := DiffFrom(d, config, toStr).value;
      SortProperties(d, name, c, set0);
      PutLookup(d.present, name, c, name);
      PutLookup(d.missing, name, c, name);
      var rest := config[1..];
      forall i | 0 <= i < |rest| && ConfigKey(rest[i], toStr).Ok?
        ensures !HasKey(d'.present, ConfigKey(rest[i], toStr).value) && !HasKey(d'.missing, ConfigKey(rest[i], toStr).value)
        ensures ConfigKey(rest[i], toStr) != Ok(name)
      {
        assert rest[i] == config[i + 1];
        PutLookup(d.present, name, c, ConfigKey(rest[i], toStr).value);
        PutLookup(d.missing, name, c, ConfigKey(rest[i], toStr).value);
      }
      assert DistinctConfigKeys(rest, toStr) by {
        forall i, j | 0 <= i < j < |rest|
          ensures ConfigKey(rest[i], toStr) != ConfigKey(rest[j], toStr)
        {
          assert rest[i] == config[i + 1] && rest[j] == config[j + 1];
        }
      }
      DiffFromExactlyOne(d', rest, set0, toStr);
      DiffFromFrame(d', rest, set0, name, toStr);
      forall i | 0 <= i < |config| && ConfigKey(config[i], toStr).Ok?
        ensures !(HasKey(r.present, ConfigKey(config[i], toStr).value) && HasKey(r.missing, ConfigKey(config[i], toStr).value))
      {
        if i > 0 {
          assert config[i] == rest[i - 1];
        }
      }
    }
  }

  /** When the declared indexes have distinct keys, each is either present
      or missing, never both. (A repeated key is filed twice: once present
      and once missing when the server has it.) */
  lemma GetDiffExactlyOne(config: seq<IndexConfig>, server: seq<ServerIndex>, i: nat, toStr: Value -> Option<string>)
    requires GetDiff(config, server, toStr).Ok? && DistinctConfigKeys(config, toStr) && i < |config|
    ensures ConfigKey(config[i], toStr).Ok?
    ensures HasKey(GetDiff(config, server, toStr).value.present, ConfigKey(config[i], toStr).value) !=
            HasKey(GetDiff(config, server, toStr).value.missing, ConfigKey(config[i], toStr).value)
  {
    GetDiffProperties(config, server, toStr);
    var listed := ListIndexes([], server, toStr).value;
    var set0 := Unset(listed, "_id_1");
    UnsetLookup(listed, "_id_1", "_id_1");
    DiffFromExactlyOne(Diff([], [], set0), config, set0, toStr);
  }

  /** A command `commit` issues. */
  datatype IndexCommand = Drop(name: string) | Create(keys: Assoc<Value>, options: Assoc<Value>)

  /** The commands of `commit`, in order: a drop for each unknown index
      when deleting, then a creation for each missing one. */
  function CommitPlan(d: Diff, delete: bool): (plan: seq<IndexCommand>)
    ensures var drops := if delete then |d.unknown| else 0;
      && |plan| == drops + |d.missing|
      && (forall i :: 0 <= i < drops ==> plan[i] == Drop(d.unknown[i].1.name))
      && (forall i :: 0 <= i < |d.missing| ==>
            plan[drops + i] == Create(d.missing[i].1.keys, d.missing[i].1.options.GetOr([])))
  {
    (if delete then seq(|d.unknown|, i requires 0 <= i < |d.unknown| => Drop(d.unknown[i].1.name)) else []) +
    seq(|d.missing|, i requires 0 <= i < |d.missing| => Create(d.missing[i].1.keys, d.missing[i].1.options.GetOr([])))
  }

  /** Without deletion nothing is dropped. */
  lemma KeepUnknownDropsNothing(d: Diff)
    ensures forall c :: c in CommitPlan(d, false) ==> c.Create?
  {
  }

  /** The loop of `commit`: issues the commands in order until one is
      refused, which raises RuntimeException. */
  method Issue(plan: seq<IndexCommand>, succeeds: IndexCommand -> bool) returns (issued: seq<IndexCommand>, o: Outcome)
    ensures issued <= plan
    ensures forall i :: 0 <= i < |issued| - 1 ==> succeeds(issued[i])
    ensures o.Pass? <==> issued == plan && forall c :: c in plan ==> succeeds(c)
    ensures o.Fail? ==> o == Fail(Runtime) && issued != [] && !succeeds(issued[|issued| - 1])
  {
    issued := [];
    var i := 0;
    while i < |plan|
      invariant 0 <= i <= |plan|
      invariant issued == plan[..i]
      invariant forall j :: 0 <= j < i ==> succeeds(plan[j])
    {
      issued := issued + [plan[i]];
      if !succeeds(plan[i]) {
        return issued, Fail(Runtime);
      }
      i := i + 1;
    }
    assert issued == plan;
    return issued, Pass;
  }

  /** `commit`: computes the diff, then issues its plan. An error while
      computing the diff issues nothing. */
  method Commit(config: seq<IndexConfig>, server: seq<ServerIndex>, delete: bool, succeeds: IndexCommand -> bool, toStr: Value -> Option<string>)
    returns (issued: seq<IndexCommand>, o: Outcome)
    ensures GetDiff(config, server, toStr).Err? ==> issued == [] && o == Fail(GetDiff(config, server, toStr).error)
    ensures GetDiff(config, server, toStr).Ok? ==>
      var plan := CommitPlan(GetDiff(config, server, toStr).value, delete);
      && issued <= plan
      && (o.Pass? <==> issued == plan && forall c :: c in plan ==> succeeds(c))
      && (o.Fail? ==> o == Fail(Runtime) && issued != [] && !succeeds(issued[|issued| - 1]))
  {
    var diff := GetDiff(config, server, toStr);
    if diff.Err? {
      return [], Fail(diff.error);
    }
    issued, o := Issue(CommitPlan(diff.value, delete), succeeds);
  }
}
