/** PHP arrays with string keys, as ordered lists of (key, value) entries
    with distinct keys: writing an existing key replaces its value in
    place, writing a new key appends it, and `array_merge` writes the
    entries of its second argument over the first, in order. */
module PhpArrays {
  import opened Wrappers

  type Assoc<V> = seq<(string, V)>

  predicate DistinctKeys<V>(a: Assoc<V>) {
    forall i, j :: 0 <= i < j < |a| ==> a[i].0 != a[j].0
  }

  predicate HasKey<V>(a: Assoc<V>, k: string) {
    exists i :: 0 <= i < |a| && a[i].0 == k
  }

  /** The position of key `k`, or -1. */
  function KeyIndex<V>(a: Assoc<V>, k: string): (i: int)
    ensures -1 <= i < |a|
    ensures i >= 0 ==> a[i].0 == k
    ensures i < 0 <==> !HasKey(a, k)
    ensures i >= 0 && DistinctKeys(a) ==> forall j :: 0 <= j < |a| && a[j].0 == k ==> j == i
  {
    if a == [] then -1
    else if a[0].0 == k then 0
    else
      var j := KeyIndex(a[1..], k);
      assert HasKey(a[1..], k) ==> HasKey(a, k) by {
        if HasKey(a[1..], k) {
          var m :| 0 <= m < |a[1..]| && a[1..][m].0 == k;
          assert a[m + 1].0 == k;
        }
      }
      assert HasKey(a, k) ==> HasKey(a[1..], k) by {
        if HasKey(a, k) {
          var m :| 0 <= m < |a| && a[m].0 == k;
          assert a[1..][m - 1].0 == k;
        }
      }
      if j < 0 then -1 else j + 1
  }

  /** `$a[$k]`, or null when the key is absent. */
  function Lookup<V>(a: Assoc<V>, k: string): (r: Option<V>)
    ensures r.Some? <==> HasKey(a, k)
  {
    var i := KeyIndex(a, k);
    if i < 0 then None else Some(a[i].1)
  }

  /** `$a[$k] = $v`. */
  function Put<V>(a: Assoc<V>, k: string, v: V): Assoc<V> {
    var i := KeyIndex(a, k);
    if i < 0 then a + [(k, v)] else a[i := (k, v)]
  }

  /** Writing a key stores its value, keeps every other key's value, keeps
      the keys distinct, and only a new key lengthens the array. */
  lemma PutLookup<V>(a: Assoc<V>, k: string, v: V, k': string)
    requires DistinctKeys(a)
    ensures DistinctKeys(Put(a, k, v))
    ensures Lookup(Put(a, k, v), k') == if k' == k then Some(v) else Lookup(a, k')
    ensures |Put(a, k, v)| == if HasKey(a, k) then |a| else |a| + 1
  {
    var r := Put(a, k, v);
    var i := KeyIndex(a, k);
    var j := KeyIndex(r, k');
    if k' == k {
      assert r[if i < 0 then |a| else i].0 == k;
    } else if j >= 0 {
      assert r[j] == a[j];
      assert HasKey(a, k');
    } else {
      forall m | 0 <= m < |a|
        ensures a[m].0 != k'
      {
        assert r[m].0 != k';
        if m != i {
          assert r[m] == a[m];
        }
      }
    }
  }

  /** `array_merge($a, $b)` for string keys. */
  function Merge<V>(a: Assoc<V>, b: Assoc<V>): Assoc<V>
    decreases |b|
  {
    if b == [] then a else Merge(Put(a, b[0].0, b[0].1), b[1..])
  }

  /** A key of `b` takes `b`'s value, every other key keeps `a`'s. */
  lemma {:induction false} MergeLookup<V>(a: Assoc<V>, b: Assoc<V>, k: string)
    requires DistinctKeys(a) && DistinctKeys(b)
    ensures DistinctKeys(Merge(a, b))
    ensures Lookup(Merge(a, b), k) == if HasKey(b, k) then Lookup(b, k) else Lookup(a, k)
    decreases |b|
  {
    if b != [] {
      var a' := Put(a, b[0].0, b[0].1);
      PutLookup(a, b[0].0, b[0].1, k);
      assert DistinctKeys(b[1..]);
      MergeLookup(a', b[1..], k);
      var i := KeyIndex(b, k);
      if i > 0 {
        assert b[1..][i - 1].0 == k;
        assert KeyIndex(b[1..], k) == i - 1;
      } else if i < 0 {
        assert !HasKey(b[1..], k) by {
          forall m | 0 <= m < |b[1..]|
            ensures b[1..][m].0 != k
          {
            assert b[1..][m] == b[m + 1];
          }
        }
      } else {
        assert !HasKey(b[1..], k) by {
          forall m | 0 <= m < |b[1..]|
            ensures b[1..][m].0 != k
          {
            assert b[1..][m] == b[m + 1];
          }
        }
      }
    }
  }

  /** `unset($a[$k])`: drops the entry, keeping the order of the rest. */
  function Unset<V>(a: Assoc<V>, k: string): (r: Assoc<V>)
    ensures forall i :: 0 <= i < |r| ==> r[i] in a && r[i].0 != k
    ensures forall i :: 0 <= i < |a| && a[i].0 != k ==> a[i] in r
    ensures |r| <= |a|
  {
    if a == [] then []
    else (if a[0].0 == k then [] else [a[0]]) + Unset(a[1..], k)
  }

  /** After `unset` the key is gone, the other keys keep their values and
      the keys stay distinct. */
  lemma UnsetLookup<V>(a: Assoc<V>, k: string, k': string)
    requires DistinctKeys(a)
    ensures DistinctKeys(Unset(a, k))
    ensures HasKey(Unset(a, k), k') <==> HasKey(a, k') && k' != k
    ensures Lookup(Unset(a, k), k') == if k' == k then None else Lookup(a, k')
  {
    var r := Unset(a, k);
    UnsetIsSubsequence(a, k);
    if HasKey(r, k') {
      var i :| 0 <= i < |r| && r[i].0 == k';
      assert r[i] in a;
    }
    if HasKey(a, k') && k' != k {
      var i :| 0 <= i < |a| && a[i].0 == k';
      assert a[i] in r;
    }
    if k' != k && HasKey(a, k') {
      var i := KeyIndex(r, k');
      var j := KeyIndex(a, k');
      assert r[i] in a;
      assert a[j] in r;
    }
  }

  /** The entries `unset` keeps appear in their original order. */
  lemma {:induction false} UnsetIsSubsequence<V>(a: Assoc<V>, k: string)
    requires DistinctKeys(a)
    ensures DistinctKeys(Unset(a, k))
  {
    if a != [] {
      assert DistinctKeys(a[1..]) by {
        forall i, j | 0 <= i < j < |a[1..]|
          ensures a[1..][i].0 != a[1..][j].0
        {
          assert a[1..][i] == a[i + 1] && a[1..][j] == a[j + 1];
        }
      }
      UnsetIsSubsequence(a[1..], k);
      var rest := Unset(a[1..], k);
      forall i | 0 <= i < |rest|
        ensures rest[i].0 != a[0].0
      {
        var m :| 0 <= m < |a[1..]| && a[1..][m] == rest[i];
        assert a[m + 1] == rest[i];
      }
    }
  }

  /** Looking a key up in a concatenation finds it in the first part when
      it is there, and in the second part otherwise. */
  lemma {:induction false} LookupConcat<V>(a: Assoc<V>, b: Assoc<V>, k: string)
    ensures HasKey(a + b, k) <==> HasKey(a, k) || HasKey(b, k)
    ensures Lookup(a + b, k) == if HasKey(a, k) then Lookup(a, k) else Lookup(b, k)
  {
    if a != [] {
      LookupConcat(a[1..], b, k);
      var ab := a + b;
      assert ab[1..] == a[1..] + b;
      if a[0].0 != k {
        KeyTail(a, k);
        KeyTail(ab, k);
      } else {
        assert ab[0].0 == k;
      }
    } else {
      assert a + b == b;
    }
  }

  /** Past a first entry with another key, looking up `k` goes on in the
      rest. */
  lemma KeyTail<V>(a: Assoc<V>, k: string)
    requires a != [] && a[0].0 != k
    ensures HasKey(a, k) <==> HasKey(a[1..], k)
    ensures Lookup(a, k) == Lookup(a[1..], k)
  {
    if HasKey(a, k) {
      var m :| 0 <= m < |a| && a[m].0 == k;
      assert a[1..][m - 1].0 == k;
    }
  }
}
