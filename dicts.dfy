/** Python dicts with string keys, which remember insertion order: the keys
    in order next to the mapping they index. Assigning to an existing key
    keeps its place; a new key goes to the end. */
module Dicts {
  import opened Basics

  datatype Dict<V> = Dict(keys: seq<string>, vals: map<string, V>) {
    /** Every key is listed exactly once. */
    predicate Valid() {
      Distinct(keys) && Elems(keys) == vals.Keys
    }
  }

  function Empty<V>(): (d: Dict<V>)
    ensures d.Valid() && d.vals == map[] && d.keys == []
  {
    Dict([], map[])
  }

  /** `d[k] = v`. */
  function Put<V>(d: Dict<V>, k: string, v: V): (r: Dict<V>)
    requires d.Valid()
    ensures r.Valid()
    ensures r.vals == d.vals[k := v]
    ensures r.keys == if k in d.vals then d.keys else d.keys + [k]
  {
    if k in d.vals then
      Dict(d.keys, d.vals[k := v])
    else
      var r := Dict(d.keys + [k], d.vals[k := v]);
      assert Elems(r.keys) == Elems(d.keys) + {k};
      r
  }

  /** The keys of `entries` that are not in `seen`, each once, in the order
      of their first entries. */
  function NewKeys<V>(seen: seq<string>, entries: seq<(string, V)>): seq<string>
    decreases |entries|
  {
    if entries == [] then []
    else if entries[0].0 in seen then NewKeys(seen, entries[1..])
    else [entries[0].0] + NewKeys(seen + [entries[0].0], entries[1..])
  }

  /** `d.update(entries)`: each entry is assigned in turn. The old keys keep
      their places and the new ones follow in the order they first appear. */
  function Update<V>(d: Dict<V>, entries: seq<(string, V)>): (r: Dict<V>)
    requires d.Valid()
    ensures r.Valid()
    ensures r.keys == d.keys + NewKeys(d.keys, entries)
    decreases |entries|
  {
    if entries == [] then d
    else
      var k := entries[0].0;
      assert k in d.vals <==> k in d.keys by { assert k in d.keys <==> k in Elems(d.keys); }
      var r := Update(Put(d, k, entries[0].1), entries[1..]);
      r
  }

  /** Where the first entry for `x` is, or `|entries|` when there is none. */
  function FirstIndex<V>(entries: seq<(string, V)>, x: string): (r: nat)
    ensures r <= |entries|
    ensures r < |entries| ==> entries[r].0 == x
    ensures forall i :: 0 <= i < r ==> entries[i].0 != x
    decreases |entries|
  {
    if entries == [] then 0
    else if entries[0].0 == x then 0
    else 1 + FirstIndex(entries[1..], x)
  }

  /** The new keys are listed in the order of their first entries, none of
      them was seen before, and each has an entry. */
  lemma {:induction false} NewKeysOrder<V>(seen: seq<string>, entries: seq<(string, V)>)
    ensures forall x :: x in NewKeys(seen, entries) ==> x !in seen && FirstIndex(entries, x) < |entries|
    ensures forall i, j :: 0 <= i < j < |NewKeys(seen, entries)| ==>
      FirstIndex(entries, NewKeys(seen, entries)[i]) < FirstIndex(entries, NewKeys(seen, entries)[j])
    decreases |entries|
  {
    if entries != [] {
      var k, rest := entries[0].0, entries[1..];
      if k in seen {
        NewKeysOrder(seen, rest);
        forall x | x in NewKeys(seen, rest) ensures FirstIndex(entries, x) == 1 + FirstIndex(rest, x) {
          assert x != k;
        }
      } else {
        var tail := NewKeys(seen + [k], rest);
        NewKeysOrder(seen + [k], rest);
        assert NewKeys(seen, entries) == [k] + tail;
        forall x | x in tail ensures x != k && FirstIndex(entries, x) == 1 + FirstIndex(rest, x) {
          assert x !in seen + [k];
        }
        forall i, j | 0 <= i < j < |[k] + tail|
          ensures FirstIndex(entries, ([k] + tail)[i]) < FirstIndex(entries, ([k] + tail)[j])
        {
          assert ([k] + tail)[j] == tail[j - 1];
          if i > 0 { assert ([k] + tail)[i] == tail[i - 1]; }
        }
      }
    }
  }

  /** New keys of two runs of entries, one after the other. */
  lemma {:induction false} NewKeysAppend<V>(seen: seq<string>, a: seq<(string, V)>, b: seq<(string, V)>)
    ensures NewKeys(seen, a + b) == NewKeys(seen, a) + NewKeys(seen + NewKeys(seen, a), b)
    decreases |a|
  {
    if a == [] {
      assert a + b == b;
      assert seen + [] == seen;
    } else {
      var k := a[0].0;
      assert (a + b)[0] == a[0] && (a + b)[1..] == a[1..] + b;
      if k in seen {
        NewKeysAppend(seen, a[1..], b);
      } else {
        NewKeysAppend(seen + [k], a[1..], b);
        assert seen + [k] + NewKeys(seen + [k], a[1..]) == seen + ([k] + NewKeys(seen + [k], a[1..]));
      }
    }
  }

  /** The keys of a list of entries. */
  function EntryKeys<V>(entries: seq<(string, V)>): set<string> {
    set i | 0 <= i < |entries| :: entries[i].0
  }

  /** The value of the last entry for `k`, if there is one. */
  function LastValue<V>(entries: seq<(string, V)>, k: string): (r: Option<V>)
    decreases |entries|
  {
    if entries == [] then None
    else if entries[|entries| - 1].0 == k then Some(entries[|entries| - 1].1)
    else LastValue(entries[..|entries| - 1], k)
  }

  /** There is a last entry for `k` exactly when some entry has key `k`. */
  lemma {:induction false} LastValueFound<V>(entries: seq<(string, V)>, k: string)
    ensures LastValue(entries, k).Some? <==> k in EntryKeys(entries)
    decreases |entries|
  {
    if entries != [] {
      var init := entries[..|entries| - 1];
      LastValueFound(init, k);
      assert EntryKeys(entries) == EntryKeys(init) + {entries[|entries| - 1].0} by {
        forall x | x in EntryKeys(entries) ensures x in EntryKeys(init) + {entries[|entries| - 1].0} {
          var i :| 0 <= i < |entries| && entries[i].0 == x;
          if i < |entries| - 1 { assert init[i] == entries[i]; }
        }
        forall x | x in EntryKeys(init) ensures x in EntryKeys(entries) {
          var i :| 0 <= i < |init| && init[i].0 == x;
          assert entries[i] == init[i];
        }
      }
    }
  }

  /** Looking up the last entry, seen from the front: the rest of the list
      decides unless it has no entry for `k`. */
  lemma {:induction false} LastValueCons<V>(entries: seq<(string, V)>, k: string)
    requires entries != []
    ensures LastValue(entries, k) ==
      match LastValue(entries[1..], k)
      case Some(v) => Some(v)
      case None => if entries[0].0 == k then Some(entries[0].1) else None
    decreases |entries|
  {
    var n := |entries|;
    if n > 1 {
      var init := entries[..n - 1];
      assert init[1..] == entries[1..][..n - 2];
      assert entries[1..][n - 2] == entries[n - 1];
      if entries[n - 1].0 != k {
        LastValueCons(init, k);
        assert init[0] == entries[0];
      }
    }
  }

  /** What `d.update(entries)` holds: an entry's key gets the value of the
      last entry for it; every other key keeps the value it had. */
  lemma {:induction false} UpdateLookup<V>(d: Dict<V>, entries: seq<(string, V)>, k: string)
    requires d.Valid()
    ensures k in Update(d, entries).vals <==> k in d.vals || k in EntryKeys(entries)
    ensures LastValue(entries, k).Some? ==>
      k in Update(d, entries).vals && Update(d, entries).vals[k] == LastValue(entries, k).value
    ensures LastValue(entries, k).None? && k in d.vals ==>
      k in Update(d, entries).vals && Update(d, entries).vals[k] == d.vals[k]
    decreases |entries|
  {
    LastValueFound(entries, k);
    if entries != [] {
      var d' := Put(d, entries[0].0, entries[0].1);
      UpdateLookup(d', entries[1..], k);
      LastValueCons(entries, k);
      LastValueFound(entries[1..], k);
      assert EntryKeys(entries) == {entries[0].0} + EntryKeys(entries[1..]) by {
        forall x | x in EntryKeys(entries) ensures x in {entries[0].0} + EntryKeys(entries[1..]) {
          var i :| 0 <= i < |entries| && entries[i].0 == x;
          if i > 0 { assert entries[1..][i - 1] == entries[i]; }
        }
        forall x | x in EntryKeys(entries[1..]) ensures x in EntryKeys(entries) {
          var i :| 0 <= i < |entries[1..]| && entries[1..][i].0 == x;
          assert entries[i + 1] == entries[1..][i];
        }
      }
    }
  }

  /** The last entry for `k` is one of the entries. */
  lemma {:induction false} LastValueIsEntry<V>(entries: seq<(string, V)>, k: string)
    requires LastValue(entries, k).Some?
    ensures exists i :: 0 <= i < |entries| && entries[i] == (k, LastValue(entries, k).value)
    decreases |entries|
  {
    var n := |entries|;
    if entries[n - 1].0 != k {
      var init := entries[..n - 1];
      LastValueIsEntry(init, k);
      var i :| 0 <= i < |init| && init[i] == (k, LastValue(init, k).value);
      assert entries[i] == init[i];
    }
  }
}
