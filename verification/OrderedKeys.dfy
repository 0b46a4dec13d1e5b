/** Byte strings in lexicographic order, and tables ordered by such keys. */
module OrderedKeys {
  import opened Wrappers

  predicate Less(a: Bytes, b: Bytes)
    decreases |b|
  {
    b != [] && (a == [] || a[0] < b[0] || (a[0] == b[0] && Less(a[1..], b[1..])))
  }

  lemma {:induction false} LessIsTotalOrder(a: Bytes, b: Bytes)
    ensures Less(a, b) || Less(b, a) || a == b
    ensures !(Less(a, b) && Less(b, a)) && (a == b ==> !Less(a, b))
    decreases |b|
  {
    if a != [] && b != [] {
      LessIsTotalOrder(a[1..], b[1..]);
      if a[0] == b[0] && a[1..] == b[1..] {
        assert a == [a[0]] + a[1..];
      }
    }
  }

  lemma {:induction false} LessIsTransitive(a: Bytes, b: Bytes, c: Bytes)
    requires Less(a, b) && Less(b, c)
    ensures Less(a, c)
    decreases |c|
  {
    if a != [] && a[0] == b[0] && b[0] == c[0] {
      LessIsTransitive(a[1..], b[1..], c[1..]);
    }
  }

  /** No extension of `p` sorts before `p`. */
  lemma {:induction false} ExtensionNotLess(p: Bytes, a: Bytes)
    requires p <= a
    ensures !Less(a, p)
  {
    if p != [] {
      assert p[1..] <= a[1..];
      ExtensionNotLess(p[1..], a[1..]);
    }
  }

  /**
   * The keys that start with `p` form one block: whatever sorts at or after `p`
   * and before a key that starts with `p` starts with `p` itself.
   */
  lemma {:induction false} PrefixBlock(p: Bytes, a: Bytes, b: Bytes)
    requires !Less(a, p) && Less(a, b) && p <= b
    ensures p <= a
    decreases |p|
  {
    if p != [] {
      PrefixBlock(p[1..], a[1..], b[1..]);
      assert [p[0]] + p[1..] == p && [a[0]] + a[1..] == a;
    }
  }

  ghost predicate Ascending(keys: seq<Bytes>) {
    forall i, j :: 0 <= i < j < |keys| ==> Less(keys[i], keys[j])
  }

  /** A key-value table whose keys are kept in byte order. */
  datatype Table<V> = Table(keys: seq<Bytes>, rows: map<Bytes, V>) {
    ghost predicate Valid() {
      Ascending(keys) && forall k :: k in keys <==> k in rows
    }

    method Insert(k: Bytes, v: V) returns (t: Table<V>)
      requires Valid()
      ensures t.Valid() && t.rows == rows[k := v]
    {
      t := Table(if k in rows then keys else InsertKey(keys, k), rows[k := v]);
    }

    method Remove(k: Bytes) returns (t: Table<V>)
      requires Valid()
      ensures t.Valid() && t.rows == rows - {k}
    {
      t := Table(RemoveKey(keys, k), rows - {k});
    }
  }

  const EMPTY: Table<()> := Table([], map[])

  function InsertKey(keys: seq<Bytes>, k: Bytes): (r: seq<Bytes>)
    requires Ascending(keys) && k !in keys
    ensures Ascending(r) && forall x :: x in r <==> x in keys || x == k
  {
    if keys == [] then [k]
    else
      LessIsTotalOrder(keys[0], k);
      if Less(k, keys[0]) then
        assert forall i :: 0 <= i < |keys| ==> Less(k, keys[i]) by {
          forall i | 0 < i < |keys| ensures Less(k, keys[i]) {
            LessIsTransitive(k, keys[0], keys[i]);
          }
        }
        [k] + keys
      else
        var rest := InsertKey(keys[1..], k);
        assert forall x :: x in rest ==> Less(keys[0], x);
        [keys[0]] + rest
  }

  function RemoveKey(keys: seq<Bytes>, k: Bytes): (r: seq<Bytes>)
    requires Ascending(keys)
    ensures Ascending(r) && forall x :: x in r <==> x in keys && x != k
  {
    if keys == [] then []
    else
      LessIsTotalOrder(keys[0], k);
      assert forall i :: 0 < i < |keys| ==> keys[i] != keys[0] by {
        forall i | 0 < i < |keys| ensures keys[i] != keys[0] {
          LessIsTotalOrder(keys[0], keys[i]);
        }
      }
      if keys[0] == k then keys[1..]
      else
        var rest := RemoveKey(keys[1..], k);
        assert forall x :: x in rest ==> Less(keys[0], x);
        [keys[0]] + rest
  }

  /** Where a range starting at `from` begins. */
  function RangeStart(keys: seq<Bytes>, from: Bytes): (i: nat)
    ensures i <= |keys|
    ensures forall j :: 0 <= j < i ==> Less(keys[j], from)
    ensures i < |keys| ==> !Less(keys[i], from)
  {
    if keys == [] || !Less(keys[0], from) then 0 else 1 + RangeStart(keys[1..], from)
  }

  /** A scan from `p` that stops at the first key not starting with `p` has met every key that does. */
  lemma ScanIsComplete(keys: seq<Bytes>, p: Bytes, stop: nat)
    requires Ascending(keys)
    requires RangeStart(keys, p) <= stop <= |keys|
    requires stop < |keys| ==> !(p <= keys[stop])
    ensures forall j :: 0 <= j < |keys| && p <= keys[j] ==> RangeStart(keys, p) <= j < stop
  {
    forall j | 0 <= j < |keys| && p <= keys[j] ensures RangeStart(keys, p) <= j < stop {
      ExtensionNotLess(p, keys[j]);
      if stop <= j {
        RangeStaysAbove(keys, p, stop);
        if stop < j {
          PrefixBlock(p, keys[stop], keys[j]);
        }
      }
    }
  }

  lemma RangeStaysAbove(keys: seq<Bytes>, p: Bytes, i: nat)
    requires Ascending(keys) && RangeStart(keys, p) <= i < |keys|
    ensures !Less(keys[i], p)
  {
    var start := RangeStart(keys, p);
    if start < i && Less(keys[i], p) {
      LessIsTransitive(keys[start], keys[i], p);
    }
  }
}
