/**
 Byte order on string keys and the stable sort of keyed entries.
 */
module KeyOrder {
  import opened Words

  type Text = seq<byte>

  datatype Entry<V> = Member(key: Text, value: V)

  // ---------- key order ----------

  /** Byte order on keys. */
  predicate Less(a: Text, b: Text) {
    if b == [] then false
    else if a == [] then true
    else if a[0] != b[0] then a[0] < b[0]
    else Less(a[1..], b[1..])
  }

  lemma {:induction false} LessIrreflexive(a: Text)
    ensures !Less(a, a)
  {
    if a != [] { LessIrreflexive(a[1..]); }
  }

  lemma {:induction false} LessTotal(a: Text, b: Text)
    requires a != b
    ensures Less(a, b) || Less(b, a)
  {
    if a != [] && b != [] && a[0] == b[0] {
      assert a == [a[0]] + a[1..] && b == [b[0]] + b[1..];
      LessTotal(a[1..], b[1..]);
    }
  }

  lemma {:induction false} LessTransitive(a: Text, b: Text, c: Text)
    requires Less(a, b) && Less(b, c)
    ensures Less(a, c)
  {
    if a != [] && a[0] == b[0] == c[0] { LessTransitive(a[1..], b[1..], c[1..]); }
  }

  /** The keys agree on their first k bytes, and then a ends or has the smaller byte. */
  ghost predicate ComesFirst(a: Text, b: Text, k: nat) {
    && k <= |a| && k < |b| && a[..k] == b[..k]
    && (k == |a| || a[k] < b[k])
  }

  ghost predicate Precedes(a: Text, b: Text) { exists k: nat :: ComesFirst(a, b, k) }

  /** The order is that of the first differing byte, a proper prefix first. */
  lemma {:induction false} LessIff(a: Text, b: Text)
    ensures Less(a, b) <==> Precedes(a, b)
    decreases |a|
  {
    if b == [] {
    } else if a == [] {
      assert ComesFirst(a, b, 0);
    } else if a[0] != b[0] {
      assert ComesFirst(a, b, 0) <==> a[0] < b[0];
      assert forall k: nat :: 0 < k <= |a| && k <= |b| ==> a[..k][0] == a[0] && b[..k][0] == b[0];
    } else {
      LessIff(a[1..], b[1..]);
      if Less(a[1..], b[1..]) {
        var k: nat :| ComesFirst(a[1..], b[1..], k);
        assert a[..k + 1] == [a[0]] + a[1..][..k] && b[..k + 1] == [b[0]] + b[1..][..k];
        assert ComesFirst(a, b, k + 1);
      }
      forall k: nat | ComesFirst(a, b, k) ensures k > 0 && ComesFirst(a[1..], b[1..], k - 1) {
        if k > 0 { assert a[1..][..k - 1] == a[..k][1..] && b[1..][..k - 1] == b[..k][1..]; }
      }
    }
  }

  // ---------- sorting entries ----------

  ghost predicate Distinct<V>(ms: seq<Entry<V>>) {
    forall i, j :: 0 <= i < j < |ms| ==> ms[i].key != ms[j].key
  }

  ghost predicate Increasing<V>(ms: seq<Entry<V>>) {
    forall i, j :: 0 <= i < j < |ms| ==> Less(ms[i].key, ms[j].key)
  }

  /** Every earlier key comes first in byte order. */
  ghost predicate ByteOrdered<V>(ms: seq<Entry<V>>) {
    forall i, j :: 0 <= i < j < |ms| ==> Precedes(ms[i].key, ms[j].key)
  }

  lemma IncreasingIff<V>(ms: seq<Entry<V>>)
    ensures Increasing(ms) <==> ByteOrdered(ms)
  {
    hide Less, Precedes;
    forall i, j | 0 <= i < j < |ms| ensures Less(ms[i].key, ms[j].key) <==> Precedes(ms[i].key, ms[j].key) {
      LessIff(ms[i].key, ms[j].key);
    }
  }

  function InsertSorted<V>(m: Entry<V>, ms: seq<Entry<V>>): seq<Entry<V>> {
    if ms == [] || !Less(ms[0].key, m.key) then [m] + ms
    else [ms[0]] + InsertSorted(m, ms[1..])
  }

  /** The stable sort by key. */
  function Sorted<V>(ms: seq<Entry<V>>): seq<Entry<V>> {
    if ms == [] then [] else InsertSorted(ms[0], Sorted(ms[1..]))
  }

  lemma {:induction false} InsertKeeps<V>(m: Entry<V>, ms: seq<Entry<V>>)
    ensures forall x :: x in InsertSorted(m, ms) <==> x == m || x in ms
    ensures forall i :: 0 <= i < |InsertSorted(m, ms)| ==> InsertSorted(m, ms)[i] == m || InsertSorted(m, ms)[i] in ms
    ensures |InsertSorted(m, ms)| == |ms| + 1
  {
    if ms != [] && Less(ms[0].key, m.key) {
      InsertKeeps(m, ms[1..]);
      assert ms == [ms[0]] + ms[1..];
    }
  }

  lemma {:induction false} SortKeeps<V>(ms: seq<Entry<V>>)
    ensures forall x :: x in Sorted(ms) <==> x in ms
    ensures |Sorted(ms)| == |ms|
    ensures forall i :: 0 <= i < |ms| ==> Sorted(ms)[i] in ms
  {
    if ms != [] {
      SortKeeps(ms[1..]);
      InsertKeeps(ms[0], Sorted(ms[1..]));
      assert ms == [ms[0]] + ms[1..];
    }
  }

  lemma {:induction false} InsertIncreasing<V>(m: Entry<V>, ms: seq<Entry<V>>)
    requires Increasing(ms) && forall i :: 0 <= i < |ms| ==> ms[i].key != m.key
    ensures Increasing(InsertSorted(m, ms))
  {
    hide Less;
    if ms != [] {
      LessTotal(m.key, ms[0].key);
      if !Less(ms[0].key, m.key) {
        forall j | 0 < j < |ms| ensures Less(m.key, ms[j].key) { LessTransitive(m.key, ms[0].key, ms[j].key); }
      } else {
        InsertIncreasing(m, ms[1..]);
        InsertKeeps(m, ms[1..]);
        var tail := InsertSorted(m, ms[1..]);
        forall j | 0 <= j < |tail| ensures Less(ms[0].key, tail[j].key) {
          assert tail[j] == m || tail[j] in ms[1..];
        }
      }
    }
  }

  lemma {:induction false} SortIncreasing<V>(ms: seq<Entry<V>>)
    requires Distinct(ms)
    ensures Increasing(Sorted(ms))
  {
    if ms != [] {
      SortIncreasing(ms[1..]);
      SortKeeps(ms[1..]);
      InsertIncreasing(ms[0], Sorted(ms[1..]));
    }
  }

  /** An increasing sequence is fixed by its elements. */
  lemma {:induction false} IncreasingUnique<V>(a: seq<Entry<V>>, b: seq<Entry<V>>)
    requires Increasing(a) && Increasing(b)
    requires forall x :: x in a <==> x in b
    ensures a == b
  {
    hide Less;
    NoneOnlyWithNone(a, b);
    NoneOnlyWithNone(b, a);
    if a != [] && b != [] {
      SameFirst(a, b);
      forall x ensures x in a[1..] <==> x in b[1..] {
        RestOf(a, x);
        RestOf(b, x);
      }
      IncreasingUnique(a[1..], b[1..]);
      assert a == [a[0]] + a[1..] && b == [b[0]] + b[1..];
    }
  }

  lemma NoneOnlyWithNone<V>(a: seq<Entry<V>>, b: seq<Entry<V>>)
    requires forall x :: x in a <==> x in b
    ensures b == [] ==> a == []
  {
    if a != [] {
      var x := a[0];
      assert x in a;
    }
  }

  lemma RestOf<V>(a: seq<Entry<V>>, x: Entry<V>)
    requires a != [] && Increasing(a)
    ensures x in a[1..] <==> x in a && x != a[0]
  {
    LessIrreflexive(a[0].key);
    assert a == [a[0]] + a[1..];
  }

  lemma SameFirst<V>(a: seq<Entry<V>>, b: seq<Entry<V>>)
    requires a != [] && b != [] && Increasing(a) && Increasing(b)
    requires forall x :: x in a <==> x in b
    ensures a[0] == b[0]
  {
    hide Less;
    assert a[0] in b && b[0] in a;
    var i :| 0 <= i < |b| && b[i] == a[0];
    var j :| 0 <= j < |a| && a[j] == b[0];
    if i > 0 && j > 0 {
      LessTransitive(a[0].key, b[0].key, a[0].key);
      LessIrreflexive(a[0].key);
    }
  }

  lemma IncreasingDistinct<V>(ms: seq<Entry<V>>)
    requires Increasing(ms)
    ensures Distinct(ms)
  {
    hide Less;
    forall i, j | 0 <= i < j < |ms| ensures ms[i].key != ms[j].key { LessIrreflexive(ms[i].key); }
  }

  lemma {:induction false} SortSorted<V>(ms: seq<Entry<V>>)
    requires Increasing(ms)
    ensures Sorted(ms) == ms
  {
    if ms != [] {
      SortSorted(ms[1..]);
      assert ms == [ms[0]] + ms[1..];
      if |ms| > 1 && Less(ms[1].key, ms[0].key) {
        LessTransitive(ms[0].key, ms[1].key, ms[0].key);
        LessIrreflexive(ms[0].key);
      }
    }
  }
}
