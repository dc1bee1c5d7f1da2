/**
 The canonical form of JSON values: every object's members sorted by key bytes, at any
 depth. Two values have the same canonical form exactly when they differ only in the
 order of object members.
 */
module CanonJson {
  import opened Words
  import opened KeyOrder

  /** An object is an insertion-ordered map. */
  datatype Value =
    | Null
    | Bool(b: bool)
    | Number(n: u64)
    | OtherNumber(text: Text)
    | Str(s: Text)
    | Arr(items: seq<Value>)
    | Obj(members: seq<Field>)

  type Field = Entry<Value>

  // ---------- canonical form ----------

  /** Every object at any depth has distinct keys, as a map does. */
  ghost predicate WellFormed(v: Value) {
    match v
    case Arr(items) => forall i :: 0 <= i < |items| ==> WellFormed(items[i])
    case Obj(ms) => Distinct(ms) && forall i :: 0 <= i < |ms| ==> WellFormed(ms[i].value)
    case _ => true
  }

  function Canon(v: Value): Value {
    match v
    case Arr(items) => Arr(CanonItems(items))
    case Obj(ms) => Obj(Sorted(CanonMembers(ms)))
    case _ => v
  }

  function CanonItems(items: seq<Value>): (r: seq<Value>)
    ensures |r| == |items| && forall i :: 0 <= i < |items| ==> r[i] == Canon(items[i])
  {
    if items == [] then [] else [Canon(items[0])] + CanonItems(items[1..])
  }

  function CanonMembers(ms: seq<Field>): (r: seq<Field>)
    ensures |r| == |ms| && forall i :: 0 <= i < |ms| ==> r[i] == Member(ms[i].key, Canon(ms[i].value))
  {
    if ms == [] then []
    else [Member(ms[0].key, Canon(ms[0].value))] + CanonMembers(ms[1..])
  }

  // ---------- the same value up to member order ----------

  ghost predicate HasKey(ms: seq<Field>, key: Text) { exists i :: 0 <= i < |ms| && ms[i].key == key }

  /** Same keys, in any order, with the same values; arrays keep their order. */
  ghost predicate Same(v: Value, w: Value)
    decreases v
  {
    match v
    case Arr(xs) =>
      w.Arr? && |xs| == |w.items| && forall i :: 0 <= i < |xs| ==> Same(xs[i], w.items[i])
    case Obj(ms) =>
      && w.Obj?
      && (forall i :: 0 <= i < |ms| ==> Paired(ms[i], w.members))
      && (forall j :: 0 <= j < |w.members| ==> HasKey(ms, w.members[j].key))
    case _ => v == w
  }

  ghost predicate Paired(m: Field, ns: seq<Field>)
    decreases m
  {
    exists j :: 0 <= j < |ns| && ns[j].key == m.key && Same(m.value, ns[j].value)
  }

  lemma CanonDistinct(ms: seq<Field>)
    requires Distinct(ms)
    ensures Distinct(CanonMembers(ms))
  {
  }

  /** The canonical form tells two values apart exactly when they differ in more than member order. */
  lemma {:induction false} CanonIff(v: Value, w: Value)
    requires WellFormed(v) && WellFormed(w)
    ensures Canon(v) == Canon(w) <==> Same(v, w)
    decreases v
  {
    match v
    case Arr(xs) =>
      if w.Arr? && |xs| == |w.items| {
        forall i | 0 <= i < |xs|
          ensures Canon(xs[i]) == Canon(w.items[i]) <==> Same(xs[i], w.items[i])
        {
          CanonIff(xs[i], w.items[i]);
        }
      }
    case Obj(ms) =>
      if w.Obj? {
        forall i, j | 0 <= i < |ms| && 0 <= j < |w.members| ensures Told(ms[i].value, w.members[j].value) {
          CanonIff(ms[i].value, w.members[j].value);
        }
        ObjectsIff(ms, w.members);
        SameObjects(ms, w.members);
      }
    case _ =>
  }

  ghost predicate PairedObjects(ms: seq<Field>, ns: seq<Field>) {
    && (forall i :: 0 <= i < |ms| ==> Paired(ms[i], ns))
    && (forall j :: 0 <= j < |ns| ==> HasKey(ms, ns[j].key))
  }

  lemma SameObjects(ms: seq<Field>, ns: seq<Field>)
    ensures Same(Obj(ms), Obj(ns)) <==> PairedObjects(ms, ns)
  {
  }

  ghost predicate Told(v: Value, w: Value) { Canon(v) == Canon(w) <==> Same(v, w) }

  lemma ObjectsIff(ms: seq<Field>, ns: seq<Field>)
    requires Distinct(ms) && Distinct(ns)
    requires forall i, j :: 0 <= i < |ms| && 0 <= j < |ns| ==> Told(ms[i].value, ns[j].value)
    ensures Sorted(CanonMembers(ms)) == Sorted(CanonMembers(ns)) <==> PairedObjects(ms, ns)
  {
    hide Sorted, Told, Same, Canon, PairedObjects, CanonMembers;
    var cm, cn := CanonMembers(ms), CanonMembers(ns);
    SortKeeps(cm);
    SortKeeps(cn);
    if Sorted(cm) == Sorted(cn) {
      assert forall x :: x in cm <==> x in cn;
      ElementsGiveSame(ms, ns);
    }
    if PairedObjects(ms, ns) {
      SameGivesElements(ms, ns);
      SortIncreasing(cm);
      SortIncreasing(cn);
      IncreasingUnique(Sorted(cm), Sorted(cn));
    }
  }

  lemma ElementsGiveSame(ms: seq<Field>, ns: seq<Field>)
    requires forall x :: x in CanonMembers(ms) <==> x in CanonMembers(ns)
    requires forall i, j :: 0 <= i < |ms| && 0 <= j < |ns| ==> Told(ms[i].value, ns[j].value)
    ensures PairedObjects(ms, ns)
  {
    hide Canon, CanonMembers, Same;
    forall i | 0 <= i < |ms| ensures Paired(ms[i], ns) {
      var j := ElementMatch(ms, ns, i);
      assert Told(ms[i].value, ns[j].value);
    }
    forall j | 0 <= j < |ns| ensures HasKey(ms, ns[j].key) {
      var i := ElementMatch(ns, ms, j);
      assert ms[i].key == ns[j].key;
    }
  }

  lemma ElementMatch(ms: seq<Field>, ns: seq<Field>, i: nat) returns (j: nat)
    requires i < |ms| && forall x :: x in CanonMembers(ms) <==> x in CanonMembers(ns)
    ensures j < |ns| && ns[j].key == ms[i].key && Canon(ns[j].value) == Canon(ms[i].value)
  {
    hide Canon, CanonMembers;
    var cm, cn := CanonMembers(ms), CanonMembers(ns);
    assert cm[i] in cm;
    j :| 0 <= j < |cn| && cn[j] == cm[i];
  }

  lemma SameGivesElements(ms: seq<Field>, ns: seq<Field>)
    requires Distinct(ns) && PairedObjects(ms, ns)
    requires forall i, j :: 0 <= i < |ms| && 0 <= j < |ns| ==> Told(ms[i].value, ns[j].value)
    ensures forall x :: x in CanonMembers(ms) <==> x in CanonMembers(ns)
  {
    hide Canon, CanonMembers, Same;
    var cm, cn := CanonMembers(ms), CanonMembers(ns);
    forall i | 0 <= i < |ms| ensures cm[i] in cn {
      var j := PairOf(ms, ns, i);
      assert cn[j] == cm[i];
    }
    forall j | 0 <= j < |ns| ensures cn[j] in cm {
      assert HasKey(ms, ns[j].key);
      var i :| 0 <= i < |ms| && ms[i].key == ns[j].key;
      var k := PairOf(ms, ns, i);
      assert k == j;
      assert cm[i] == cn[j];
    }
  }

  lemma PairOf(ms: seq<Field>, ns: seq<Field>, i: nat) returns (j: nat)
    requires i < |ms| && Paired(ms[i], ns)
    requires forall i, j :: 0 <= i < |ms| && 0 <= j < |ns| ==> Told(ms[i].value, ns[j].value)
    ensures j < |ns| && ns[j].key == ms[i].key && Canon(ns[j].value) == Canon(ms[i].value)
  {
    hide Canon, Same;
    j :| 0 <= j < |ns| && ns[j].key == ms[i].key && Same(ms[i].value, ns[j].value);
    assert Told(ms[i].value, ns[j].value);
  }

  // ---------- what the canonical form looks like ----------

  /** In every object at any depth the keys are in byte order. */
  ghost predicate AllSorted(v: Value) {
    match v
    case Arr(items) => forall i :: 0 <= i < |items| ==> AllSorted(items[i])
    case Obj(ms) => ByteOrdered(ms) && forall i :: 0 <= i < |ms| ==> AllSorted(ms[i].value)
    case _ => true
  }

  /** The result is sorted at every depth and differs from the input only in member order. */
  lemma {:induction false} CanonSorted(v: Value)
    requires WellFormed(v)
    ensures AllSorted(Canon(v)) && WellFormed(Canon(v)) && Same(v, Canon(v))
  {
    match v
    case Arr(items) =>
      forall i | 0 <= i < |items|
        ensures AllSorted(Canon(items[i])) && WellFormed(Canon(items[i])) && Same(items[i], Canon(items[i]))
      {
        CanonSorted(items[i]);
      }
    case Obj(ms) =>
      forall i | 0 <= i < |ms|
        ensures AllSorted(Canon(ms[i].value)) && WellFormed(Canon(ms[i].value)) && Same(ms[i].value, Canon(ms[i].value))
      {
        CanonSorted(ms[i].value);
      }
      CanonObject(ms);
    case _ =>
  }

  lemma CanonObject(ms: seq<Field>)
    requires Distinct(ms)
    requires forall i :: 0 <= i < |ms| ==>
      AllSorted(Canon(ms[i].value)) && WellFormed(Canon(ms[i].value)) && Same(ms[i].value, Canon(ms[i].value))
    ensures AllSorted(Canon(Obj(ms))) && WellFormed(Canon(Obj(ms))) && Same(Obj(ms), Canon(Obj(ms)))
  {
    hide Sorted, Less, Precedes;
    var cm := CanonMembers(ms);
    var r := Sorted(cm);
    SortKeeps(cm);
    SortIncreasing(cm);
    IncreasingIff(r);
    forall k | 0 <= k < |r| ensures AllSorted(r[k].value) && WellFormed(r[k].value) && HasKey(ms, r[k].key) {
      assert r[k] in cm;
      var i :| 0 <= i < |cm| && cm[i] == r[k];
      assert ms[i].key == r[k].key;
    }
    forall i | 0 <= i < |ms|
      ensures Paired(ms[i], r)
    {
      assert cm[i] in cm;
      var j :| 0 <= j < |r| && r[j] == cm[i];
    }
    IncreasingDistinct(r);
  }

  /** The canonical values are exactly the sorted ones; so canonicalising twice changes nothing. */
  lemma {:induction false} CanonFixed(v: Value)
    requires WellFormed(v)
    ensures Canon(v) == v <==> AllSorted(v)
    ensures Canon(Canon(v)) == Canon(v)
  {
    CanonSorted(v);
    if AllSorted(v) { SortedIsFixed(v); }
    SortedIsFixed(Canon(v));
  }

  lemma {:induction false} SortedIsFixed(v: Value)
    requires AllSorted(v)
    ensures Canon(v) == v
  {
    match v
    case Arr(items) =>
      forall i | 0 <= i < |items| ensures Canon(items[i]) == items[i] { SortedIsFixed(items[i]); }
      assert CanonItems(items) == items;
    case Obj(ms) =>
      forall i | 0 <= i < |ms| ensures Canon(ms[i].value) == ms[i].value { SortedIsFixed(ms[i].value); }
      assert CanonMembers(ms) == ms;
      IncreasingIff(ms);
      SortSorted(ms);
    case _ =>
  }

  // ---------- the code ----------

  /** Map insertion: a known key keeps its place, a new one goes last. */
  function Put(ms: seq<Field>, m: Field): seq<Field> {
    if ms == [] then [m]
    else if ms[0].key == m.key then [m] + ms[1..]
    else [ms[0]] + Put(ms[1..], m)
  }

  lemma {:induction false} PutNewKey(ms: seq<Field>, m: Field)
    requires !HasKey(ms, m.key)
    ensures Put(ms, m) == ms + [m]
  {
    if ms != [] {
      assert HasKey(ms, ms[0].key);
      forall i | 0 <= i < |ms[1..]| ensures ms[1..][i].key != m.key {
        assert ms[i + 1].key == ms[1..][i].key;
      }
      PutNewKey(ms[1..], m);
      assert ms + [m] == [ms[0]] + (ms[1..] + [m]);
    }
  }

  /** Sorting looks at keys only, so it may come before the values are canonicalised. */
  lemma {:induction false} SortCommutes(ms: seq<Field>)
    ensures Sorted(CanonMembers(ms)) == CanonMembers(Sorted(ms))
  {
    if ms != [] {
      SortCommutes(ms[1..]);
      InsertCommutes(ms[0], Sorted(ms[1..]));
      assert CanonMembers(ms)[1..] == CanonMembers(ms[1..]);
    }
  }

  lemma {:induction false} InsertCommutes(m: Field, ms: seq<Field>)
    ensures InsertSorted(Member(m.key, Canon(m.value)), CanonMembers(ms)) == CanonMembers(InsertSorted(m, ms))
  {
    hide Less;
    var r := InsertSorted(m, ms);
    var cm := Member(m.key, Canon(m.value));
    if ms == [] || !Less(ms[0].key, m.key) {
      assert CanonMembers([m] + ms) == [cm] + CanonMembers(ms);
    } else {
      InsertCommutes(m, ms[1..]);
      assert CanonMembers(ms)[1..] == CanonMembers(ms[1..]);
      assert r[1..] == InsertSorted(m, ms[1..]);
    }
  }

  lemma EarlierKeys(ms: seq<Field>, i: nat)
    requires Distinct(ms) && i < |ms|
    ensures !HasKey(ms[..i], ms[i].key)
  {
  }

  method CanonValue(v: Value) returns (r: Value)
    requires WellFormed(v)
    ensures r == Canon(v)
  {
    hide Sorted, CanonMembers, CanonItems, Put, Increasing, HasKey;
    match v
    case Arr(items) =>
      var out: seq<Value> := [];
      for i := 0 to |items|
        invariant out == CanonItems(items)[..i]
      {
        var x := CanonValue(items[i]);
        out := out + [x];
      }
      r := Arr(out);
    case Obj(ms) =>
      var entries := Sorted(ms);
      SortKeeps(ms);
      SortIncreasing(ms);
      IncreasingDistinct(entries);
      CanonDistinct(entries);
      ghost var goal := CanonMembers(entries);
      for i := 0 to |entries|
        invariant |entries| == |goal| && entries[..i] == goal[..i] && entries[i..] == Sorted(ms)[i..]
      {
        assert entries[i] == Sorted(ms)[i] && entries[i] in ms;
        var x := CanonValue(entries[i].value);
        entries := entries[i := Member(entries[i].key, x)];
      }
      assert entries == goal;
      var map_: seq<Field> := [];
      for i := 0 to |entries|
        invariant map_ == entries[..i]
      {
        EarlierKeys(entries, i);
        PutNewKey(map_, entries[i]);
        map_ := Put(map_, entries[i]);
      }
      SortCommutes(ms);
      r := Obj(map_);
    case _ => r := v;
  }
}
