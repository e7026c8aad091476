/** The attribute map of an entity: a tree map ordered by `DualKey.compareTo`. */
module AttributeMaps {
  import opened Bytes
  import opened AttributeValues

  /** `kind` is the key's type. */
  datatype DualKey = DualKey(num: int32, kind: int32)

  datatype Attribute = Attribute(num: int32, kind: int32, value: AttributeValue) {
    function Key(): DualKey {
      DualKey(num, kind)
    }
  }

  datatype Entry = Entry(key: DualKey, value: AttributeValue)

  function CompareTo(a: DualKey, b: DualKey): int32 {
    if a.kind == b.kind then Wrap32(a.num - b.num) else Wrap32(a.kind - b.kind)
  }

  /** The order `compareTo` is meant to compute. */
  predicate Precedes(a: DualKey, b: DualKey) {
    a.kind < b.kind || (a.kind == b.kind && a.num < b.num)
  }

  predicate FitsInt(x: int) {
    -0x8000_0000 <= x < 0x8000_0000
  }

  /** The difference `compareTo` forms does not overflow. */
  predicate Comparable(a: DualKey, b: DualKey) {
    FitsInt(if a.kind == b.kind then a.num - b.num else a.kind - b.kind)
  }

  lemma CompareToIsEquality(a: DualKey, b: DualKey)
    ensures CompareTo(a, b) == 0 <==> a == b
  {
  }

  /** `compareTo` has the sign of the intended order exactly when its difference fits an int. */
  lemma CompareToSign(a: DualKey, b: DualKey)
    ensures ((CompareTo(a, b) < 0 <==> Precedes(a, b)) && (CompareTo(a, b) > 0 <==> Precedes(b, a)))
       <==> Comparable(a, b)
  {
  }

  /** Outside that, it is not even antisymmetric. */
  lemma CompareToOverflows()
    ensures var a, b := DualKey(-0x8000_0000, 0), DualKey(0, 0);
      Precedes(a, b) && CompareTo(a, b) < 0 && CompareTo(b, a) < 0
  {
  }

  // ----- The tree map -----

  /** `TreeMap.put`, on the entries in key order. An equal key keeps its place and gets the value. */
  function Put(m: seq<Entry>, k: DualKey, v: AttributeValue): (r: seq<Entry>)
    ensures r != []
  {
    if m == [] then [Entry(k, v)]
    else if CompareTo(k, m[0].key) < 0 then [Entry(k, v)] + m
    else if CompareTo(k, m[0].key) == 0 then [Entry(m[0].key, v)] + m[1..]
    else [m[0]] + Put(m[1..], k, v)
  }

  function PutAll(m: seq<Entry>, attributes: seq<Attribute>): seq<Entry>
    decreases |attributes|
  {
    if attributes == [] then m
    else PutAll(Put(m, attributes[0].Key(), attributes[0].value), attributes[1..])
  }

  ghost predicate Sorted(m: seq<Entry>) {
    forall i, j :: 0 <= i < j < |m| ==> Precedes(m[i].key, m[j].key)
  }

  /** The entries as a mathematical map. */
  ghost function Content(m: seq<Entry>): map<DualKey, AttributeValue> {
    if m == [] then map[] else Content(m[1..])[m[0].key := m[0].value]
  }

  /** Later attributes override earlier ones. */
  ghost function LastWins(m: map<DualKey, AttributeValue>, attributes: seq<Attribute>): map<DualKey, AttributeValue>
    decreases |attributes|
  {
    if attributes == [] then m
    else LastWins(m[attributes[0].Key() := attributes[0].value], attributes[1..])
  }

  /** All keys in play may be compared with each other. */
  ghost predicate AllComparable(keys: set<DualKey>) {
    forall a, b :: a in keys && b in keys ==> Comparable(a, b)
  }

  ghost function KeysOf(attributes: seq<Attribute>): set<DualKey> {
    set a | a in attributes :: a.Key()
  }

  lemma {:induction false} ContentKeys(m: seq<Entry>)
    ensures forall k :: k in Content(m) <==> exists i :: 0 <= i < |m| && m[i].key == k
  {
    if m != [] {
      ContentKeys(m[1..]);
      forall k
        ensures k in Content(m) <==> exists i :: 0 <= i < |m| && m[i].key == k
      {
        if k in Content(m[1..]) {
          var i :| 0 <= i < |m[1..]| && m[1..][i].key == k;
          assert m[i + 1].key == k;
        }
        if i :| 0 <= i < |m| && m[i].key == k {
          if i > 0 {
            assert m[1..][i - 1].key == k;
          }
        }
      }
    }
  }

  /** An entry may be put in front of a sorted map when its key precedes all others. */
  lemma SortedInFront(e: Entry, m: seq<Entry>)
    requires Sorted(m) && forall j :: 0 <= j < |m| ==> Precedes(e.key, m[j].key)
    ensures Sorted([e] + m) && Content([e] + m) == Content(m)[e.key := e.value]
  {
    assert ([e] + m)[1..] == m;
  }

  lemma FirstPrecedes(m: seq<Entry>, k: DualKey)
    requires Sorted(m) && m != []
    requires k == m[0].key || Precedes(k, m[0].key)
    ensures forall j :: 0 < j < |m| ==> Precedes(k, m[j].key)
  {
    forall j | 0 < j < |m|
      ensures Precedes(k, m[j].key)
    {
      assert Precedes(m[0].key, m[j].key);
    }
  }

  lemma {:induction false} PutSorted(m: seq<Entry>, k: DualKey, v: AttributeValue)
    requires Sorted(m) && AllComparable(Content(m).Keys + {k})
    ensures Sorted(Put(m, k, v))
    ensures Content(Put(m, k, v)) == Content(m)[k := v]
    decreases |m|, 1
  {
    if m == [] {
      assert [Entry(k, v)][1..] == [];
    } else {
      var first, rest := m[0].key, m[1..];
      assert first in Content(m);
      CompareToSign(k, first);
      CompareToIsEquality(k, first);
      if CompareTo(k, first) < 0 {
        FirstPrecedes(m, k);
        SortedInFront(Entry(k, v), m);
      } else if CompareTo(k, first) == 0 {
        FirstPrecedes(m, k);
        SortedInFront(Entry(first, v), rest);
      } else {
        PutBehind(m, k, v);
      }
    }
  }

  lemma {:induction false} PutBehind(m: seq<Entry>, k: DualKey, v: AttributeValue)
    requires m != [] && Sorted(m) && AllComparable(Content(m).Keys + {k}) && Precedes(m[0].key, k)
    ensures Sorted([m[0]] + Put(m[1..], k, v))
    ensures Content([m[0]] + Put(m[1..], k, v)) == Content(m)[k := v]
    decreases |m|, 0
  {
    hide Put;
    hide Comparable;
    var rest := m[1..];
    assert Content(rest).Keys <= Content(m).Keys;
    PutSorted(rest, k, v);
    var r := Put(rest, k, v);
    KeysBehind(m[0].key, rest, r, k);
    SortedInFront(m[0], r);
  }

  lemma KeysBehind(first: DualKey, rest: seq<Entry>, r: seq<Entry>, k: DualKey)
    requires Precedes(first, k) && forall i :: 0 <= i < |rest| ==> Precedes(first, rest[i].key)
    requires Content(r).Keys == Content(rest).Keys + {k}
    ensures forall j :: 0 <= j < |r| ==> Precedes(first, r[j].key)
  {
    hide Precedes;
    ContentKeys(r);
    ContentKeys(rest);
    forall j | 0 <= j < |r|
      ensures Precedes(first, r[j].key)
    {
      assert r[j].key in Content(r).Keys;
      if r[j].key != k {
        assert r[j].key in Content(rest);
        var i :| 0 <= i < |rest| && rest[i].key == r[j].key;
      }
    }
  }

  /** Putting any attribute list into a map, on keys that may be compared, gives a sorted map
      without duplicates in which the last value for each key wins. */
  lemma {:induction false} PutAllLastWins(m: seq<Entry>, attributes: seq<Attribute>)
    requires Sorted(m) && AllComparable(Content(m).Keys + KeysOf(attributes))
    ensures Sorted(PutAll(m, attributes))
    ensures Content(PutAll(m, attributes)) == LastWins(Content(m), attributes)
    decreases |attributes|
  {
    if attributes != [] {
      var a, rest := attributes[0], attributes[1..];
      assert a.Key() in KeysOf(attributes);
      assert KeysOf(rest) <= KeysOf(attributes);
      PutSorted(m, a.Key(), a.value);
      PutAllLastWins(Put(m, a.Key(), a.value), rest);
    }
  }

  /** Which value wins: the one of the last attribute with the key. */
  lemma {:induction false} LastValueWins(m: map<DualKey, AttributeValue>, attributes: seq<Attribute>, i: nat)
    requires i < |attributes|
    requires forall j :: i < j < |attributes| ==> attributes[j].Key() != attributes[i].Key()
    ensures attributes[i].Key() in LastWins(m, attributes)
    ensures LastWins(m, attributes)[attributes[i].Key()] == attributes[i].value
    decreases |attributes|
  {
    var a, rest := attributes[0], attributes[1..];
    if i > 0 {
      LastValueWins(m[a.Key() := a.value], rest, i - 1);
    } else {
      forall b | b in rest
        ensures b.Key() != a.Key()
      {
        var j :| 0 <= j < |rest| && rest[j] == b;
        assert attributes[j + 1] == b;
      }
      OthersUntouched(m[a.Key() := a.value], rest, a.Key());
    }
  }

  lemma {:induction false} OthersUntouched(m: map<DualKey, AttributeValue>, attributes: seq<Attribute>, k: DualKey)
    requires k in m && forall b :: b in attributes ==> b.Key() != k
    ensures k in LastWins(m, attributes) && LastWins(m, attributes)[k] == m[k]
    decreases |attributes|
  {
    if attributes != [] {
      var a, rest := attributes[0], attributes[1..];
      assert a in attributes && forall b :: b in rest ==> b in attributes;
      OthersUntouched(m[a.Key() := a.value], rest, k);
    }
  }

  lemma ContentOfNothing(m: seq<Entry>)
    ensures Content(m) == map[] <==> m == []
  {
    if m != [] {
      assert m[0].key in Content(m);
    }
  }

  /** A sorted map is determined by its content. */
  lemma FirstKeysAgree(m: seq<Entry>, n: seq<Entry>)
    requires Sorted(m) && Sorted(n) && m != [] && n != [] && Content(m) == Content(n)
    ensures m[0] == n[0]
  {
    ContentKeys(m);
    ContentKeys(n);
    assert m[0].key in Content(n) && n[0].key in Content(m);
  }

  lemma ContentOfRest(m: seq<Entry>)
    requires Sorted(m) && m != []
    ensures Sorted(m[1..]) && Content(m[1..]) == Content(m) - {m[0].key}
  {
    var k, rest := m[0].key, Content(m[1..]);
    ContentKeys(m[1..]);
    assert k !in rest;
    hide Content;
    assert rest[k := m[0].value] - {k} == rest;
  }

  lemma {:induction false} SortedUnique(m: seq<Entry>, n: seq<Entry>)
    requires Sorted(m) && Sorted(n) && Content(m) == Content(n)
    ensures m == n
  {
    hide Content;
    hide Sorted;
    ContentOfNothing(m);
    ContentOfNothing(n);
    if m != [] && n != [] {
      FirstKeysAgree(m, n);
      ContentOfRest(m);
      ContentOfRest(n);
      SortedUnique(m[1..], n[1..]);
    }
  }
}
