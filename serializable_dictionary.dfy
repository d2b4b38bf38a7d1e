/**
 * SerializableDictionary<TKey, TValue>: a dictionary stored as a list of key/value
 * entries, so that a serializer that only knows lists can store it. Lookups scan
 * the list and take the first entry whose key compares equal.
 */
module SerializableDictionaries {
  import opened Sequences

  datatype Entry<K, V> = Entry(key: K, value: V)

  function HasKey<K(==), V>(key: K): Entry<K, V> -> bool {
    (e: Entry<K, V>) => e.key == key
  }

  /** Some entry's key compares equal to key (ContainsKey). */
  predicate Contains<K(==), V>(data: seq<Entry<K, V>>, key: K) {
    exists i :: 0 <= i < |data| && data[i].key == key
  }

  /** GetIndex: the position of the first entry with that key, or -1. */
  function KeyIndex<K(==), V>(data: seq<Entry<K, V>>, key: K): (r: int)
    ensures -1 <= r < |data|
    ensures r == -1 <==> !Contains(data, key)
    ensures 0 <= r ==> data[r].key == key && forall j :: 0 <= j < r ==> data[j].key != key
  {
    FindIndex(data, HasKey(key))
  }

  /** GetValueForKey: the first matching entry's value, or the supplied default. */
  function Lookup<K(==), V>(data: seq<Entry<K, V>>, key: K, defaultValue: V): (r: V)
    ensures !Contains(data, key) ==> r == defaultValue
    ensures Contains(data, key) ==> exists i :: 0 <= i < |data| && data[i] == Entry(key, r) && forall j :: 0 <= j < i ==> data[j].key != key
  {
    var i := KeyIndex(data, key);
    if i >= 0 then data[i].value else defaultValue
  }

  /** Keys: the keys in storage order. */
  function KeysOf<K(==), V>(data: seq<Entry<K, V>>): (r: seq<K>)
    ensures |r| == |data| && forall i :: 0 <= i < |r| ==> r[i] == data[i].key
    ensures forall i :: 0 <= i < |r| ==> Contains(data, r[i])
    ensures UniqueKeys(data) ==> forall i, j :: 0 <= i < j < |r| ==> r[i] != r[j]
  {
    seq(|data|, i requires 0 <= i < |data| => data[i].key)
  }

  /**
   * The indexer setter: overwrites the value of the first entry with that key, in place,
   * or appends a new entry when there is none.
   */
  function Assign<K(==), V>(data: seq<Entry<K, V>>, key: K, value: V): (r: seq<Entry<K, V>>)
    ensures Contains(data, key) ==> |r| == |data| && r == data[KeyIndex(data, key) := Entry(key, value)]
    ensures !Contains(data, key) ==> r == data + [Entry(key, value)]
    ensures |data| <= |r| <= |data| + 1
  {
    var i := KeyIndex(data, key);
    if i >= 0 then data[i := Entry(key, value)] else data + [Entry(key, value)]
  }

  /** RemoveKey: every entry with that key is removed, the rest keep their order. */
  function Without<K(==), V>(data: seq<Entry<K, V>>, key: K): seq<Entry<K, V>> {
    RemoveWhere(data, HasKey(key))
  }

  /** No two entries share a key. */
  predicate UniqueKeys<K(==), V>(data: seq<Entry<K, V>>) {
    forall i, j :: 0 <= i < j < |data| ==> data[i].key != data[j].key
  }

  /** After this[k] = v, GetValueForKey(k) returns v. */
  lemma GetAfterSet<K, V>(data: seq<Entry<K, V>>, key: K, value: V, defaultValue: V)
    ensures Contains(Assign(data, key, value), key)
    ensures Lookup(Assign(data, key, value), key, defaultValue) == value
  {
    var r := Assign(data, key, value);
    var i := KeyIndex(data, key);
    if i >= 0 {
      assert r[i].key == key;
      assert KeyIndex(r, key) == i;
    } else {
      assert r[|data|].key == key;
      assert KeyIndex(r, key) == |data|;
    }
  }

  /** Setting one key leaves the value of every other key as it was. */
  lemma SetKeepsOthers<K, V>(data: seq<Entry<K, V>>, key: K, value: V, other: K, defaultValue: V)
    requires other != key
    ensures Contains(Assign(data, key, value), other) <==> Contains(data, other)
    ensures Lookup(Assign(data, key, value), other, defaultValue) == Lookup(data, other, defaultValue)
  {
    var r := Assign(data, key, value);
    assert forall j :: 0 <= j < |data| ==> (r[j].key == other <==> data[j].key == other);
    if Contains(data, other) {
      var k := KeyIndex(data, other);
      assert r[k] == data[k];
      assert KeyIndex(r, other) == k;
    }
  }

  /** A set or a remove keeps the keys unique. */
  lemma SetKeepsUnique<K, V>(data: seq<Entry<K, V>>, key: K, value: V)
    requires UniqueKeys(data)
    ensures UniqueKeys(Assign(data, key, value))
  {
  }

  lemma {:induction false} RemoveKeepsUnique<K, V>(data: seq<Entry<K, V>>, key: K)
    requires UniqueKeys(data)
    ensures UniqueKeys(Without(data, key))
    decreases |data|
  {
    if |data| > 0 {
      assert UniqueKeys(data[1..]) by {
        forall i, j | 0 <= i < j < |data[1..]| ensures data[1..][i].key != data[1..][j].key {
          assert data[1..][i] == data[i + 1] && data[1..][j] == data[j + 1];
        }
      }
      RemoveKeepsUnique(data[1..], key);
      var rest := Without(data[1..], key);
      if data[0].key != key {
        forall e | e in rest ensures e.key != data[0].key {
          RemoveWhereKeeps(data[1..], HasKey(key), e);
          var j :| 0 <= j < |data[1..]| && data[1..][j] == e;
          assert data[j + 1] == e;
        }
        var r := Without(data, key);
        assert r == [data[0]] + rest;
        forall i, j | 0 <= i < j < |r| ensures r[i].key != r[j].key {
          assert r[j] == rest[j - 1];
          if i > 0 {
            assert r[i] == rest[i - 1];
          } else {
            assert rest[j - 1] in rest;
          }
        }
      }
    }
  }

  /** After RemoveKey(k), ContainsKey(k) is false; every other key keeps its presence. */
  lemma RemoveRemoves<K, V>(data: seq<Entry<K, V>>, key: K, other: K)
    ensures !Contains(Without(data, key), key)
    ensures other != key ==> (Contains(Without(data, key), other) <==> Contains(data, other))
  {
    var r := Without(data, key);
    if other != key {
      if Contains(data, other) {
        var i :| 0 <= i < |data| && data[i].key == other;
        RemoveWhereKeeps(data, HasKey(key), data[i]);
        var j :| 0 <= j < |r| && r[j] == data[i];
      }
      if Contains(r, other) {
        var j :| 0 <= j < |r| && r[j].key == other;
        RemoveWhereKeeps(data, HasKey(key), r[j]);
        var i :| 0 <= i < |data| && data[i] == r[j];
      }
    }
  }

  class SerializableDictionary<K(==), V> {
    var data: seq<Entry<K, V>>

    constructor ()
      ensures data == []
    {
      data := [];
    }

    function Count(): nat
      reads this
    {
      |data|
    }

    /** The indexer getter: GetValueForKey with default(TValue), here given as zero. */
    function Get(key: K, zero: V): V
      reads this
    {
      Lookup(data, key, zero)
    }

    function GetValueForKey(key: K, defaultValue: V): V
      reads this
    {
      Lookup(data, key, defaultValue)
    }

    function ContainsKey(key: K): bool
      reads this
    {
      Contains(data, key)
    }

    function GetIndex(key: K): int
      reads this
    {
      KeyIndex(data, key)
    }

    function Keys(): seq<K>
      reads this
    {
      KeysOf(data)
    }

    /** The indexer setter. */
    method Set(key: K, value: V)
      modifies this
      ensures data == Assign(old(data), key, value)
      ensures old(UniqueKeys(data)) ==> UniqueKeys(data)
    {
      var i := KeyIndex(data, key);
      if i >= 0 {
        data := data[i := Entry(key, value)];
      } else {
        data := data + [Entry(key, value)];
      }
    }

    method RemoveKey(key: K)
      modifies this
      ensures data == Without(old(data), key)
      ensures !ContainsKey(key)
      ensures old(UniqueKeys(data)) ==> UniqueKeys(data)
    {
      if UniqueKeys(data) {
        RemoveKeepsUnique(data, key);
      }
      RemoveRemoves(data, key, key);
      data := Without(data, key);
    }
  }
}
