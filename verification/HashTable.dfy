/**
  * The chained hash table of lib/nghttp2_map.c.  A bucket is a list of entries, the newest first; the
  * table doubles before it gets more than three quarters full.
  */
module HashTable {
  import opened Bytes

  type Key = x: int | -0x8000_0000 <= x < 0x8000_0000

  datatype Entry<V> = Entry(key: Key, value: V)

  datatype Option<V> = None | Some(value: V)

  const INITIAL_TABLE_LENGTH: nat := 256

  /** The bits of a key, mixed. */
  function Mix(key: Key): nat {
    var h := (if key < 0 then key + 0x1_0000_0000 else key) as bv32;
    var h := h ^ (h >> 20) ^ (h >> 12);
    var h := h ^ (h >> 7) ^ (h >> 4);
    h as nat
  }

  /** `hash`: the low bits of a mixed key, if `mod` is a power of two. */
  function Hash(key: Key, mod: nat): (r: nat)
    requires mod > 0
    ensures r < mod
  {
    BitAnd(Mix(key), mod - 1)
  }

  /** The mask leaves the remainder. */
  lemma HashMod(key: Key, mod: nat)
    requires IsPow2(mod)
    ensures mod > 0 && Hash(key, mod) == Mix(key) % mod
  {
    BitAndMask(Mix(key), mod);
  }

  /** In a table twice as long a key stays in its bucket or goes to the one as far above. */
  lemma HashDoubled(key: Key, mod: nat)
    requires IsPow2(mod) && mod > 0
    ensures Hash(key, 2 * mod) == Hash(key, mod) || Hash(key, 2 * mod) == Hash(key, mod) + mod
  {
    Pow2Twice(mod);
    HashMod(key, mod);
    HashMod(key, 2 * mod);
    TwiceMod(Mix(key), mod);
  }

  lemma TwiceMod(x: nat, d: nat)
    requires d > 0
    ensures x % (2 * d) == x % d || x % (2 * d) == x % d + d
  {
    var q, r := x / (2 * d), x % (2 * d);
    Decomposed(x, 2 * d);
    assert q * (2 * d) == (2 * q) * d;
    if r < d {
      DivUnique(x, d, 2 * q, r);
    } else {
      assert (2 * q + 1) * d == (2 * q) * d + d;
      DivUnique(x, d, 2 * q + 1, r - d);
    }
  }

  // ------------------------------------------------------------------- tables and maps

  type Bucket<V> = seq<Entry<V>>

  /** Where the keys go in a table of length `mod`. */
  function Place(mod: nat): (f: Key -> nat)
    requires mod > 0
    ensures forall key {:trigger f(key)} :: f(key) == Hash(key, mod)
  {
    (key: Key) => Hash(key, mod)
  }

  /** Bucket `i` holds part of `m`. */
  ghost predicate BucketOk<V>(b: Bucket<V>, i: nat, place: Key -> nat, m: map<Key, V>) {
    && (forall j {:trigger b[j]} :: 0 <= j < |b| ==> place(b[j].key) == i && b[j].key in m && m[b[j].key] == b[j].value)
    && (forall j, k {:trigger b[j], b[k]} :: 0 <= j < k < |b| ==> b[j].key != b[k].key)
  }

  ghost predicate Has<V>(b: Bucket<V>, key: Key) {
    exists j :: 0 <= j < |b| && b[j].key == key
  }

  /** The table holds exactly `m`, every key once and in its place. */
  ghost predicate Holds<V>(t: seq<Bucket<V>>, place: Key -> nat, m: map<Key, V>) {
    && (forall key {:trigger place(key)} :: place(key) < |t|)
    && (forall i {:trigger t[i]} :: 0 <= i < |t| ==> BucketOk(t[i], i, place, m))
    && (forall key {:trigger key in m} :: key in m ==> Has(t[place(key)], key))
  }

  lemma PutHolds<V>(t: seq<Bucket<V>>, place: Key -> nat, m: map<Key, V>, e: Entry<V>)
    requires Holds(t, place, m) && e.key !in m
    ensures Holds(t[place(e.key) := [e] + t[place(e.key)]], place, m[e.key := e.value])
  {
    var h := place(e.key);
    var t', m' := t[h := [e] + t[h]], m[e.key := e.value];
    forall i {:trigger t'[i]} | 0 <= i < |t'|
      ensures BucketOk(t'[i], i, place, m')
    {
      assert BucketOk(t[i], i, place, m);
    }
    forall key {:trigger key in m'} | key in m'
      ensures Has(t'[place(key)], key)
    {
      if key == e.key {
        assert t'[h][0].key == key;
      } else {
        assert Has(t[place(key)], key);
        var j :| 0 <= j < |t[place(key)]| && t[place(key)][j].key == key;
        assert t'[place(key)][if place(key) == h then j + 1 else j].key == key;
      }
    }
  }

  lemma DropBucket<V>(b: Bucket<V>, i: nat, place: Key -> nat, m: map<Key, V>, j: nat)
    requires BucketOk(b, i, place, m) && j < |b|
    ensures BucketOk(b[..j] + b[j + 1..], i, place, m - {b[j].key})
    ensures forall key :: key != b[j].key ==> (Has(b[..j] + b[j + 1..], key) <==> Has(b, key))
  {
    var b' := b[..j] + b[j + 1..];
    assert forall k {:trigger b'[k]} :: 0 <= k < |b'| ==> b'[k] == b[if k < j then k else k + 1];
    forall key | key != b[j].key && Has(b, key)
      ensures Has(b', key)
    {
      var k :| 0 <= k < |b| && b[k].key == key;
      assert b'[if k < j then k else k - 1].key == key;
    }
  }

  lemma DropHolds<V>(t: seq<Bucket<V>>, place: Key -> nat, m: map<Key, V>, h: nat, j: nat)
    requires Holds(t, place, m) && h < |t| && j < |t[h]|
    ensures Holds(t[h := t[h][..j] + t[h][j + 1..]], place, m - {t[h][j].key})
  {
    var key := t[h][j].key;
    var t', m' := t[h := t[h][..j] + t[h][j + 1..]], m - {key};
    DropBucket(t[h], h, place, m, j);
    forall i {:trigger t'[i]} | 0 <= i < |t'|
      ensures BucketOk(t'[i], i, place, m')
    {
      assert BucketOk(t[i], i, place, m) && BucketOk(t[h], h, place, m);
    }
    forall k {:trigger k in m'} | k in m'
      ensures Has(t'[place(k)], k)
    {
      assert Has(t[place(k)], k);
    }
  }

  lemma InBucket<V>(t: seq<Bucket<V>>, place: Key -> nat, m: map<Key, V>, key: Key)
    requires Holds(t, place, m)
    ensures key in m <==> Has(t[place(key)], key)
  {
    assert BucketOk(t[place(key)], place(key), place, m);
  }

  lemma EmptyHolds<V>(t: seq<Bucket<V>>, place: Key -> nat)
    requires (forall key {:trigger place(key)} :: place(key) < |t|) && forall i :: 0 <= i < |t| ==> t[i] == []
    ensures Holds(t, place, map[])
  {
  }

  /** The loops over a bucket that look for a key; the length of the bucket if it is not there. */
  method FindInBucket<V>(b: Bucket<V>, key: Key) returns (j: nat)
    ensures j <= |b| && (j < |b| <==> Has(b, key)) && (j < |b| ==> b[j].key == key)
  {
    j := 0;
    while j < |b| && b[j].key != key
      invariant j <= |b| && forall k :: 0 <= k < j ==> b[k].key != key
    {
      j := j + 1;
    }
  }

  /** `insert`: a key that is there already is refused. */
  method InsertEntry<V>(table: array<Bucket<V>>, e: Entry<V>, ghost m: map<Key, V>) returns (ok: bool)
    requires table.Length > 0 && Holds(table[..], Place(table.Length), m)
    modifies table
    ensures ok <==> e.key !in m
    ensures ok ==> Holds(table[..], Place(table.Length), m[e.key := e.value])
    ensures !ok ==> table[..] == old(table[..])
  {
    ghost var t, place := table[..], Place(table.Length);
    var h := Hash(e.key, table.Length);
    assert place(e.key) == h && t[h] == table[h];
    InBucket(t, place, m, e.key);
    var j := FindInBucket(table[h], e.key);
    if j < |table[h]| {
      return false;
    }
    PutHolds(t, place, m, e);
    table[h] := [e] + table[h];
    assert table[..] == t[h := [e] + t[h]];
    ok := true;
  }

  /** The inner loop of `resize`: one bucket is moved to the new table. */
  method MoveBucket<V>(newTable: array<Bucket<V>>, b: Bucket<V>, i: nat, ghost t: seq<Bucket<V>>,
                       ghost place: Key -> nat, ghost m: map<Key, V>, ghost done0: map<Key, V>)
    returns (ghost done: map<Key, V>)
    requires newTable.Length > 0 && Holds(newTable[..], Place(newTable.Length), done0)
    requires Holds(t, place, m) && i < |t| && b == t[i] && Moved(t, place, m, done0, i, 0)
    modifies newTable
    ensures Holds(newTable[..], Place(newTable.Length), done) && Moved(t, place, m, done, i + 1, 0)
  {
    done := done0;
    for j := 0 to |b|
      invariant Holds(newTable[..], Place(newTable.Length), done) && Moved(t, place, m, done, i, j)
    {
      MovedOne(t, place, m, done, i, j);
      var ok := InsertEntry(newTable, b[j], done);
      done := done[b[j].key := b[j].value];
    }
    MovedBucket(t, place, m, done, i);
  }

  /** The new table of `resize`. */
  method Rehash<V>(table: array<Bucket<V>>, newLength: nat, ghost m: map<Key, V>) returns (newTable: array<Bucket<V>>)
    requires table.Length > 0 && newLength > 0 && Holds(table[..], Place(table.Length), m)
    ensures fresh(newTable) && newTable.Length == newLength && Holds(newTable[..], Place(newLength), m)
  {
    newTable := new Bucket<V>[newLength](_ => []);
    ghost var t, place := table[..], Place(table.Length);
    ghost var done: map<Key, V> := map[];
    EmptyHolds(newTable[..], Place(newLength));
    for i := 0 to table.Length
      invariant Holds(newTable[..], Place(newLength), done) && Moved(t, place, m, done, i, 0)
      modifies newTable
    {
      done := MoveBucket(newTable, table[i], i, t, place, m, done);
    }
    MovedAll(t, place, m, done);
  }

  /** The loop of `nghttp2_map_remove`. */
  method RemoveEntry<V>(table: array<Bucket<V>>, key: Key, ghost m: map<Key, V>) returns (ok: bool)
    requires table.Length > 0 && Holds(table[..], Place(table.Length), m)
    modifies table
    ensures ok <==> key in m
    ensures Holds(table[..], Place(table.Length), m - {key})
  {
    ghost var t, place := table[..], Place(table.Length);
    var h := Hash(key, table.Length);
    assert place(key) == h && t[h] == table[h];
    InBucket(t, place, m, key);
    var j := FindInBucket(table[h], key);
    if j == |table[h]| {
      assert m - {key} == m;
      return false;
    }
    DropHolds(t, place, m, h, j);
    table[h] := table[h][..j] + table[h][j + 1..];
    assert table[..] == t[h := t[h][..j] + t[h][j + 1..]];
    ok := true;
  }

  lemma CountPut<V>(m: map<Key, V>, key: Key, value: V)
    requires key !in m
    ensures |m[key := value]| == |m| + 1
  {
    assert m[key := value].Keys == m.Keys + {key};
  }

  lemma CountDrop<V>(m: map<Key, V>, key: Key)
    ensures |m - {key}| == if key in m then |m| - 1 else |m|
  {
    assert (m - {key}).Keys == m.Keys - {key};
  }

  /** The buckets before `i` have been moved, and the first `j` entries of bucket `i`. */
  ghost predicate Moved<V>(t: seq<Bucket<V>>, place: Key -> nat, m: map<Key, V>, done: map<Key, V>, i: nat, j: nat)
    requires forall key {:trigger place(key)} :: place(key) < |t|
  {
    && (forall key {:trigger key in done} :: key in done ==> key in m && done[key] == m[key])
    && (forall key {:trigger key in m} :: key in m && place(key) < i ==> key in done)
    && (forall key {:trigger key in done} :: key in done ==>
          place(key) < i || (place(key) == i && exists k :: 0 <= k < j && k < |t[i]| && t[i][k].key == key))
    && (i < |t| ==> forall k {:trigger t[i][k]} :: 0 <= k < j && k < |t[i]| ==> t[i][k].key in done)
  }

  lemma MovedOne<V>(t: seq<Bucket<V>>, place: Key -> nat, m: map<Key, V>, done: map<Key, V>, i: nat, j: nat)
    requires Holds(t, place, m) && Moved(t, place, m, done, i, j) && i < |t| && j < |t[i]|
    ensures t[i][j].key !in done
    ensures Moved(t, place, m, done[t[i][j].key := t[i][j].value], i, j + 1)
  {
    assert BucketOk(t[i], i, place, m);
    var e := t[i][j];
    var done' := done[e.key := e.value];
    forall key {:trigger key in done'} | key in done'
      ensures place(key) < i || (place(key) == i && exists k :: 0 <= k < j + 1 && k < |t[i]| && t[i][k].key == key)
    {
      if key == e.key {
        assert t[i][j].key == key;
      } else if place(key) == i {
        var k :| 0 <= k < j && k < |t[i]| && t[i][k].key == key;
      }
    }
  }

  lemma MovedBucket<V>(t: seq<Bucket<V>>, place: Key -> nat, m: map<Key, V>, done: map<Key, V>, i: nat)
    requires Holds(t, place, m) && i < |t| && Moved(t, place, m, done, i, |t[i]|)
    ensures Moved(t, place, m, done, i + 1, 0)
  {
    forall key {:trigger key in m} | key in m && place(key) < i + 1
      ensures key in done
    {
      if place(key) == i {
        assert Has(t[i], key);
      }
    }
  }

  lemma MovedAll<V>(t: seq<Bucket<V>>, place: Key -> nat, m: map<Key, V>, done: map<Key, V>)
    requires Holds(t, place, m) && Moved(t, place, m, done, |t|, 0)
    ensures done == m
  {
    assert forall key :: key in m <==> key in done;
  }

  /** `nghttp2_map`. */
  class Map<V> {
    var table: array<Bucket<V>>
    var size: nat
    ghost var m: map<Key, V>

    /**
      * The table holds `m`, `size` counts its keys, its length is a power of two, and it is at most
      * three quarters full.
      */
    ghost predicate Valid()
      reads this, table
    {
      && table.Length > 0 && IsPow2(table.Length) && Holds(table[..], Place(table.Length), m)
      && size == |m| && size * 4 <= table.Length * 3
    }

    /** `nghttp2_map_init`. */
    constructor ()
      ensures Valid() && m == map[] && fresh(table)
    {
      table := new Bucket<V>[INITIAL_TABLE_LENGTH](_ => []);
      size := 0;
      m := map[];
      new;
      EmptyHolds(table[..], Place(table.Length));
      Pow2Values();
    }

    /** `resize`: the same map in a larger table. */
    method Resize(newLength: nat)
      requires Valid() && newLength >= table.Length && IsPow2(newLength)
      modifies this`table
      ensures Valid() && fresh(table) && table.Length == newLength
    {
      table := Rehash(table, newLength, m);
    }

    /** The end of `nghttp2_map_insert`, with room for another entry. */
    method Put(key: Key, value: V) returns (ok: bool)
      requires Valid() && (size + 1) * 4 <= table.Length * 3
      modifies this`size, this`m, table
      ensures Valid() && (ok <==> key !in old(m))
      ensures m == if ok then old(m)[key := value] else old(m)
    {
      ghost var more := m[key := value];
      ok := InsertEntry(table, Entry(key, value), m);
      if ok {
        CountPut(m, key, value);
        assert Holds(table[..], Place(table.Length), more);
        m, size := more, size + 1;
      }
    }

    /** `nghttp2_map_insert`; NGHTTP2_ERR_INVALID_ARGUMENT if the key is there, and then nothing changes. */
    method Insert(key: Key, value: V) returns (ok: bool)
      requires Valid()
      modifies this, table
      ensures Valid() && (table == old(table) || fresh(table))
      ensures ok <==> key !in old(m)
      ensures m == if ok then old(m)[key := value] else old(m)
      ensures ok && 4 * |old(m)| <= 3 * old(table.Length) ==> 4 * |m| <= 3 * table.Length
    {
      if (size + 1) * 4 > table.Length * 3 {
        Pow2Twice(table.Length);
        Resize(table.Length * 2);
      }
      ok := Put(key, value);
    }

    /** `nghttp2_map_find`. */
    method Find(key: Key) returns (r: Option<V>)
      requires Valid()
      ensures r == if key in m then Some(m[key]) else None
    {
      var h := Hash(key, table.Length);
      ghost var t, place := table[..], Place(table.Length);
      assert place(key) == h && t[h] == table[h];
      InBucket(t, place, m, key);
      assert BucketOk(t[h], h, place, m);
      var j := FindInBucket(table[h], key);
      r := if j < |table[h]| then Some(table[h][j].value) else None;
    }

    /** `nghttp2_map_remove`; NGHTTP2_ERR_INVALID_ARGUMENT if there is no such key. */
    method Remove(key: Key) returns (ok: bool)
      requires Valid()
      modifies this`size, this`m, table
      ensures Valid() && m == old(m) - {key}
      ensures ok <==> key in old(m)
    {
      ghost var rest := m - {key};
      CountDrop(m, key);
      ok := RemoveEntry(table, key, m);
      assert Holds(table[..], Place(table.Length), rest);
      m, size := rest, if ok then size - 1 else size;
    }
  }
}
