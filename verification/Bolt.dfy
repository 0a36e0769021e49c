/** Buckets of an embedded key-value database holding encoded records, and the scans over them. */
module Bolt {
  import opened Types
  import opened Ordering

  const MAX_KEY_SIZE: nat := 32768

  type Bucket = map<string, Bytes>

  /** How records become bytes and back. */
  datatype Codec<!T> = Codec(encode: T -> Bytes, decode: Bytes -> Option<T>)

  ghost predicate RoundTrips<T(!new)>(codec: Codec<T>) {
    forall x :: codec.decode(codec.encode(x)) == Some(x)
  }

  /** Keys the database accepts. */
  predicate KeyFits(key: string) {
    0 < |key| <= MAX_KEY_SIZE
  }

  /** Keys are 1 to 32768 characters long. */
  lemma KeyLimits(key: string)
    ensures KeyFits(key) <==> 1 <= |key| <= 32768
  {
  }

  ghost predicate KeysFit(b: Bucket) {
    forall k <- b :: KeyFits(k)
  }

  /** Every record of the bucket can be decoded. */
  ghost predicate Intact<T(!new)>(codec: Codec<T>, b: Bucket) {
    forall k <- b :: codec.decode(b[k]).Some?
  }

  /** There is a record under the key, and it cannot be decoded. */
  ghost predicate Unreadable<T(!new)>(codec: Codec<T>, b: Bucket, key: string) {
    key in b && codec.decode(b[key]).None?
  }

  /** The records of a bucket; entries that do not decode are left out. */
  ghost function Decoded<T(!new)>(codec: Codec<T>, b: Bucket): map<string, T> {
    map k | k in b && codec.decode(b[k]).Some? :: codec.decode(b[k]).value
  }

  /** Put of one record: refused for a key that does not fit. */
  function Put<T>(codec: Codec<T>, b: Bucket, key: string, x: T): Option<Bucket> {
    if KeyFits(key) then Some(b[key := codec.encode(x)]) else None
  }

  /** A put changes one record and keeps the rest as they are, readable or not. */
  lemma PutDecoded<T(!new)>(codec: Codec<T>, b: Bucket, key: string, x: T)
    requires RoundTrips(codec) && KeyFits(key) && KeysFit(b)
    ensures var b' := Put(codec, b, key, x).value;
      && Decoded(codec, b') == Decoded(codec, b)[key := x]
      && KeysFit(b')
      && (Intact(codec, b) ==> Intact(codec, b'))
  {
    var b' := Put(codec, b, key, x).value;
    assert codec.decode(b'[key]) == Some(x);
    assert Decoded(codec, b').Keys == Decoded(codec, b).Keys + {key};
  }

  lemma DecodedAt<T(!new)>(codec: Codec<T>, b: Bucket, key: string)
    ensures key in Decoded(codec, b) <==> key in b && codec.decode(b[key]).Some?
    ensures key in Decoded(codec, b) ==> codec.decode(b[key]) == Some(Decoded(codec, b)[key])
  {
  }

  /** What a scan returns: the records it got to, and why it stopped early if it did. */
  datatype Listing<+T> = Listing(items: seq<T>, error: Option<Error>)

  /** The records a scan in key order decodes before it meets one it cannot. */
  ghost function ReadUpTo<T(!new)>(codec: Codec<T>, b: Bucket): map<string, T> {
    map k | k in b && codec.decode(b[k]).Some? && (forall j <- b :: codec.decode(b[j]).None? ==> StringLess(k, j)) ::
      codec.decode(b[k]).value
  }

  lemma ReadAll<T(!new)>(codec: Codec<T>, b: Bucket)
    requires Intact(codec, b)
    ensures ReadUpTo(codec, b) == Decoded(codec, b)
  {
  }

  predicate IsLeast(keys: set<string>, k: string) {
    k in keys && forall j <- keys :: j == k || StringLess(k, j)
  }

  lemma {:induction false} LeastKey(keys: set<string>)
    requires keys != {}
    ensures exists k <- keys :: IsLeast(keys, k)
    decreases keys
  {
    hide StringLess;
    var x :| x in keys;
    if keys == {x} {
      assert IsLeast(keys, x);
    } else {
      LeastKey(keys - {x});
      var y :| y in keys - {x} && IsLeast(keys - {x}, y);
      StringLessConnected(x, y);
      if StringLess(x, y) {
        forall j | j in keys && j != x && j != y ensures StringLess(x, j) { StringLessTransitive(x, y, j); }
        assert IsLeast(keys, x);
      } else {
        assert IsLeast(keys, y);
      }
    }
  }

  /** The scan has decoded every key outside todo, and these come before the keys in todo. */
  ghost predicate ScannedKeys<T(!new)>(codec: Codec<T>, b: Bucket, todo: set<string>) {
    && todo <= b.Keys
    && (forall k <- b :: k !in todo ==> codec.decode(b[k]).Some?)
    && (forall k <- b, j <- todo :: k !in todo ==> StringLess(k, j))
  }

  lemma ScannedOneKey<T(!new)>(codec: Codec<T>, b: Bucket, todo: set<string>, k: string)
    requires ScannedKeys(codec, b, todo) && k in todo && codec.decode(b[k]).Some?
    requires IsLeast(todo, k)
    ensures ScannedKeys(codec, b, todo - {k})
  {
    hide StringLess;
  }

  /** A scan that stops has read exactly the keys before the first unreadable one; one that does not has read all. */
  lemma ScanStopped<T(!new)>(codec: Codec<T>, b: Bucket, todo: set<string>, k: string)
    requires ScannedKeys(codec, b, todo) && (todo == {} || (k in todo && codec.decode(b[k]).None?))
    requires todo == {} || IsLeast(todo, k)
    ensures ReadUpTo(codec, b).Keys == b.Keys - todo
    ensures Intact(codec, b) <==> todo == {}
  {
    hide StringLess;
    forall j | j in b ensures j in ReadUpTo(codec, b) <==> j !in todo {
      if j in todo && StringLess(j, k) {
        StringLessIrreflexive(k);
        if j != k { StringLessTransitive(j, k, j); StringLessIrreflexive(j); }
      }
    }
  }

  /** Scans a bucket in key order, decodes, keeps some of the records and sorts them; stops at an unreadable record. */
  method ScanSorted<T(!new, ==)>(
      codec: Codec<T>, b: Bucket, keep: T -> bool, less: (T, T) -> bool, ghost key: T -> string) returns (r: Listing<T>)
    requires KeyedBy(Decoded(codec, b), key) && TotalOn(less, Kept(Decoded(codec, b), keep))
    ensures r.items == SortedSeq(less, Kept(ReadUpTo(codec, b), keep))
    ensures r.error == if Intact(codec, b) then None else Some(ErrDecode)
  {
    hide SortedSeq, SortSlice, TotalOn, ScannedSoFar, ScannedKeys, ReadUpTo, Intact, Kept, KeyedBy, IsLeast;
    var out: seq<T> := [];
    var todo := b.Keys;
    ghost var records := Decoded(codec, b);
    ScanStart(codec, b, keep);
    while todo != {}
      invariant ScannedKeys(codec, b, todo) && todo <= b.Keys
      invariant ScannedSoFar(records, keep, todo, out)
    {
      LeastKey(todo);
      var k :| k in todo && IsLeast(todo, k);
      var x := codec.decode(b[k]);
      if x.None? {
        ScanStopped(codec, b, todo, k);
        ScannedList(codec, b, keep, less, todo, out);
        return Listing(SortSlice(less, out), Some(ErrDecode));
      }
      ScannedMore(records, keep, todo, out, k, key);
      ScannedOneKey(codec, b, todo, k);
      todo := todo - {k};
      if keep(x.value) {
        out := out + [x.value];
      }
    }
    ScanStopped(codec, b, todo, "");
    ScannedList(codec, b, keep, less, todo, out);
    r := Listing(SortSlice(less, out), None);
  }

  lemma ScanStart<T(!new)>(codec: Codec<T>, b: Bucket, keep: T -> bool)
    ensures ScannedKeys(codec, b, b.Keys) && ScannedSoFar(Decoded(codec, b), keep, b.Keys, [])
  {
  }

  lemma ScannedList<T(!new)>(
      codec: Codec<T>, b: Bucket, keep: T -> bool, less: (T, T) -> bool, todo: set<string>, out: seq<T>)
    requires ReadUpTo(codec, b).Keys == b.Keys - todo && ScannedSoFar(Decoded(codec, b), keep, todo, out)
    requires TotalOn(less, Kept(Decoded(codec, b), keep))
    ensures SortSlice(less, out) == SortedSeq(less, Kept(ReadUpTo(codec, b), keep))
  {
    hide SortSlice, SortedSeq;
    var kept := Kept(ReadUpTo(codec, b), keep);
    forall x ensures x in out <==> x in kept {
      if x in out {
        var k :| k in Decoded(codec, b) && k !in todo && keep(Decoded(codec, b)[k]) && Decoded(codec, b)[k] == x;
        assert k in ReadUpTo(codec, b);
      }
      if x in kept {
        var k :| k in ReadUpTo(codec, b) && keep(ReadUpTo(codec, b)[k]) && ReadUpTo(codec, b)[k] == x;
        assert k in Decoded(codec, b) && k !in todo;
      }
    }
    assert Elements(out) == kept;
    TotalSubset(less, Kept(Decoded(codec, b), keep), kept);
    SortSliceIsSortedSeq(less, out, kept);
  }

  /** out lists, each once, the kept records outside todo. */
  ghost predicate ScannedSoFar<T(!new)>(records: map<string, T>, keep: T -> bool, todo: set<string>, out: seq<T>) {
    && Distinct(out)
    && forall x :: x in out <==> exists k <- records :: k !in todo && keep(records[k]) && records[k] == x
  }

  lemma ScannedMore<T(!new)>(
      records: map<string, T>, keep: T -> bool, todo: set<string>, out: seq<T>, k: string, key: T -> string)
    requires ScannedSoFar(records, keep, todo, out) && k in todo && k in records && KeyedBy(records, key)
    ensures ScannedSoFar(records, keep, todo - {k}, if keep(records[k]) then out + [records[k]] else out)
  {
    assert records[k] !in out;
  }

  function Applied<T>(change: T -> Option<T>, x: T): T {
    if change(x).Some? then change(x).value else x
  }

  /** Scans a bucket and puts back the records that change wants changed; fails as a whole on an unreadable record. */
  method Rewrite<T(!new)>(codec: Codec<T>, b: Bucket, change: T -> Option<T>) returns (r: Result<Bucket>)
    requires RoundTrips(codec)
    ensures if !Intact(codec, b) then r == Err(ErrDecode)
      else
        && r.Ok? && r.value.Keys == b.Keys && Intact(codec, r.value)
        && forall k <- b :: Decoded(codec, r.value)[k] == Applied(change, Decoded(codec, b)[k])
  {
    var tx := b;
    var todo := b.Keys;
    while todo != {}
      invariant todo <= b.Keys == tx.Keys
      invariant forall k <- todo :: tx[k] == b[k]
      invariant forall k <- b :: k !in todo ==>
                  codec.decode(b[k]).Some? && codec.decode(tx[k]) == Some(Applied(change, codec.decode(b[k]).value))
    {
      var k :| k in todo;
      todo := todo - {k};
      var x := codec.decode(b[k]);
      if x.None? {
        return Err(ErrDecode);
      }
      var y := change(x.value);
      if y.Some? {
        tx := tx[k := codec.encode(y.value)];
      }
    }
    r := Ok(tx);
  }
}
