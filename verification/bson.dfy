/** The part of the BSON data model that the migration produces: tagged
    values and insertion-ordered documents with unique keys. */
module BsonModel {
  import opened Wrappers

  newtype int64 = x: int | -0x8000_0000_0000_0000 <= x < 0x8000_0000_0000_0000

  newtype byte = x: int | 0 <= x < 0x100

  /** A 64-bit IEEE 754 value, kept as its bit pattern: no floating-point
      arithmetic takes place in the migration. */
  datatype Double64 = Double64(bits: bv64)

  /** A BSON UTC datetime: signed milliseconds since the Unix epoch. */
  datatype UtcDateTime = UtcDateTime(millis: int64)

  /** Binary subtypes of the BSON specification. */
  datatype BinarySubtype =
    | Generic
    | Function
    | BinaryOld
    | UuidOld
    | Uuid
    | Md5
    | Encrypted
    | UserDefined(code: byte)

  /** A tagged value: exactly one tag is active. */
  datatype Bson =
    | Null
    | Boolean(boolValue: bool)
    | Int64(intValue: int64)
    | Double(doubleValue: Double64)
    | String(text: string)
    | DateTime(instant: UtcDateTime)
    | Binary(subtype: BinarySubtype, bytes: seq<byte>)

  /** Index of the first entry whose key is `key`. */
  function IndexOf(entries: seq<(string, Bson)>, key: string): (r: Option<nat>)
    ensures r.Some? ==> r.value < |entries| && entries[r.value].0 == key
    ensures r.Some? ==> forall j | 0 <= j < r.value :: entries[j].0 != key
    ensures r.None? ==> forall j | 0 <= j < |entries| :: entries[j].0 != key
  {
    if entries == [] then None
    else if entries[0].0 == key then Some(0)
    else match IndexOf(entries[1..], key)
      case None => None
      case Some(i) => Some(i + 1)
  }

  /** An ordered mapping from field names to values. */
  datatype Document = Document(entries: seq<(string, Bson)>)
  {
    /** No key occurs twice. */
    ghost predicate Valid()
    {
      forall i, j | 0 <= i < j < |entries| :: entries[i].0 != entries[j].0
    }

    function Keys(): set<string>
    {
      set i | 0 <= i < |entries| :: entries[i].0
    }

    function Get(key: string): Option<Bson>
    {
      match IndexOf(entries, key)
      case None => None
      case Some(i) => Some(entries[i].1)
    }
  }

  const EmptyDocument: Document := Document([])

  /** The first index of `k` is determined by where `k` occurs. */
  lemma IndexOfIsFirst(a: seq<(string, Bson)>, k: string, i: nat)
    requires i < |a| && a[i].0 == k
    requires forall j | 0 <= j < i :: a[j].0 != k
    ensures IndexOf(a, k) == Some(i)
  {
  }

  /** Two sequences of entries that agree everywhere except at position `i`,
      where neither has key `k`, give the same first index for `k`. */
  lemma IndexOfUnchanged(a: seq<(string, Bson)>, b: seq<(string, Bson)>, i: nat, k: string)
    requires |a| == |b| && i < |a|
    requires a[i].0 != k && b[i].0 != k
    requires forall j | 0 <= j < |a| && j != i :: a[j] == b[j]
    ensures IndexOf(a, k) == IndexOf(b, k)
  {
  }

  /** Insertion into an insertion-ordered map: a new key is appended at the
      end; an existing key keeps its position and takes the new value. */
  function Insert(d: Document, key: string, value: Bson): Document
  {
    match IndexOf(d.entries, key)
    case None => Document(d.entries + [(key, value)])
    case Some(i) => Document(d.entries[i := (key, value)])
  }

  /** After an insertion the key holds the new value, every other key its
      old one, and keys stay unique; a new key goes last, an existing one
      stays where it was. */
  lemma InsertSpec(d: Document, key: string, value: Bson)
    ensures var r := Insert(d, key, value);
      && (d.Valid() ==> r.Valid())
      && r.Get(key) == Some(value)
      && (forall k | k != key :: r.Get(k) == d.Get(k))
      && r.Keys() == d.Keys() + {key}
      && (key !in d.Keys() ==> r.entries == d.entries + [(key, value)])
      && (key in d.Keys() ==>
            && |r.entries| == |d.entries|
            && forall i | 0 <= i < |r.entries| :: r.entries[i].0 == d.entries[i].0)
  {
    var r := Insert(d, key, value);
    match IndexOf(d.entries, key)
    case None =>
      IndexOfIsFirst(r.entries, key, |d.entries|);
      forall k | k != key ensures r.Get(k) == d.Get(k) {
        IndexOfAppend(d.entries, (key, value), k);
      }
      forall k | k in r.Keys() ensures k in d.Keys() + {key} {
        var i :| 0 <= i < |r.entries| && r.entries[i].0 == k;
        if i < |d.entries| { assert d.entries[i].0 == k; }
      }
      forall k | k in d.Keys() ensures k in r.Keys() {
        var i :| 0 <= i < |d.entries| && d.entries[i].0 == k;
        assert r.entries[i].0 == k;
      }
      assert r.entries[|d.entries|].0 == key;
    case Some(i) =>
      IndexOfIsFirst(r.entries, key, i);
      forall k | k != key ensures r.Get(k) == d.Get(k) {
        IndexOfUnchanged(d.entries, r.entries, i, k);
      }
      forall k | k in r.Keys() ensures k in d.Keys() + {key} {
        var j :| 0 <= j < |r.entries| && r.entries[j].0 == k;
        if j != i { assert d.entries[j].0 == k; }
      }
      forall k | k in d.Keys() ensures k in r.Keys() {
        var j :| 0 <= j < |d.entries| && d.entries[j].0 == k;
        if j == i { assert r.entries[i].0 == k; } else { assert r.entries[j].0 == k; }
      }
  }

  /** Appending an entry with another key does not move the first index of `k`. */
  lemma IndexOfAppend(a: seq<(string, Bson)>, e: (string, Bson), k: string)
    requires e.0 != k
    ensures IndexOf(a + [e], k) == IndexOf(a, k)
  {
    match IndexOf(a, k)
    case Some(i) =>
      IndexOfIsFirst(a + [e], k, i);
    case None =>
      assert forall j | 0 <= j < |a + [e]| :: (a + [e])[j].0 != k;
  }
}
