/** The part of the `bson` crate the record serialisers use: `Bson` values
    and an insertion-ordered `Document` whose `insert` replaces the value of
    an existing key in place and appends a new key at the end. */
module Bson {
  import opened Outcomes

  datatype Bson = BString(s: string) | BNull | BDocument(entries: seq<(string, Bson)>)

  /** `impl From<Option<String>> for Bson`. */
  function FromOption(o: Option<string>): (b: Bson)
    ensures o.None? <==> b == BNull
    ensures o.Some? ==> b == BString(o.value)
  {
    match o
    case None => BNull
    case Some(s) => BString(s)
  }

  function Keys(entries: seq<(string, Bson)>): (keys: seq<string>)
    ensures |keys| == |entries|
    ensures forall i :: 0 <= i < |entries| ==> keys[i] == entries[i].0
  {
    if |entries| == 0 then [] else [entries[0].0] + Keys(entries[1..])
  }

  /** The position of `key`, if present. */
  function IndexOf(entries: seq<(string, Bson)>, key: string): (r: Option<nat>)
    ensures r.Some? ==> r.value < |entries| && entries[r.value].0 == key
    ensures r.Some? ==> forall j :: 0 <= j < r.value ==> entries[j].0 != key
    ensures r.None? ==> forall j :: 0 <= j < |entries| ==> entries[j].0 != key
  {
    if |entries| == 0 then None
    else if entries[0].0 == key then Some(0)
    else match IndexOf(entries[1..], key)
      case None => None
      case Some(i) => Some(i + 1)
  }

  /** `Document::get`. */
  function Get(entries: seq<(string, Bson)>, key: string): (r: Option<Bson>) {
    match IndexOf(entries, key)
    case None => None
    case Some(i) => Some(entries[i].1)
  }

  /** The entries after `insert(key, value)`. */
  function Inserted(entries: seq<(string, Bson)>, key: string, value: Bson): (after: seq<(string, Bson)>) {
    match IndexOf(entries, key)
    case None => entries + [(key, value)]
    case Some(i) => entries[i := (key, value)]
  }

  /** Keys of a document are distinct, as IndexMap keeps them. */
  predicate DistinctKeys(entries: seq<(string, Bson)>) {
    forall i, j :: 0 <= i < j < |entries| ==> entries[i].0 != entries[j].0
  }

  /** In a document with distinct keys, the key at position i is found at i. */
  lemma IndexOfDistinct(entries: seq<(string, Bson)>, i: nat, key: string)
    requires DistinctKeys(entries) && i < |entries| && entries[i].0 == key
    ensures IndexOf(entries, key) == Some(i)
  {
  }

  /** Where `insert` puts the key: its old position, or the end. */
  function InsertPosition(entries: seq<(string, Bson)>, key: string): (p: nat) {
    match IndexOf(entries, key)
    case None => |entries|
    case Some(i) => i
  }

  lemma InsertedShape(entries: seq<(string, Bson)>, key: string, value: Bson)
    ensures var after, p := Inserted(entries, key, value), InsertPosition(entries, key);
      && |after| == (if IndexOf(entries, key).None? then |entries| + 1 else |entries|)
      && p < |after| && after[p] == (key, value)
      && forall j :: 0 <= j < |after| && j != p ==> after[j] == entries[j]
  {
  }

  lemma InsertedDistinct(entries: seq<(string, Bson)>, key: string, value: Bson)
    requires DistinctKeys(entries)
    ensures DistinctKeys(Inserted(entries, key, value))
  {
    InsertedShape(entries, key, value);
  }

  lemma InsertedGetOther(entries: seq<(string, Bson)>, key: string, value: Bson, other: string)
    requires DistinctKeys(entries) && other != key
    ensures Get(Inserted(entries, key, value), other) == Get(entries, other)
  {
    var after := Inserted(entries, key, value);
    InsertedShape(entries, key, value);
    InsertedDistinct(entries, key, value);
    match IndexOf(entries, other)
    case Some(q) =>
      IndexOfDistinct(after, q, other);
    case None =>
      assert forall j :: 0 <= j < |after| ==> after[j].0 != other;
  }

  lemma InsertedKeys(entries: seq<(string, Bson)>, key: string, value: Bson)
    ensures Keys(Inserted(entries, key, value)) == if Get(entries, key).None? then Keys(entries) + [key] else Keys(entries)
  {
    var after := Inserted(entries, key, value);
    InsertedShape(entries, key, value);
    var keys := if Get(entries, key).None? then Keys(entries) + [key] else Keys(entries);
    assert |Keys(after)| == |keys|;
    assert forall i :: 0 <= i < |keys| ==> Keys(after)[i] == keys[i];
  }

  /** After an insert the key maps to the new value, every other key keeps its
      value, distinct keys stay distinct, and the key order changes only by
      appending a key that was absent. */
  lemma InsertedSpec(entries: seq<(string, Bson)>, key: string, value: Bson, other: string)
    requires DistinctKeys(entries)
    ensures DistinctKeys(Inserted(entries, key, value))
    ensures Get(Inserted(entries, key, value), key) == Some(value)
    ensures other != key ==> Get(Inserted(entries, key, value), other) == Get(entries, other)
    ensures Keys(Inserted(entries, key, value)) == if Get(entries, key).None? then Keys(entries) + [key] else Keys(entries)
  {
    InsertedShape(entries, key, value);
    InsertedDistinct(entries, key, value);
    IndexOfDistinct(Inserted(entries, key, value), InsertPosition(entries, key), key);
    if other != key {
      InsertedGetOther(entries, key, value, other);
    }
    InsertedKeys(entries, key, value);
  }

  /** A `bson::Document` under construction. */
  class Document {
    var entries: seq<(string, Bson)>

    ghost predicate Valid()
      reads this
    {
      DistinctKeys(entries)
    }

    /** `Document::new`. */
    constructor ()
      ensures Valid() && entries == []
    {
      entries := [];
    }

    /** `Document::insert`: returns the value that was displaced, if any. */
    method Insert(key: string, value: Bson) returns (previous: Option<Bson>)
      requires Valid()
      modifies this
      ensures Valid()
      ensures entries == Inserted(old(entries), key, value)
      ensures previous == Get(old(entries), key)
    {
      InsertedSpec(entries, key, value, key);
      var i := 0;
      while i < |entries| && entries[i].0 != key
        invariant 0 <= i <= |entries|
        invariant forall j :: 0 <= j < i ==> entries[j].0 != key
      {
        i := i + 1;
      }
      if i < |entries| {
        previous := Some(entries[i].1);
        entries := entries[i := (key, value)];
      } else {
        previous := None;
        entries := entries + [(key, value)];
      }
    }
  }
}
