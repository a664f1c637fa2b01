/**
 * The part of a MongoDB collection the Flask handlers use: equality and `$in`
 * filters, `find_one`, `insert_one`, `delete_one`, `delete_many`,
 * `update_one` and `update_many` with `$set`, and a `find` that leaves `_id`
 * out. Documents are kept in the collection's natural order.
 */
module Mongo {
  import opened Values
  import opened Seqs

  /**
   * The filter `{field: v}`: the field equals `v`, or holds an array with `v`
   * among its elements; a missing field compares as null.
   */
  predicate Matches(doc: Record, field: string, v: Value)
  {
    var x := PyGet(doc, field);
    x == v || (x.List? && v in x.items)
  }

  function Matching(field: string, v: Value): Record -> bool
  {
    doc => Matches(doc, field, v)
  }

  function NotMatching(field: string, v: Value): Record -> bool
  {
    doc => !Matches(doc, field, v)
  }

  /** The filter `{field: {"$in": vs}}`: the document matches one of the listed values. */
  predicate MatchesAny(doc: Record, field: string, vs: seq<Value>)
  {
    exists k :: 0 <= k < |vs| && Matches(doc, field, vs[k])
  }

  function MatchingAny(field: string, vs: seq<Value>): Record -> bool
  {
    doc => MatchesAny(doc, field, vs)
  }

  /** A document after `{"$set": updates}`: every listed field takes its new value. */
  function SetFields(doc: Record, updates: Record): (r: Record)
    ensures r.Keys == doc.Keys + updates.Keys
    ensures forall k :: k in updates ==> r[k] == updates[k]
    ensures forall k :: k in doc && k !in updates ==> r[k] == doc[k]
  {
    Merge(doc, updates)
  }

  /** A document as `insert_one` stores it: it gets the fresh `id` unless it carries an `_id`. */
  function WithId(doc: Record, id: Value): (r: Record)
    ensures "_id" in r && r["_id"] == if "_id" in doc then doc["_id"] else id
    ensures r.Keys == doc.Keys + {"_id"}
    ensures forall k :: k in doc ==> r[k] == doc[k]
  {
    if "_id" in doc then doc else doc["_id" := id]
  }

  /** The documents after `update_one({field: v}, {"$set": updates})`: only the first match changes. */
  function SetFirst(docs: seq<Record>, field: string, v: Value, updates: Record): (r: seq<Record>)
    ensures |r| == |docs|
    ensures var i := FindIndex(Matching(field, v), docs);
      forall j :: 0 <= j < |docs| ==> r[j] == if j == i then SetFields(docs[j], updates) else docs[j]
  {
    var i := FindIndex(Matching(field, v), docs);
    if i == -1 then docs else docs[i := SetFields(docs[i], updates)]
  }

  /** The documents after `delete_one({field: v})`: the first match goes, the rest keep their order. */
  function DropFirst(docs: seq<Record>, field: string, v: Value): (r: seq<Record>)
    ensures var i := FindIndex(Matching(field, v), docs);
      if i == -1 then r == docs else r == docs[..i] + docs[i + 1..]
  {
    DropIndex(docs, FindIndex(Matching(field, v), docs))
  }

  /** The documents after `update_many` with `{field: {"$in": vs}}` and `$set`. */
  function SetWhereAny(docs: seq<Record>, field: string, vs: seq<Value>, updates: Record): (r: seq<Record>)
    ensures |r| == |docs|
    ensures forall i :: 0 <= i < |docs| && MatchesAny(docs[i], field, vs) ==> r[i] == SetFields(docs[i], updates)
    ensures forall i :: 0 <= i < |docs| && !MatchesAny(docs[i], field, vs) ==> r[i] == docs[i]
  {
    seq(|docs|, i requires 0 <= i < |docs| => if MatchesAny(docs[i], field, vs) then SetFields(docs[i], updates) else docs[i])
  }

  /** The documents `update_many` counts as modified: matched, and different once the fields are set. */
  function Changes(field: string, vs: seq<Value>, updates: Record): Record -> bool
  {
    doc => MatchesAny(doc, field, vs) && SetFields(doc, updates) != doc
  }

  /** When a document matches, `delete_one` removes exactly that one document and nothing else. */
  lemma DropFirstRemovesOne(docs: seq<Record>, field: string, v: Value)
    requires exists i :: 0 <= i < |docs| && Matches(docs[i], field, v)
    ensures var i := FindIndex(Matching(field, v), docs);
      0 <= i && |DropFirst(docs, field, v)| == |docs| - 1 &&
      multiset(DropFirst(docs, field, v)) + multiset{docs[i]} == multiset(docs)
  {
    var i := FindIndex(Matching(field, v), docs);
    assert Matching(field, v)(docs[i]);
    assert docs == docs[..i] + [docs[i]] + docs[i + 1..];
  }

  /** `modified_count` never exceeds `matched_count`. */
  lemma ModifiedAtMostMatched(docs: seq<Record>, field: string, vs: seq<Value>, updates: Record)
    ensures |Filter(Changes(field, vs, updates), docs)| <= |Filter(MatchingAny(field, vs), docs)|
  {
    FilterStrongerKeepsFewer(Changes(field, vs, updates), MatchingAny(field, vs), docs);
  }

  /**
   * When the update leaves the filtered field alone, running `update_many` a
   * second time changes nothing and modifies no document.
   */
  lemma SetWhereAnyTwice(docs: seq<Record>, field: string, vs: seq<Value>, updates: Record)
    requires field !in updates
    ensures SetWhereAny(SetWhereAny(docs, field, vs, updates), field, vs, updates) == SetWhereAny(docs, field, vs, updates)
    ensures Filter(Changes(field, vs, updates), SetWhereAny(docs, field, vs, updates)) == []
  {
    var once := SetWhereAny(docs, field, vs, updates);
    forall i | 0 <= i < |docs|
      ensures MatchesAny(once[i], field, vs) == MatchesAny(docs[i], field, vs)
      ensures SetFields(once[i], updates) == once[i] || !MatchesAny(once[i], field, vs)
    {
      assert PyGet(once[i], field) == PyGet(docs[i], field);
      if MatchesAny(docs[i], field, vs) {
        assert SetFields(once[i], updates) == once[i];
      }
    }
    FilterKeepsNone(Changes(field, vs, updates), once);
  }

  /** `find({}, {'_id': 0})`: every document, without its `_id`. */
  function WithoutIds(docs: seq<Record>): (r: seq<Record>)
    ensures |r| == |docs|
    ensures forall i :: 0 <= i < |docs| ==> "_id" !in r[i] && r[i].Keys == docs[i].Keys - {"_id"}
    ensures forall i, k :: 0 <= i < |docs| && k in r[i] ==> r[i][k] == docs[i][k]
  {
    seq(|docs|, i requires 0 <= i < |docs| => docs[i] - {"_id"})
  }

  class Collection {
    var docs: seq<Record>

    constructor (initial: seq<Record>)
      ensures docs == initial
    {
      docs := initial;
    }

    /** `find_one({field: v})`: the first matching document, if any. */
    function FindOne(field: string, v: Value): (r: Option<Record>)
      reads this
      ensures r.None? <==> forall i :: 0 <= i < |docs| ==> !Matches(docs[i], field, v)
      ensures r.Some? ==> Matches(r.value, field, v) && r.value in docs
    {
      var i := FindIndex(Matching(field, v), docs);
      if i == -1 then None else Some(docs[i])
    }

    method InsertOne(doc: Record, id: Value)
      modifies this
      ensures docs == old(docs) + [WithId(doc, id)]
    {
      docs := docs + [WithId(doc, id)];
    }

    /** `delete_one({field: v})`: removes the first matching document and reports how many went. */
    method DeleteOne(field: string, v: Value) returns (deleted: nat)
      modifies this
      ensures deleted == 0 <==> forall i :: 0 <= i < |old(docs)| ==> !Matches(old(docs)[i], field, v)
      ensures deleted <= 1 && docs == DropFirst(old(docs), field, v)
    {
      deleted := if FindIndex(Matching(field, v), docs) == -1 then 0 else 1;
      docs := DropFirst(docs, field, v);
    }

    /** `delete_many({field: v})`: removes every matching document and reports how many went. */
    method DeleteMany(field: string, v: Value) returns (deleted: nat)
      modifies this
      ensures docs == Filter(NotMatching(field, v), old(docs))
      ensures deleted == |old(docs)| - |docs|
    {
      var kept := Filter(NotMatching(field, v), docs);
      deleted := |docs| - |kept|;
      docs := kept;
    }

    /** `update_one({field: v}, {"$set": updates})`: sets the fields of the first match and reports how many matched. */
    method UpdateOne(field: string, v: Value, updates: Record) returns (matched: nat)
      modifies this
      ensures matched == 0 <==> forall i :: 0 <= i < |old(docs)| ==> !Matches(old(docs)[i], field, v)
      ensures matched <= 1 && docs == SetFirst(old(docs), field, v, updates)
    {
      matched := if FindIndex(Matching(field, v), docs) == -1 then 0 else 1;
      docs := SetFirst(docs, field, v, updates);
    }

    /**
     * `update_many({field: {"$in": vs}}, {"$set": updates})`: sets the fields of
     * every match; `modified` counts only the documents that actually changed.
     */
    method UpdateManyIn(field: string, vs: seq<Value>, updates: Record) returns (matched: nat, modified: nat)
      modifies this
      ensures docs == SetWhereAny(old(docs), field, vs, updates)
      ensures matched == |Filter(MatchingAny(field, vs), old(docs))|
      ensures modified == |Filter(Changes(field, vs, updates), old(docs))|
    {
      matched := |Filter(MatchingAny(field, vs), docs)|;
      modified := |Filter(Changes(field, vs, updates), docs)|;
      docs := SetWhereAny(docs, field, vs, updates);
    }
  }
}
