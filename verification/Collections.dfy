/** The `subscribers` collection of an island's core: its documents, in order.

    Nothing here assumes that an IMSI occurs once. */
module Collections {
  import opened Results
  import opened Json
  import opened Canonical
  import opened Subscribers

  /** `findOne({ imsi })`. */
  function Find(docs: seq<Value>, imsi: string): Option<Value> {
    if docs == [] then None else if HasImsi(docs[0], imsi) then Some(docs[0]) else Find(docs[1..], imsi)
  }

  function WithId(doc: Value, id: Value): Value {
    if doc.Doc? then Doc(Put(doc.fields, "_id", id)) else doc
  }

  /** A replacement keeps the identifier of the document it replaces. */
  function Replacement(replaced: Value, doc: Value): Value {
    match Lookup(replaced, "_id")
    case Some(id) => WithId(doc, id)
    case None => doc
  }

  /** `replaceOne({ imsi }, doc)`. */
  function ReplaceFirst(docs: seq<Value>, imsi: string, doc: Value): seq<Value> {
    if docs == [] then []
    else if HasImsi(docs[0], imsi) then [Replacement(docs[0], doc)] + docs[1..]
    else [docs[0]] + ReplaceFirst(docs[1..], imsi, doc)
  }

  predicate Listed(imsis: set<string>, doc: Value) { exists s | s in imsis :: HasImsi(doc, s) }

  /** What `deleteMany({ imsi: {$nin: imsis}, resccom_inbound_roamer: {$ne: true} })` leaves. */
  function Keep(docs: seq<Value>, imsis: set<string>): seq<Value> {
    if docs == [] then []
    else if Marked(docs[0]) || Listed(imsis, docs[0]) then [docs[0]] + Keep(docs[1..], imsis)
    else Keep(docs[1..], imsis)
  }

  /** What `deleteOne({ imsi, resccom_inbound_roamer: true })` leaves. */
  function DropRoamer(docs: seq<Value>, imsi: string): seq<Value> {
    if docs == [] then []
    else if HasImsi(docs[0], imsi) && Marked(docs[0]) then docs[1..]
    else [docs[0]] + DropRoamer(docs[1..], imsi)
  }

  /** Replacing the first match at or after `i`. */
  lemma ReplaceFrom(docs: seq<Value>, imsi: string, doc: Value, i: nat)
    requires i < |docs|
    ensures docs[..i] + ReplaceFirst(docs[i..], imsi, doc) ==
      if HasImsi(docs[i], imsi) then docs[..i] + [Replacement(docs[i], doc)] + docs[i + 1..]
      else docs[..i + 1] + ReplaceFirst(docs[i + 1..], imsi, doc)
  {
    assert docs[i..][1..] == docs[i + 1..];
    assert docs[..i + 1] == docs[..i] + [docs[i]];
    var rest := ReplaceFirst(docs[i + 1..], imsi, doc);
    assert docs[..i] + ([docs[i]] + rest) == (docs[..i] + [docs[i]]) + rest;
  }

  /** The collection the scripts run against, updated in place. */
  class Collection {
    var docs: seq<Value>

    constructor (documents: seq<Value>)
      ensures docs == documents
    {
      docs := documents;
    }

    method FindOne(imsi: string) returns (r: Option<Value>)
      ensures r == Find(docs, imsi)
    {
      var i := 0;
      while i < |docs|
        invariant i <= |docs|
        invariant Find(docs, imsi) == Find(docs[i..], imsi)
      {
        if HasImsi(docs[i], imsi) { return Some(docs[i]); }
        i := i + 1;
      }
      return None;
    }

    method InsertOne(doc: Value, id: Value)
      modifies this
      ensures docs == old(docs) + [WithId(doc, id)]
    {
      docs := docs + [WithId(doc, id)];
    }

    method ReplaceOne(imsi: string, doc: Value)
      modifies this
      ensures docs == ReplaceFirst(old(docs), imsi, doc)
    {
      var i := 0;
      while i < |docs|
        invariant i <= |docs| && docs == old(docs)
        invariant ReplaceFirst(docs, imsi, doc) == docs[..i] + ReplaceFirst(docs[i..], imsi, doc)
      {
        ReplaceFrom(docs, imsi, doc, i);
        if HasImsi(docs[i], imsi) {
          docs := docs[..i] + [Replacement(docs[i], doc)] + docs[i + 1..];
          return;
        }
        i := i + 1;
      }
      assert docs == docs[..i];
    }

    method DeleteStrays(imsis: set<string>) returns (removed: nat)
      modifies this
      ensures docs == Keep(old(docs), imsis) && removed == |old(docs)| - |docs|
    {
      var kept: seq<Value>, i := [], 0;
      removed := 0;
      while i < |docs|
        invariant i <= |docs| && docs == old(docs) && removed == i - |kept|
        invariant Keep(docs, imsis) == kept + Keep(docs[i..], imsis)
      {
        if Marked(docs[i]) || Listed(imsis, docs[i]) {
          assert kept + ([docs[i]] + Keep(docs[i + 1..], imsis)) == (kept + [docs[i]]) + Keep(docs[i + 1..], imsis);
          kept := kept + [docs[i]];
        } else {
          removed := removed + 1;
        }
        i := i + 1;
      }
      docs := kept;
    }

    method DeleteRoamer(imsi: string) returns (deleted: bool)
      modifies this
      ensures docs == DropRoamer(old(docs), imsi)
      ensures deleted <==> exists d | d in old(docs) :: HasImsi(d, imsi) && Marked(d)
    {
      var i := 0;
      while i < |docs|
        invariant i <= |docs| && docs == old(docs)
        invariant forall j | 0 <= j < i :: !(HasImsi(docs[j], imsi) && Marked(docs[j]))
      {
        if HasImsi(docs[i], imsi) && Marked(docs[i]) {
          DropAt(docs, imsi, i);
          assert docs[i] in docs;
          docs := docs[..i] + docs[i + 1..];
          return true;
        }
        i := i + 1;
      }
      DropNone(docs, imsi);
      return false;
    }
  }

  lemma {:induction false} DropAt(docs: seq<Value>, imsi: string, i: nat)
    requires i < |docs| && HasImsi(docs[i], imsi) && Marked(docs[i])
    requires forall j | 0 <= j < i :: !(HasImsi(docs[j], imsi) && Marked(docs[j]))
    ensures DropRoamer(docs, imsi) == docs[..i] + docs[i + 1..]
  {
    if i > 0 {
      DropAt(docs[1..], imsi, i - 1);
      assert [docs[0]] + (docs[1..][..i - 1] + docs[1..][i..]) == docs[..i] + docs[i + 1..];
    }
  }

  lemma {:induction false} DropNone(docs: seq<Value>, imsi: string)
    requires forall j | 0 <= j < |docs| :: !(HasImsi(docs[j], imsi) && Marked(docs[j]))
    ensures DropRoamer(docs, imsi) == docs
  {
    if docs != [] { DropNone(docs[1..], imsi); }
  }
}
