/**
 * The worker's upsert_q_items_to_chromadb: the collection is looked up
 * (and created when the lookup error says it is missing), then every item
 * gives one id, one document and one metadata dict, in item order, and
 * the three lists go to the collection's upsert in one call. Python's
 * repr of a list or dict (what str() gives for them) is a parameter.
 */
module UpsertChroma {
  import opened Wrappers
  import Text
  import Json
  import Seqs

  type Value = Json.Json

  /** A Python dict with string keys, in insertion order. */
  type Dict = seq<(string, Value)>

  const DefaultCollection: string := "drug_data"

  /** The label fields that go into the document (in this order) and into the metadata. */
  const LabelKeys: seq<string> := [
    "indicationsAndUsage", "dosageAndAdministration", "dosageFormsAndStrengths",
    "warningsAndPrecautions", "adverseReactions", "clinicalPharmacology",
    "clinicalStudies", "howSupplied", "useInSpecificPopulations", "description",
    "nonclinicalToxicology", "instructionsForUse", "mechanismOfAction",
    "contraindications", "boxedWarning"]

  /** d.get(key, default) */
  function GetOr(d: Dict, key: string, default: Value): Value
  {
    Json.Get(d, key).GetOr(default)
  }

  /** str(v): a string itself, None, True, False, the digits of an int, and repr for a list or dict. */
  function PyStr(v: Value, repr: Value -> string): string
  {
    match v
    case Str(s) => s
    case Null => "None"
    case Bool(b) => if b then "True" else "False"
    case Num(n) => Text.IntToString(n)
    case _ => repr(v)
  }

  // ---- the document -------------------------------------------------------------------

  /** str(d.get(key, '')).strip() */
  function Part(d: Dict, key: string, repr: Value -> string): string
  {
    Text.PyStrip(PyStr(GetOr(d, key, Json.Str("")), repr))
  }

  /** The sixteen pieces of the document: the label fields, then the highlights' dosageAndAdministration. */
  function Parts(labelDict: Dict, highlights: Dict, repr: Value -> string): (r: seq<string>)
    ensures |r| == |LabelKeys| + 1
  {
    seq(|LabelKeys|, k requires 0 <= k < |LabelKeys| => Part(labelDict, LabelKeys[k], repr)) +
    [Part(highlights, "dosageAndAdministration", repr)]
  }

  /** The document text: the pieces joined by single spaces. */
  function Document(labelDict: Dict, highlights: Dict, repr: Value -> string): string
  {
    Text.Join(Parts(labelDict, highlights, repr), " ")
  }

  /** A field the dict does not have contributes nothing. */
  lemma PartMissing(d: Dict, key: string, repr: Value -> string)
    requires Json.Get(d, key).None?
    ensures Part(d, key, repr) == ""
  {
    Text.TrimUnchanged("", Text.PyIsSpace);
  }

  /** A field that holds None contributes the text None. */
  lemma PartNone(d: Dict, key: string, repr: Value -> string)
    requires Json.Get(d, key) == Some(Json.Null)
    ensures Part(d, key, repr) == "None"
  {
    Text.TrimUnchanged("None", Text.PyIsSpace);
  }

  /** A field that holds a string contributes that string stripped. */
  lemma PartString(d: Dict, key: string, s: string, repr: Value -> string)
    requires Json.Get(d, key) == Some(Json.Str(s))
    ensures Part(d, key, repr) == Text.PyStrip(s)
  {
  }

  /** No piece holds a space: splitting the document at spaces gives the sixteen pieces back. */
  lemma DocumentSplit(labelDict: Dict, highlights: Dict, repr: Value -> string)
    requires Text.FreeOf(Parts(labelDict, highlights, repr), ' ')
    ensures Text.Split(Document(labelDict, highlights, repr), ' ') == Parts(labelDict, highlights, repr)
  {
    Text.SplitJoin(Parts(labelDict, highlights, repr), ' ');
  }

  // ---- the metadata -------------------------------------------------------------------

  /** A key is there with a value that is not None. */
  predicate Present(d: Dict, key: string)
  {
    Json.Get(d, key).Some? && !Json.Get(d, key).value.Null?
  }

  /** The label part of the metadata: each key whose label value is not None, in order. */
  function LabelMeta(labelDict: Dict, keys: seq<string>): Dict
    decreases |keys|
  {
    if keys == [] then []
    else
      var key := keys[|keys| - 1];
      LabelMeta(labelDict, keys[..|keys| - 1]) + (if Present(labelDict, key) then [(key, Json.Get(labelDict, key).value)] else [])
  }

  /** item_id when the item's setId is not None. */
  function IdMeta(item: Dict): Dict
  {
    if Present(item, "setId") then [("item_id", Json.Get(item, "setId").value)] else []
  }

  /** The metadata dict of one item. */
  function Metadata(item: Dict, labelDict: Dict): Dict
  {
    IdMeta(item) + LabelMeta(labelDict, LabelKeys)
  }

  /** Looking a key up in two dicts written one after the other. */
  lemma {:induction false} GetAppend(a: Dict, b: Dict, key: string)
    ensures Json.Get(a + b, key) == if Json.Get(a, key).Some? then Json.Get(a, key) else Json.Get(b, key)
    decreases |a|
  {
    if a == [] {
      assert a + b == b;
    } else {
      assert (a + b)[1..] == a[1..] + b;
      GetAppend(a[1..], b, key);
    }
  }

  /** The label part holds exactly the listed keys whose value is not None, each with the label's value. */
  lemma {:induction false} LabelMetaGet(labelDict: Dict, keys: seq<string>, key: string)
    ensures Json.Get(LabelMeta(labelDict, keys), key) ==
      if key in keys && Present(labelDict, key) then Json.Get(labelDict, key) else None
    decreases |keys|
  {
    if keys != [] {
      var init := keys[..|keys| - 1];
      var last := keys[|keys| - 1];
      assert keys == init + [last];
      LabelMetaGet(labelDict, init, key);
      var tail := if Present(labelDict, last) then [(last, Json.Get(labelDict, last).value)] else [];
      GetAppend(LabelMeta(labelDict, init), tail, key);
    }
  }

  /**
   * The metadata has item_id exactly when setId is not None, and each
   * listed label key exactly when its value is not None, with that value.
   */
  lemma MetadataGet(item: Dict, labelDict: Dict, key: string)
    ensures key == "item_id" ==>
      Json.Get(Metadata(item, labelDict), key) == if Present(item, "setId") then Json.Get(item, "setId") else None
    ensures key != "item_id" ==>
      Json.Get(Metadata(item, labelDict), key) == if key in LabelKeys && Present(labelDict, key) then Json.Get(labelDict, key) else None
  {
    GetAppend(IdMeta(item), LabelMeta(labelDict, LabelKeys), key);
    LabelMetaGet(labelDict, LabelKeys, key);
    ItemIdNotLabelKey();
  }

  lemma ItemIdNotLabelKey()
    ensures "item_id" !in LabelKeys
  {
  }

  /** The metadata loop over the label keys, as the source writes it. */
  method MetadataOf(item: Dict, labelDict: Dict) returns (metadata: Dict)
    ensures metadata == Metadata(item, labelDict)
  {
    metadata := [];
    if Present(item, "setId") {
      metadata := [("item_id", Json.Get(item, "setId").value)];
    }
    var i := 0;
    while i < |LabelKeys|
      invariant 0 <= i <= |LabelKeys|
      invariant metadata == IdMeta(item) + LabelMeta(labelDict, LabelKeys[..i])
    {
      var key := LabelKeys[i];
      var value := GetOr(labelDict, key, Json.Null);
      if !value.Null? {
        metadata := metadata + [(key, value)];
      }
      assert LabelKeys[..i + 1][..i] == LabelKeys[..i];
      i := i + 1;
    }
    assert LabelKeys[..|LabelKeys|] == LabelKeys;
  }

  // ---- one item -----------------------------------------------------------------------

  /** item['label'] when the item is a dict and its label is one; None where Python raises. */
  function LabelOf(item: Value): Option<Dict>
  {
    if !item.Obj? then None
    else
      match Json.Get(item.fields, "label")
      case Some(Obj(fs)) => Some(fs)
      case _ => None
  }

  /** What one item adds (id, document, metadata), or None when reading it raises. */
  function Entry(item: Value, repr: Value -> string): Option<(string, string, Dict)>
  {
    match LabelOf(item)
    case None => None
    case Some(labelDict) =>
      match GetOr(labelDict, "highlights", Json.Obj([]))
      case Obj(highlights) =>
        if Json.Get(item.fields, "setId").None? then None
        else Some((PyStr(Json.Get(item.fields, "setId").value, repr),
                   Document(labelDict, highlights, repr),
                   Metadata(item.fields, labelDict)))
      case _ => None
  }

  /**
   * An item goes through exactly when it is a dict with a dict label, a
   * dict (or missing) highlights and a setId key; its id is str(setId).
   */
  lemma EntryMeaning(item: Value, repr: Value -> string)
    ensures Entry(item, repr).Some? <==>
      LabelOf(item).Some? && GetOr(LabelOf(item).value, "highlights", Json.Obj([])).Obj? &&
      Json.Get(item.fields, "setId").Some?
    ensures Entry(item, repr).Some? ==>
      Entry(item, repr).value.0 == PyStr(Json.Get(item.fields, "setId").value, repr) &&
      Entry(item, repr).value.2 == Metadata(item.fields, LabelOf(item).value)
  {
  }

  // ---- the batch ----------------------------------------------------------------------

  /** The three parallel lists handed to collection.upsert. */
  datatype Batch = Batch(ids: seq<string>, documents: seq<string>, metadatas: seq<Dict>)

  /** The three lists have one entry per position. */
  predicate Aligned(b: Batch)
  {
    |b.documents| == |b.ids| && |b.metadatas| == |b.ids|
  }

  /** The lists that hold the entries' ids, documents and metadata, in order. */
  function Unzip(es: seq<(string, string, Dict)>): (b: Batch)
    ensures Aligned(b) && |b.ids| == |es|
  {
    Batch(seq(|es|, k requires 0 <= k < |es| => es[k].0),
          seq(|es|, k requires 0 <= k < |es| => es[k].1),
          seq(|es|, k requires 0 <= k < |es| => es[k].2))
  }

  /** Position k of the three lists is entry k. */
  lemma UnzipEntries(es: seq<(string, string, Dict)>)
    ensures forall k :: 0 <= k < |es| ==> es[k] == (Unzip(es).ids[k], Unzip(es).documents[k], Unzip(es).metadatas[k])
  {
  }

  /** One more entry extends each list. */
  lemma UnzipStep(es: seq<(string, string, Dict)>, e: (string, string, Dict))
    ensures var b := Unzip(es); Unzip(es + [e]) == Batch(b.ids + [e.0], b.documents + [e.1], b.metadatas + [e.2])
  {
    var b := Unzip(es);
    var c := Unzip(es + [e]);
    assert c.ids == b.ids + [e.0];
    assert c.documents == b.documents + [e.1];
    assert c.metadatas == b.metadatas + [e.2];
  }

  function EntryFn(repr: Value -> string): Value -> Option<(string, string, Dict)>
  {
    item => Entry(item, repr)
  }

  /** The entries of the items in order, or None once one raises. */
  function Entries(items: seq<Value>, repr: Value -> string): Option<seq<(string, string, Dict)>>
  {
    Seqs.Traverse(items, EntryFn(repr))
  }

  /** One more item that goes through adds its entry. */
  lemma EntriesStep(items: seq<Value>, repr: Value -> string, i: nat, entries: seq<(string, string, Dict)>,
                    e: (string, string, Dict))
    requires i < |items| && Entries(items[..i], repr) == Some(entries) && Entry(items[i], repr) == Some(e)
    ensures Entries(items[..i + 1], repr) == Some(entries + [e])
  {
    Seqs.TraversePrefixStep(items, EntryFn(repr), i, entries, e);
  }

  /** An item that raises leaves no batch. */
  lemma EntryFails(items: seq<Value>, repr: Value -> string, i: nat, entries: seq<(string, string, Dict)>)
    requires i < |items| && Entries(items[..i], repr) == Some(entries) && Entry(items[i], repr).None?
    ensures Entries(items, repr).None?
  {
    assert EntryFn(repr)(items[i]).None?;
    Seqs.TraverseFailsAt(items, EntryFn(repr), i);
  }

  /** The lists after the items in order, or None once one raises. */
  function BatchOf(items: seq<Value>, repr: Value -> string): (r: Option<Batch>)
    ensures r.Some? ==> Aligned(r.value) && |r.value.ids| == |items|
  {
    match Entries(items, repr)
    case None => None
    case Some(es) => Some(Unzip(es))
  }

  /**
   * The batch exists exactly when no item raises, and then each list has
   * one entry per item, entry k being item k's.
   */
  lemma BatchEntries(items: seq<Value>, repr: Value -> string)
    ensures BatchOf(items, repr).Some? <==> forall k :: 0 <= k < |items| ==> Entry(items[k], repr).Some?
    ensures BatchOf(items, repr).Some? ==>
      var b := BatchOf(items, repr).value;
      forall k :: 0 <= k < |items| ==> Entry(items[k], repr) == Some((b.ids[k], b.documents[k], b.metadatas[k]))
  {
    Seqs.TraverseAll(items, EntryFn(repr));
    if Entries(items, repr).Some? {
      UnzipEntries(Entries(items, repr).value);
    }
  }

  /** One pass of the loop: the item's id, document and metadata, or None where Python raises. */
  method EntryOf(item: Value, repr: Value -> string) returns (e: Option<(string, string, Dict)>)
    ensures e == Entry(item, repr)
  {
    var labelDict := LabelOf(item);
    if labelDict.None? {
      return None;
    }
    var highlights := GetOr(labelDict.value, "highlights", Json.Obj([]));
    if !highlights.Obj? {
      return None;
    }
    var text := Document(labelDict.value, highlights.fields, repr);
    var metadata := MetadataOf(item.fields, labelDict.value);
    var setId := Json.Get(item.fields, "setId");
    if setId.None? {
      return None;
    }
    return Some((PyStr(setId.value, repr), text, metadata));
  }

  /**
   * One pass of the loop over the items, stated against Entries: either the
   * lists grow by item i's entry, or item i raises and the whole batch is
   * gone.
   */
  method AppendEntry(items: seq<Value>, repr: Value -> string, i: nat, ghost entries: seq<(string, string, Dict)>,
                     ids: seq<string>, documents: seq<string>, metadatas: seq<Dict>)
    returns (ok: bool, ghost entries': seq<(string, string, Dict)>, ids': seq<string>, documents': seq<string>, metadatas': seq<Dict>)
    requires i < |items| && Entries(items[..i], repr) == Some(entries)
    requires Batch(ids, documents, metadatas) == Unzip(entries)
    ensures ok ==> Entries(items[..i + 1], repr) == Some(entries') && Batch(ids', documents', metadatas') == Unzip(entries')
    ensures !ok ==> BatchOf(items, repr).None?
  {
    var e := EntryOf(items[i], repr);
    if e.None? {
      EntryFails(items, repr, i, entries);
      return false, entries, ids, documents, metadatas;
    }
    EntriesStep(items, repr, i, entries, e.value);
    UnzipStep(entries, e.value);
    return true, entries + [e.value], ids + [e.value.0], documents + [e.value.1], metadatas + [e.value.2];
  }

  /** The loop over the items: one id, document and metadata appended per item. */
  method Prepare(items: seq<Value>, repr: Value -> string) returns (r: Option<Batch>)
    ensures r == BatchOf(items, repr)
  {
    ghost var entries: seq<(string, string, Dict)> := [];
    var ids: seq<string> := [];
    var documents: seq<string> := [];
    var metadatas: seq<Dict> := [];
    var i := 0;
    while i < |items|
      invariant 0 <= i <= |items|
      invariant Entries(items[..i], repr) == Some(entries)
      invariant Batch(ids, documents, metadatas) == Unzip(entries)
    {
      var ok;
      ok, entries, ids, documents, metadatas := AppendEntry(items, repr, i, entries, ids, documents, metadatas);
      if !ok {
        return None;
      }
      i := i + 1;
    }
    assert items[..|items|] == items;
    return Some(Batch(ids, documents, metadatas));
  }

  // ---- the collection -----------------------------------------------------------------

  /** What an error from get_collection leads to. */
  datatype Access = Create | Reraise

  /** A message that says, in any letter case, that the collection is not found or does not exist. */
  predicate SaysMissing(message: string)
  {
    var m := Text.AsciiLowerString(message);
    Text.Contains(m, "not found") || Text.Contains(m, "does not exist")
  }

  /** The except branch: create the collection when the error says it is missing, otherwise re-raise. */
  function OnLookupError(message: string): (a: Access)
    ensures a == Create <==> SaysMissing(message)
  {
    if SaysMissing(message) then Create else Reraise
  }

  lemma {:induction false} LowerTwice(s: string)
    ensures Text.AsciiLowerString(Text.AsciiLowerString(s)) == Text.AsciiLowerString(s)
  {
    var l := Text.AsciiLowerString(s);
    forall k | 0 <= k < |s|
      ensures Text.AsciiLower(l[k]) == l[k]
    {
    }
  }

  /** The test ignores letter case: lower-casing the message first changes nothing. */
  lemma LookupIgnoresCase(message: string)
    ensures OnLookupError(Text.AsciiLowerString(message)) == OnLookupError(message)
  {
    LowerTwice(message);
  }

  /** A message too short to hold either phrase is re-raised. */
  lemma ShortMessageReraised(message: string)
    requires |message| < |"not found"|
    ensures OnLookupError(message) == Reraise
  {
  }

  /** The message the server gives for a missing collection leads to its creation. */
  lemma MissingCollectionCreated()
    ensures OnLookupError("Collection drug_data does not exist.") == Create
  {
    var m := Text.AsciiLowerString("Collection drug_data does not exist.");
    assert m[21..35] == "does not exist";
    assert Text.OccursAt(m, "does not exist", 21);
  }

  /**
   * collection.upsert: each id gets its document and metadata. For a batch
   * that repeats an id, which Chroma's own validation rejects, the model
   * keeps the later entry; that validation is not modelled.
   */
  function Stored(records: map<string, (string, Dict)>, b: Batch): map<string, (string, Dict)>
    requires Aligned(b)
    decreases |b.ids|
  {
    if b.ids == [] then records
    else
      var n := |b.ids| - 1;
      Stored(records, Batch(b.ids[..n], b.documents[..n], b.metadatas[..n]))[b.ids[n] := (b.documents[n], b.metadatas[n])]
  }

  /** For an id the batch uses, the record is its last entry's document and metadata. */
  lemma {:induction false} StoredLatest(records: map<string, (string, Dict)>, b: Batch, k: nat)
    requires Aligned(b)
    requires k < |b.ids|
    requires forall j :: k < j < |b.ids| ==> b.ids[j] != b.ids[k]
    ensures var m := Stored(records, b); b.ids[k] in m && m[b.ids[k]] == (b.documents[k], b.metadatas[k])
    decreases |b.ids|
  {
    var n := |b.ids| - 1;
    if k < n {
      StoredLatest(records, Batch(b.ids[..n], b.documents[..n], b.metadatas[..n]), k);
    }
  }

  /** An id the batch does not use keeps its record, and no record appears for it. */
  lemma {:induction false} StoredUntouched(records: map<string, (string, Dict)>, b: Batch, x: string)
    requires Aligned(b)
    requires x !in b.ids
    ensures var m := Stored(records, b); (x in m <==> x in records) && (x in records ==> m[x] == records[x])
    decreases |b.ids|
  {
    if b.ids != [] {
      var n := |b.ids| - 1;
      StoredUntouched(records, Batch(b.ids[..n], b.documents[..n], b.metadatas[..n]), x);
    }
  }

  /** The Chroma server: its collections, each a map from id to document and metadata. */
  class Server {
    var collections: map<string, map<string, (string, Dict)>>

    constructor (collections: map<string, map<string, (string, Dict)>>)
      ensures this.collections == collections
    {
      this.collections := collections;
    }

    /**
     * upsert_q_items_to_chromadb. lookupError is the error get_collection
     * raised, None when it returned the collection. A lookup error that does
     * not say the collection is missing is re-raised and nothing changes; one
     * that does creates the collection empty. Then the batch is built; an
     * item that raises leaves the (possibly new) collection as it is. A
     * built batch is stored unless collection.upsert raises (upsertFails:
     * the server rejects the batch or cannot be reached), which stores
     * nothing and propagates.
     */
    method UpsertItems(items: seq<Value>, name: string, lookupError: Option<string>, repr: Value -> string,
                       upsertFails: bool)
      returns (raised: bool)
      requires lookupError.None? ==> name in collections
      modifies this
      ensures lookupError.Some? && OnLookupError(lookupError.value) == Reraise ==>
        raised && collections == old(collections)
      ensures lookupError.None? || OnLookupError(lookupError.value) == Create ==>
        var start := if lookupError.None? then old(collections) else old(collections)[name := map[]];
        (raised <==> BatchOf(items, repr).None? || upsertFails) &&
        collections == if raised then start else start[name := Stored(start[name], BatchOf(items, repr).value)]
    {
      if lookupError.Some? {
        if OnLookupError(lookupError.value) == Reraise {
          return true;
        }
        collections := collections[name := map[]];
      }
      var batch := Prepare(items, repr);
      if batch.None? || upsertFails {
        return true;
      }
      collections := collections[name := Stored(collections[name], batch.value)];
      return false;
    }
  }
}
