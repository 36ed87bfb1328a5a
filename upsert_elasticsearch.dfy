/**
 * The worker's upsert_items_to_elasticsearch: when the cluster answers a
 * ping, the index is created with its field mapping if it is missing, and
 * every vector-ready item whose setId is truthy is indexed under that id
 * (a new document or a replacement). Items without one are skipped. An
 * exception stops the loop; what was indexed before it stays.
 */
module UpsertElasticsearch {
  import opened Wrappers
  import Json

  type Value = Json.Json

  /** The document: field names in order with their values. */
  type Doc = seq<(string, Value)>

  const DefaultIndex: string := "drugs_db"

  /** Where a document field comes from: a key of the item, a key of its label, or a tag field of the item. */
  datatype Source =
    | Top(key: string, default: Value)
    | Label(key: string, default: Value)
    | Tags(key: string)

  /** The document's k-th field (of FieldCount), with its source and default. */
  function FieldTable(k: nat): (string, Source)
  {
    match k
    case 0 => ("setId", Top("setId", Json.Null))
    case 1 => ("drugName", Top("drugName", Json.Str("")))
    case 2 => ("slug", Top("slug", Json.Null))
    case 3 => ("genericName", Label("genericName", Json.Str("")))
    case 4 => ("productType", Label("productType", Json.Str("")))
    case 5 => ("title", Label("title", Json.Null))
    case 6 => ("metaDescription", Top("metaDescription", Json.Str("")))
    case 7 => ("description", Top("description", Json.Str("")))
    case 8 => ("useAndConditions", Top("useAndConditions", Json.Str("")))
    case 9 => ("contraIndications", Top("contraIndications", Json.Str("")))
    case 10 => ("warnings", Top("warnings", Json.Str("")))
    case 11 => ("dosing", Top("dosing", Json.Str("")))
    case 12 => ("indicationsAndUsage", Label("indicationsAndUsage", Json.Str("")))
    case 13 => ("dosageAndAdministration", Label("dosageAndAdministration", Json.Str("")))
    case 14 => ("dosageFormsAndStrengths", Label("dosageFormsAndStrengths", Json.Str("")))
    case 15 => ("warningsAndPrecautions", Label("warningsAndPrecautions", Json.Str("")))
    case 16 => ("adverseReactions", Label("adverseReactions", Json.Str("")))
    case 17 => ("clinicalPharmacology", Label("clinicalPharmacology", Json.Str("")))
    case 18 => ("clinicalStudies", Label("clinicalStudies", Json.Str("")))
    case 19 => ("howSupplied", Label("howSupplied", Json.Str("")))
    case 20 => ("useInSpecificPopulations", Label("useInSpecificPopulations", Json.Str("")))
    case 21 => ("nonclinicalToxicology", Label("nonclinicalToxicology", Json.Str("")))
    case 22 => ("instructionsForUse", Label("instructionsForUse", Json.Str("")))
    case 23 => ("mechanismOfAction", Label("mechanismOfAction", Json.Str("")))
    case 24 => ("contraindications", Label("contraindications", Json.Str("")))
    case 25 => ("boxedWarning", Label("boxedWarning", Json.Str("")))
    case 26 => ("ai_warnings", Top("warnings", Json.Str("")))
    case 27 => ("ai_dosing", Top("dosing", Json.Str("")))
    case 28 => ("ai_use_and_conditions", Top("useAndConditions", Json.Str("")))
    case 29 => ("ai_contraindications", Top("contraIndications", Json.Str("")))
    case 30 => ("ai_description", Top("description", Json.Str("")))
    case 31 => ("tags_condition", Tags("tags_condition"))
    case 32 => ("tags_substance", Tags("tags_substance"))
    case 33 => ("tags_indications", Tags("tags_indications"))
    case 34 => ("tags_strengths_concentrations", Tags("tags_strengths_concentrations"))
    case 35 => ("tags_population", Tags("tags_population"))
    case 36 => ("labeler", Top("labeler", Json.Str("Unknown")))
    case _ => ("highlights", Label("highlights", Json.Obj([])))
  }

  const FieldCount: nat := 38

  /** The document's fields in order, each with its source and default. */
  const DocFields: seq<(string, Source)> := seq(FieldCount, k requires 0 <= k < FieldCount => FieldTable(k))

  /** The index mapping: each field with its Elasticsearch type. */
  const Mapping: seq<(string, string)> := [
    ("setId", "keyword"), ("drugName", "text"), ("slug", "keyword"),
    ("genericName", "text"), ("productType", "keyword"), ("title", "text"),
    ("metaDescription", "text"), ("description", "text"), ("useAndConditions", "text"),
    ("contraIndications", "text"), ("warnings", "text"), ("dosing", "text"),
    ("indicationsAndUsage", "text"), ("dosageAndAdministration", "text"),
    ("dosageFormsAndStrengths", "text"), ("warningsAndPrecautions", "text"),
    ("adverseReactions", "text"), ("clinicalPharmacology", "text"),
    ("clinicalStudies", "text"), ("howSupplied", "text"),
    ("useInSpecificPopulations", "text"), ("nonclinicalToxicology", "text"),
    ("instructionsForUse", "text"), ("mechanismOfAction", "text"),
    ("contraindications", "text"), ("boxedWarning", "text"),
    ("ai_warnings", "text"), ("ai_dosing", "text"), ("ai_use_and_conditions", "text"),
    ("ai_contraindications", "text"), ("ai_description", "text"),
    ("tags_condition", "keyword"), ("tags_substance", "keyword"),
    ("tags_indications", "keyword"), ("tags_strengths_concentrations", "keyword"),
    ("tags_population", "keyword"), ("labeler", "keyword"), ("highlights", "object")]

  /** One shard, no replicas. */
  const Shards: nat := 1
  const Replicas: nat := 0

  /** The mapping declares every document field, in the same order. */
  lemma MappingCoversDoc()
    ensures |Mapping| == |DocFields|
    ensures forall k :: 0 <= k < |Mapping| ==> Mapping[k].0 == DocFields[k].0
  {
  }

  /** The ai_* fields repeat the item's own warnings, dosing, useAndConditions, contraIndications and description. */
  lemma AiFieldsDuplicate()
    ensures DocFields[26].0 == "ai_warnings" && DocFields[26].1 == DocFields[10].1 && DocFields[10].0 == "warnings"
    ensures DocFields[27].0 == "ai_dosing" && DocFields[27].1 == DocFields[11].1 && DocFields[11].0 == "dosing"
    ensures DocFields[28].0 == "ai_use_and_conditions" && DocFields[28].1 == DocFields[8].1 && DocFields[8].0 == "useAndConditions"
    ensures DocFields[29].0 == "ai_contraindications" && DocFields[29].1 == DocFields[9].1 && DocFields[9].0 == "contraIndications"
    ensures DocFields[30].0 == "ai_description" && DocFields[30].1 == DocFields[7].1 && DocFields[7].0 == "description"
  {
  }

  /** d.get(key, default) */
  function GetOr(fields: seq<(string, Value)>, key: string, default: Value): Value
  {
    Json.Get(fields, key).GetOr(default)
  }

  /**
   * get_safe_tags: a dict's 'tags' value, or [] when the field is None, is
   * not a dict, or has no (or a None) 'tags'.
   */
  function GetSafeTags(field: Value): (r: Value)
    ensures !r.Null?
    ensures !field.Obj? ==> r == Json.Arr([])
    ensures field.Obj? ==> (r == Json.Arr([]) <==>
      (Json.Get(field.fields, "tags").None? || Json.Get(field.fields, "tags") == Some(Json.Null) ||
       Json.Get(field.fields, "tags") == Some(Json.Arr([]))))
    ensures field.Obj? && Json.Get(field.fields, "tags").Some? && !Json.Get(field.fields, "tags").value.Null? ==>
      r == Json.Get(field.fields, "tags").value
  {
    if field.Null? then Json.Arr([])
    else
      var tags := if field.Obj? then Json.Get(field.fields, "tags").GetOr(Json.Null) else Json.Null;
      if !tags.Null? then tags else Json.Arr([])
  }

  /** One field's value. */
  function Resolve(src: Source, item: seq<(string, Value)>, labelFields: seq<(string, Value)>): Value
  {
    match src
    case Top(key, d) => GetOr(item, key, d)
    case Label(key, d) => GetOr(labelFields, key, d)
    case Tags(key) => GetSafeTags(GetOr(item, key, Json.Null))
  }

  /** item['label'] when it is a dict; None when it is missing or not a dict (the source then raises). */
  function LabelOf(item: seq<(string, Value)>): (r: Option<seq<(string, Value)>>)
    ensures r.Some? ==> Json.Get(item, "label") == Some(Json.Obj(r.value))
    ensures r.None? ==> Json.Get(item, "label").None? || !Json.Get(item, "label").value.Obj?
  {
    match Json.Get(item, "label")
    case Some(Obj(fs)) => Some(fs)
    case _ => None
  }

  /**
   * The document for one item, or None when building it raises: the item
   * is not a dict, has no drugName, or has no dict label.
   */
  function DocOf(item: Value): Option<Doc>
  {
    if !item.Obj? || Json.Get(item.fields, "drugName").None? then None
    else
      match LabelOf(item.fields)
      case None => None
      case Some(labelFields) =>
        Some(seq(|DocFields|, k requires 0 <= k < |DocFields| => (DocFields[k].0, Resolve(DocFields[k].1, item.fields, labelFields))))
  }

  /** A document is built exactly when the item is a dict with a drugName and a dict label. */
  lemma DocBuilds(item: Value)
    ensures DocOf(item).Some? <==> item.Obj? && Json.Get(item.fields, "drugName").Some? && LabelOf(item.fields).Some?
  {
  }

  /** A document has the mapping's fields, in the mapping's order. */
  lemma DocKeys(item: Value)
    requires DocOf(item).Some?
    ensures |DocOf(item).value| == |Mapping|
    ensures forall k :: 0 <= k < |Mapping| ==> DocOf(item).value[k].0 == Mapping[k].0
  {
    MappingCoversDoc();
  }

  /** A document's labeler is the item's labeler, 'Unknown' when it has none. */
  lemma DocLabeler(item: Value)
    requires DocOf(item).Some?
    ensures DocOf(item).value[36] == ("labeler", GetOr(item.fields, "labeler", Json.Str("Unknown")))
  {
  }

  /** The id an item is indexed under: item.get('setId'). */
  function DocId(item: Value): Value
    requires item.Obj?
  {
    GetOr(item.fields, "setId", Json.Null)
  }

  /**
   * What the loop does with one item: it raises (None), skips the item
   * (Some(None)), or indexes a document under an id.
   */
  function Step(item: Value): Option<Option<(Value, Doc)>>
  {
    match DocOf(item)
    case None => None
    case Some(doc) => if Json.Truthy(DocId(item)) then Some(Some((DocId(item), doc))) else Some(None)
  }

  /**
   * The loop as a specification: the documents after the steps of the
   * items in order, the number indexed, and whether the loop ran to the end
   * (false once a step raised; later items are not looked at).
   */
  function Apply<T, K, V>(base: map<K, V>, items: seq<T>, step: T -> Option<Option<(K, V)>>): (r: (map<K, V>, nat, bool))
    ensures r.1 <= |items|
    decreases |items|
  {
    if items == [] then (base, 0, true)
    else
      var prev := Apply(base, items[..|items| - 1], step);
      if !prev.2 then prev
      else
        match step(items[|items| - 1])
        case None => (prev.0, prev.1, false)
        case Some(None) => prev
        case Some(Some(entry)) => (prev.0[entry.0 := entry.1], prev.1 + 1, true)
  }

  /** Once a step raised, the later items change nothing. */
  lemma {:induction false} ApplyStops<T, K, V>(base: map<K, V>, items: seq<T>, step: T -> Option<Option<(K, V)>>, i: nat)
    requires i <= |items|
    requires !Apply(base, items[..i], step).2
    ensures Apply(base, items, step) == Apply(base, items[..i], step)
    decreases |items|
  {
    if i < |items| {
      var n := |items| - 1;
      assert items[..n][..i] == items[..i];
      ApplyStops(base, items[..n], step, i);
    } else {
      assert items[..i] == items;
    }
  }

  /** The loop stops at the first step that raises, keeping what was indexed before it. */
  lemma ApplyFails<T, K, V>(base: map<K, V>, items: seq<T>, step: T -> Option<Option<(K, V)>>, i: nat)
    requires i < |items| && Apply(base, items[..i], step).2 && step(items[i]).None?
    ensures var prev := Apply(base, items[..i], step); Apply(base, items, step) == (prev.0, prev.1, false)
  {
    assert items[..i + 1][..i] == items[..i];
    ApplyStops(base, items, step, i + 1);
  }

  /** One more step that does not raise. */
  lemma ApplyStep<T, K, V>(base: map<K, V>, items: seq<T>, step: T -> Option<Option<(K, V)>>, i: nat)
    requires i < |items| && Apply(base, items[..i], step).2 && step(items[i]).Some?
    ensures var prev := Apply(base, items[..i], step); var s := step(items[i]).value;
      Apply(base, items[..i + 1], step) ==
        if s.Some? then (prev.0[s.value.0 := s.value.1], prev.1 + 1, true) else prev
  {
    assert items[..i + 1][..i] == items[..i];
  }

  /** How many items a step indexes. */
  function CountIndexed<T, K, V>(items: seq<T>, step: T -> Option<Option<(K, V)>>): (n: nat)
    ensures n <= |items|
    decreases |items|
  {
    if items == [] then 0
    else
      var s := step(items[|items| - 1]);
      CountIndexed(items[..|items| - 1], step) + (if s.Some? && s.value.Some? then 1 else 0)
  }

  /**
   * When no step raises, the loop runs to the end, counts exactly the items
   * that are indexed, and the index holds the old ids plus theirs.
   */
  lemma {:induction false} ApplyComplete<T, K, V>(base: map<K, V>, items: seq<T>, step: T -> Option<Option<(K, V)>>)
    requires forall k :: 0 <= k < |items| ==> step(items[k]).Some?
    ensures Apply(base, items, step).2
    ensures Apply(base, items, step).1 == CountIndexed(items, step)
    ensures forall x :: x in Apply(base, items, step).0 <==>
      x in base || exists k :: 0 <= k < |items| && step(items[k]).value.Some? && step(items[k]).value.value.0 == x
    decreases |items|
  {
    if items != [] {
      var n := |items| - 1;
      var init := items[..n];
      assert forall k :: 0 <= k < n ==> init[k] == items[k];
      ApplyComplete(base, init, step);
    }
  }

  /** The document stored under an id is the one of the last item indexed under that id. */
  lemma {:induction false} ApplyLatest<T, K, V>(base: map<K, V>, items: seq<T>, step: T -> Option<Option<(K, V)>>, k: nat)
    requires forall j :: 0 <= j < |items| ==> step(items[j]).Some?
    requires k < |items| && step(items[k]).value.Some?
    requires forall j :: k < j < |items| && step(items[j]).value.Some? ==>
      step(items[j]).value.value.0 != step(items[k]).value.value.0
    ensures var m := Apply(base, items, step).0; var e := step(items[k]).value.value; e.0 in m && m[e.0] == e.1
    decreases |items|
  {
    var n := |items| - 1;
    var init := items[..n];
    assert forall j :: 0 <= j < n ==> init[j] == items[j];
    ApplyComplete(base, init, step);
    if k < n {
      ApplyLatest(base, init, step, k);
    }
  }

  /** ApplyStep for Step, with the state before the step and the step's outcome named. */
  lemma StepApplied(base: map<Value, Doc>, items: seq<Value>, i: nat, docs: map<Value, Doc>, total: nat,
                    s: Option<Option<(Value, Doc)>>)
    requires i < |items| && Apply(base, items[..i], Step) == (docs, total, true)
    requires s == Step(items[i]) && s.Some?
    ensures s.value.Some? ==> Apply(base, items[..i + 1], Step) == (docs[s.value.value.0 := s.value.value.1], total + 1, true)
    ensures s.value.None? ==> Apply(base, items[..i + 1], Step) == (docs, total, true)
  {
    ApplyStep(base, items, Step, i);
  }

  /**
   * The item raises exactly when its document cannot be built; otherwise it
   * is indexed, under its setId with its document, exactly when that setId
   * is truthy.
   */
  lemma StepMeaning(item: Value)
    ensures Step(item).None? <==> DocOf(item).None?
    ensures Step(item).Some? ==> item.Obj? && (Step(item).value.Some? <==> Json.Truthy(DocId(item)))
    ensures Step(item).Some? && Step(item).value.Some? ==> Step(item).value.value == (DocId(item), DocOf(item).value)
  {
  }

  // ---- cluster errors --------------------------------------------------------------

  /**
   * An error the cluster may raise once it answered the ping: at
   * indices.exists, at indices.create, at the es.index call for the item at
   * a given position of the list, or at indices.refresh.
   */
  datatype EsFault = NoEsFault | ExistsFails | CreateFails | IndexFails(item: nat) | RefreshFails

  /**
   * The es.index call for item p is reached and raises: the loop got to p
   * without an item raising, and item p has a document and a truthy setId.
   */
  predicate IndexHit(base: map<Value, Doc>, items: seq<Value>, fault: EsFault)
  {
    && fault.IndexFails? && fault.item < |items|
    && Apply(base, items[..fault.item], Step).2
    && Step(items[fault.item]).Some? && Step(items[fault.item]).value.Some?
  }

  /**
   * The loop and the refresh after it, with the fault: a failing es.index
   * stops the loop with the documents indexed before it; a failing refresh
   * comes after every document is in; completed is whether the function
   * got to its success message.
   */
  function Outcome(base: map<Value, Doc>, items: seq<Value>, fault: EsFault): (map<Value, Doc>, nat, bool)
  {
    if IndexHit(base, items, fault) then
      var prev := Apply(base, items[..fault.item], Step);
      (prev.0, prev.1, false)
    else
      var r := Apply(base, items, Step);
      if fault.RefreshFails? then (r.0, r.1, false) else r
  }

  /**
   * A failing es.index keeps the documents indexed before it and nothing
   * of its own item or later ones; without a fault in the loop or the
   * refresh, the outcome is the loop's.
   */
  lemma OutcomeMeaning(base: map<Value, Doc>, items: seq<Value>, fault: EsFault)
    ensures IndexHit(base, items, fault) ==>
      !Outcome(base, items, fault).2 &&
      Outcome(base, items, fault).0 == Apply(base, items[..fault.item], Step).0 &&
      Apply(base, items[..fault.item + 1], Step).0 ==
        Outcome(base, items, fault).0[DocId(items[fault.item]) := DocOf(items[fault.item]).value]
    ensures !IndexHit(base, items, fault) && !fault.RefreshFails? ==> Outcome(base, items, fault) == Apply(base, items, Step)
    ensures fault.RefreshFails? ==> Outcome(base, items, fault).0 == Apply(base, items, Step).0 && !Outcome(base, items, fault).2
  {
    if IndexHit(base, items, fault) {
      ApplyStep(base, items, Step, fault.item);
    }
  }

  /** An item that raises before the failing es.index call is reached means that call never happens. */
  lemma RaiseNoHit(base: map<Value, Doc>, items: seq<Value>, i: nat, fault: EsFault)
    requires i < |items| && Apply(base, items[..i], Step).2 && Step(items[i]).None?
    requires !(fault.IndexFails? && fault.item < i && IndexHit(base, items, fault))
    ensures !IndexHit(base, items, fault)
  {
    if fault.IndexFails? && i < fault.item < |items| {
      assert items[..i + 1][..i] == items[..i];
      assert !Apply(base, items[..i + 1], Step).2;
      assert items[..fault.item][..i + 1] == items[..i + 1];
      ApplyStops(base, items[..fault.item], Step, i + 1);
    }
  }

  /**
   * The cluster as the script sees it: whether it answers a ping, and the
   * one index the script writes (whether it exists, its mapping and
   * settings, and its documents by id).
   */
  class Cluster {
    const reachable: bool
    var present: bool
    var mapping: seq<(string, string)>
    var shards: nat
    var replicas: nat
    var docs: map<Value, Doc>

    constructor (reachable: bool)
      ensures this.reachable == reachable && !present && docs == map[]
    {
      this.reachable := reachable;
      present := false;
      mapping := [];
      shards, replicas := 0, 0;
      docs := map[];
    }

    /** es.indices.create(index, body=mapping): the index with the mapping and settings, and no documents. */
    method CreateIndex()
      modifies this
      ensures present && mapping == Mapping && shards == Shards && replicas == Replicas && docs == map[]
    {
      present := true;
      mapping := Mapping;
      shards, replicas := Shards, Replicas;
      docs := map[];
    }

    /**
     * One pass of the loop: build the document and index it (create or
     * replace) under a truthy setId. None when the pass raises: the item
     * has no document, or it has one and a truthy setId and the es.index
     * call fails (indexFails), which stores nothing.
     */
    method IndexItem(item: Value, indexFails: bool) returns (step: Option<Option<(Value, Doc)>>)
      modifies this
      ensures step.None? <==> Step(item).None? || (indexFails && Step(item).value.Some?)
      ensures step.Some? ==> step == Step(item)
      ensures step.Some? && step.value.Some? ==> docs == old(docs)[step.value.value.0 := step.value.value.1]
      ensures !(step.Some? && step.value.Some?) ==> docs == old(docs)
      ensures present == old(present) && mapping == old(mapping) && shards == old(shards) && replicas == old(replicas)
    {
      var doc := DocOf(item);
      if doc.None? {
        return None;
      }
      var id := DocId(item);
      if Json.Truthy(id) {
        if indexFails {
          return None;
        }
        docs := docs[id := doc.value];
        return Some(Some((id, doc.value)));
      }
      return Some(None);
    }

    /**
     * The loop's i-th pass, stated against Apply: either the items up to i
     * are done, or the i-th raised and the loop's outcome for all items is
     * settled.
     */
    method IndexNext(ghost base: map<Value, Doc>, items: seq<Value>, i: nat, total: nat, fault: EsFault)
      returns (ok: bool, total': nat)
      requires i < |items| && Apply(base, items[..i], Step) == (docs, total, true)
      requires !(fault.IndexFails? && fault.item < i && IndexHit(base, items, fault))
      modifies this
      ensures ok ==> Apply(base, items[..i + 1], Step) == (docs, total', true)
      ensures ok ==> !(fault.IndexFails? && fault.item < i + 1 && IndexHit(base, items, fault))
      ensures !ok ==> (docs, total', false) == Outcome(base, items, fault)
      ensures present == old(present) && mapping == old(mapping)
    {
      ghost var before := docs;
      var step := IndexItem(items[i], fault == IndexFails(i));
      if step.None? {
        if Step(items[i]).None? {
          ApplyFails(base, items, Step, i);
          RaiseNoHit(base, items, i, fault);
        }
        return false, total;
      }
      StepApplied(base, items, i, before, total, step);
      if step.value.Some? {
        total' := total + 1;
      } else {
        total' := total;
      }
      return true, total';
    }

    /**
     * upsert_items_to_elasticsearch. An unreachable cluster is left alone,
     * and so is a reachable one whose indices.exists fails, or whose
     * indices.create fails when the index is missing. Otherwise the index
     * exists afterwards (created with the mapping and no documents when it
     * was missing), its documents and total are those Outcome gives for the
     * items and the fault, and completed says whether the run got to its
     * success message.
     */
    method UpsertItems(items: seq<Value>, fault: EsFault) returns (total: nat, completed: bool)
      modifies this
      ensures !reachable || fault.ExistsFails? || (fault.CreateFails? && !old(present)) ==>
        !completed && total == 0 && present == old(present) && mapping == old(mapping) && docs == old(docs)
      ensures reachable && !fault.ExistsFails? && !(fault.CreateFails? && !old(present)) ==>
        present && mapping == (if old(present) then old(mapping) else Mapping) &&
        (docs, total, completed) == Outcome(if old(present) then old(docs) else map[], items, fault)
    {
      if !reachable || fault == ExistsFails {
        return 0, false;
      }
      if !present {
        if fault == CreateFails {
          return 0, false;
        }
        CreateIndex();
      }
      ghost var base := docs;
      total := 0;
      var i := 0;
      while i < |items|
        invariant 0 <= i <= |items|
        invariant present && mapping == old(if present then mapping else Mapping)
        invariant Apply(base, items[..i], Step) == (docs, total, true)
        invariant !(fault.IndexFails? && fault.item < i && IndexHit(base, items, fault))
      {
        var ok;
        ok, total := IndexNext(base, items, i, total, fault);
        if !ok {
          return total, false;
        }
        i := i + 1;
      }
      assert items[..|items|] == items;
      assert !IndexHit(base, items, fault);
      return total, !fault.RefreshFails?;
    }
  }
}
