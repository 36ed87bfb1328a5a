/**
 * The worker's upsert_items_to_postgres: in one transaction, every labeler
 * named by the structured items is added to the labelers table (a name
 * already there is left alone), then one drugs row per item is inserted
 * or, when a row with that setId exists, overwritten. Row i pairs the i-th
 * structured item with the i-th vector-ready item. Any exception rolls the
 * whole transaction back and the function returns without raising.
 */
module UpsertPostgres {
  import opened Wrappers
  import Text
  import Json
  import Seqs

  type Value = Json.Json

  const Unknown: string := "Unknown"

  /** The label sections copied into their own columns, in column order. */
  const SectionKeys: seq<string> := [
    "indicationsAndUsage", "dosageAndAdministration", "dosageFormsAndStrengths",
    "warningsAndPrecautions", "adverseReactions", "clinicalPharmacology",
    "clinicalStudies", "howSupplied", "useInSpecificPopulations", "description",
    "nonclinicalToxicology", "instructionsForUse", "mechanismOfAction",
    "contraindications", "boxedWarning"]

  /**
   * The values of one drugs row, before the labeler's id is looked up.
   * Text columns that the source fills with json.dumps hold the value that
   * is serialised.
   */
  datatype Row = Row(
    id: Value, name: Value, genericName: Value, productType: Value,
    effectiveTime: string, title: Value, slug: Value, labeler: Value,
    sections: seq<Value>, metaDescription: Value, highlights: Value, blocks: Value)

  /** A stored drugs row: its values and the id of its labeler. */
  datatype Drug = Drug(row: Row, labelerId: nat)

  /** d.get(key, default) */
  function GetOr(fields: seq<(string, Value)>, key: string, default: Value): Value
  {
    Json.Get(fields, key).GetOr(default)
  }

  // ---- effective_time --------------------------------------------------------------

  /** Eight ASCII digits: the YYYYMMDD form. */
  predicate IsDate8(s: string)
  {
    |s| == 8 && forall k :: 0 <= k < 8 ==> Text.IsAsciiDigit(s[k])
  }

  /**
   * The effective_time column: YYYYMMDD becomes YYYY-MM-DD, anything else
   * that is falsy or a string becomes ''. A truthy number or boolean has no
   * len() and a length-8 list or dict has no isdigit(): those raise (None).
   */
  function FormatDate(raw: Value): (r: Option<string>)
    ensures !Json.Truthy(raw) ==> r == Some("")
    ensures raw.Str? ==> r.Some?
    ensures (r.Some? && r.value != "") <==> (raw.Str? && IsDate8(raw.s))
    ensures r.Some? && r.value != "" ==> |r.value| == 10 && r.value[4] == '-' && r.value[7] == '-'
  {
    if !Json.Truthy(raw) then Some("")
    else
      match raw
      case Str(s) => Some(if IsDate8(s) then s[..4] + "-" + s[4..6] + "-" + s[6..8] else "")
      case Arr(xs) => if |xs| == 8 then None else Some("")
      case Obj(fs) => if |fs| == 8 then None else Some("")
      case _ => None
  }

  /** Dropping the two dashes gives back the digits the date was made from. */
  lemma FormatDateRoundTrip(raw: Value)
    requires FormatDate(raw).Some? && FormatDate(raw).value != ""
    ensures var d := FormatDate(raw).value; d[..4] + d[5..7] + d[8..] == raw.s
  {
    var s := raw.s;
    var d := FormatDate(raw).value;
    assert d == s[..4] + "-" + s[4..6] + "-" + s[6..8];
    assert d[..4] == s[..4] && d[5..7] == s[4..6] && d[8..] == s[6..8];
    assert s[..4] + s[4..6] + s[6..8] == s;
  }

  // ---- labelers --------------------------------------------------------------------

  /** structured_item.get('labeler', 'Unknown'); a non-dict item or an unhashable name raises. */
  function LabelerName(s: Value): (r: Option<Value>)
    ensures r.Some? ==> s.Obj? && Json.IsScalar(r.value)
    ensures s.Obj? && Json.Get(s.fields, "labeler").None? ==> r == Some(Json.Str(Unknown))
  {
    if !s.Obj? then None
    else
      var name := GetOr(s.fields, "labeler", Json.Str(Unknown));
      if Json.IsScalar(name) then Some(name) else None
  }

  /** The labeler of every structured item in order, or None when one of them raises. */
  function LabelerNames(structured: seq<Value>): Option<seq<Value>>
  {
    Seqs.Traverse(structured, LabelerName)
  }

  /** Each structured item names a labeler and the names are exactly those of the items. */
  lemma LabelerNamesMembers(structured: seq<Value>)
    ensures LabelerNames(structured).Some? <==> forall i :: 0 <= i < |structured| ==> LabelerName(structured[i]).Some?
    ensures LabelerNames(structured).Some? ==> forall x ::
      x in LabelerNames(structured).value <==> exists i :: 0 <= i < |structured| && LabelerName(structured[i]) == Some(x)
  {
    Seqs.TraverseAll(structured, LabelerName);
    if LabelerNames(structured).Some? {
      var names := LabelerNames(structured).value;
      forall x | x in names
        ensures exists i :: 0 <= i < |structured| && LabelerName(structured[i]) == Some(x)
      {
        var i :| 0 <= i < |names| && names[i] == x;
        assert LabelerName(structured[i]) == Some(x);
      }
    }
  }

  // ---- drug rows -------------------------------------------------------------------

  /**
   * The row for one pair of items, or None when building or inserting it
   * raises: an item that is not a dict, a structured item without drugName
   * or without a dict label, a vector-ready item without a dict label, an
   * effectiveTime that raises, an unhashable labeler, or a missing or None
   * setId, which the id primary key rejects. A labeler that is not a string
   * raises too: `name = NULL` matches no row, so fetchone() gives None and
   * `None['id']` raises, and comparing the text column with a number or a
   * boolean is an SQL error.
   */
  function BuildRow(s: Value, q: Value): (r: Option<Row>)
    ensures r.Some? ==> LabelerName(s) == Some(r.value.labeler) && r.value.labeler.Str?
    ensures LabelerName(s).Some? && !LabelerName(s).value.Str? ==> r.None?
    ensures r.Some? ==> q.Obj? && Json.Get(q.fields, "setId") == Some(r.value.id) && !r.value.id.Null?
    ensures r.Some? ==> |r.value.sections| == |SectionKeys|
  {
    if !s.Obj? || !q.Obj? || Json.Get(s.fields, "drugName").None? then None
    else
      var labeler := LabelerName(s);
      var qLabel := DictAt(q.fields, "label");
      var sLabel := DictAt(s.fields, "label");
      var id := GetOr(q.fields, "setId", Json.Null);
      if labeler.None? || !labeler.value.Str? || qLabel.None? || sLabel.None? || id.Null? then None
      else
        var date := FormatDate(GetOr(qLabel.value, "effectiveTime", Json.Str("")));
        if date.None? then None
        else Some(MakeRow(id, labeler.value, date.value, q.fields, qLabel.value, sLabel.value))
  }

  /** d[key] when it is a dict; None when it is missing or not a dict (the source then raises). */
  function DictAt(fields: seq<(string, Value)>, key: string): (r: Option<seq<(string, Value)>>)
    ensures r.Some? <==> Json.Get(fields, key).Some? && Json.Get(fields, key).value.Obj?
  {
    match Json.Get(fields, key)
    case Some(Obj(fs)) => Some(fs)
    case _ => None
  }

  /** The column values taken from the two items once every lookup has succeeded. */
  function MakeRow(id: Value, labeler: Value, date: string, q: seq<(string, Value)>,
                   qLabel: seq<(string, Value)>, sLabel: seq<(string, Value)>): (r: Row)
    ensures r.id == id && r.labeler == labeler && r.effectiveTime == date
    ensures |r.sections| == |SectionKeys|
  {
    Row(
      id,
      GetOr(q, "drugName", Json.Str("")),
      GetOr(qLabel, "genericName", Json.Str("")),
      GetOr(qLabel, "productType", Json.Str("")),
      date,
      GetOr(qLabel, "title", Json.Null),
      GetOr(q, "slug", Json.Null),
      labeler,
      seq(|SectionKeys|, k requires 0 <= k < |SectionKeys| => GetOr(qLabel, SectionKeys[k], Json.Null)),
      GetOr(q, "metaDescription", Json.Null),
      GetOr(sLabel, "highlights", Json.Str("{}")),
      Json.Obj(sLabel))
  }

  /** The pairs the row loop visits: structured[i] with qItems[i]. */
  function Pairs(qItems: seq<Value>, structured: seq<Value>): (r: seq<(Value, Value)>)
    requires |structured| <= |qItems|
    ensures |r| == |structured|
  {
    seq(|structured|, i requires 0 <= i < |structured| => (structured[i], qItems[i]))
  }

  function BuildPair(p: (Value, Value)): Option<Row>
  {
    BuildRow(p.0, p.1)
  }

  /** The rows of all pairs, in order, or None when one of them raises (q_items running out raises too). */
  function Rows(qItems: seq<Value>, structured: seq<Value>): Option<seq<Row>>
  {
    if |structured| > |qItems| then None else Seqs.Traverse(Pairs(qItems, structured), BuildPair)
  }

  /** Row i is built from structured[i] and qItems[i]; it fails exactly when one pair does or qItems is short. */
  lemma RowsPairing(qItems: seq<Value>, structured: seq<Value>)
    ensures Rows(qItems, structured).Some? <==>
      |qItems| >= |structured| && forall i :: 0 <= i < |structured| ==> BuildRow(structured[i], qItems[i]).Some?
    ensures Rows(qItems, structured).Some? ==>
      var rows := Rows(qItems, structured).value;
      |rows| == |structured| && forall i :: 0 <= i < |structured| ==> BuildRow(structured[i], qItems[i]) == Some(rows[i])
  {
    if |structured| <= |qItems| {
      var pairs := Pairs(qItems, structured);
      Seqs.TraverseAll(pairs, BuildPair);
      assert forall i :: 0 <= i < |structured| ==> BuildPair(pairs[i]) == BuildRow(structured[i], qItems[i]);
    }
  }

  /** A pair that raises makes the whole batch fail. */
  lemma RowsFail(qItems: seq<Value>, structured: seq<Value>, i: nat)
    requires i < |structured|
    requires i >= |qItems| || BuildRow(structured[i], qItems[i]).None?
    ensures Rows(qItems, structured).None?
  {
    RowsPairing(qItems, structured);
  }

  /** A structured item whose labeler is not a string fails the whole batch. */
  lemma NonTextLabelerFails(qItems: seq<Value>, structured: seq<Value>, i: nat)
    requires i < |structured|
    requires LabelerName(structured[i]).Some? && !LabelerName(structured[i]).value.Str?
    ensures Rows(qItems, structured).None?
  {
    RowsFail(qItems, structured, i);
  }

  /** A null labeler next to an otherwise complete pair of items: the batch raises. */
  lemma NullLabelerBatch()
    ensures Rows([Json.Obj([("setId", Json.Str("s1")), ("label", Json.Obj([]))])],
                 [Json.Obj([("drugName", Json.Str("x")), ("labeler", Json.Null), ("label", Json.Obj([]))])]).None?
  {
    var s := Json.Obj([("drugName", Json.Str("x")), ("labeler", Json.Null), ("label", Json.Obj([]))]);
    assert LabelerName(s) == Some(Json.Null);
    NonTextLabelerFails([Json.Obj([("setId", Json.Str("s1")), ("label", Json.Obj([]))])], [s], 0);
  }

  /** A batch whose rows all build names a string labeler in every structured item. */
  lemma RowsTextLabelers(qItems: seq<Value>, structured: seq<Value>)
    requires Rows(qItems, structured).Some?
    ensures forall i :: 0 <= i < |structured| ==>
      LabelerName(structured[i]).Some? && LabelerName(structured[i]).value.Str?
  {
    RowsPairing(qItems, structured);
  }

  /** The row loop's step: one more successful pair adds its row. */
  lemma RowsStep(qItems: seq<Value>, structured: seq<Value>, i: nat, rows: seq<Row>, r: Row)
    requires i < |structured| && i < |qItems|
    requires Rows(qItems, structured[..i]) == Some(rows)
    requires BuildRow(structured[i], qItems[i]) == Some(r)
    ensures Rows(qItems, structured[..i + 1]) == Some(rows + [r])
  {
    var pairs := Pairs(qItems, structured[..i + 1]);
    assert pairs[..i] == Pairs(qItems, structured[..i]);
    assert pairs[i] == (structured[i], qItems[i]);
    Seqs.TraverseStep(pairs, BuildPair, rows, r);
  }

  /** Every labeler the structured items name has an id. */
  predicate NamesKnown(structured: seq<Value>, ids: map<Value, nat>)
  {
    forall i :: 0 <= i < |structured| && LabelerName(structured[i]).Some? ==> LabelerName(structured[i]).value in ids
  }

  /** Every row's labeler has an id. */
  predicate LabelersKnown(rows: seq<Row>, ids: map<Value, nat>)
  {
    forall k :: 0 <= k < |rows| ==> rows[k].labeler in ids
  }

  /** The drugs table after the rows are upserted one after another, keyed by id. */
  function Upserted(drugs: map<Value, Drug>, rows: seq<Row>, ids: map<Value, nat>): map<Value, Drug>
    requires LabelersKnown(rows, ids)
    decreases |rows|
  {
    if rows == [] then drugs
    else
      var last := rows[|rows| - 1];
      Upserted(drugs, rows[..|rows| - 1], ids)[last.id := Drug(last, ids[last.labeler])]
  }

  /** Upserting one more row updates its id and nothing else. */
  lemma UpsertedStep(drugs: map<Value, Drug>, rows: seq<Row>, r: Row, ids: map<Value, nat>)
    requires LabelersKnown(rows, ids) && r.labeler in ids
    ensures LabelersKnown(rows + [r], ids)
    ensures Upserted(drugs, rows + [r], ids) == Upserted(drugs, rows, ids)[r.id := Drug(r, ids[r.labeler])]
  {
    assert (rows + [r])[..|rows|] == rows;
  }

  /** The table holds the old ids and the rows' ids, nothing more. */
  lemma {:induction false} UpsertedKeys(drugs: map<Value, Drug>, rows: seq<Row>, ids: map<Value, nat>)
    requires LabelersKnown(rows, ids)
    ensures forall x :: x in Upserted(drugs, rows, ids) <==> x in drugs || exists k :: 0 <= k < |rows| && rows[k].id == x
    decreases |rows|
  {
    if rows != [] {
      var n := |rows| - 1;
      var init := rows[..n];
      UpsertedKeys(drugs, init, ids);
      assert forall k :: 0 <= k < n ==> init[k] == rows[k];
    }
  }

  /** For an id the rows use, the stored row is the last row with that id (a later upsert wins). */
  lemma {:induction false} UpsertedLatest(drugs: map<Value, Drug>, rows: seq<Row>, ids: map<Value, nat>, k: nat)
    requires LabelersKnown(rows, ids)
    requires k < |rows|
    requires forall j :: k < j < |rows| ==> rows[j].id != rows[k].id
    ensures var m := Upserted(drugs, rows, ids);
      rows[k].id in m && m[rows[k].id] == Drug(rows[k], ids[rows[k].labeler])
    decreases |rows|
  {
    var n := |rows| - 1;
    if k < n {
      UpsertedLatest(drugs, rows[..n], ids, k);
    }
  }

  /** An id no row uses keeps its old row. */
  lemma {:induction false} UpsertedUntouched(drugs: map<Value, Drug>, rows: seq<Row>, ids: map<Value, nat>, x: Value)
    requires LabelersKnown(rows, ids)
    requires x in drugs
    requires forall k :: 0 <= k < |rows| ==> rows[k].id != x
    ensures var m := Upserted(drugs, rows, ids); x in m && m[x] == drugs[x]
    decreases |rows|
  {
    if rows != [] {
      UpsertedUntouched(drugs, rows[..|rows| - 1], ids, x);
    }
  }

  // ---- database errors -------------------------------------------------------------

  /**
   * A psycopg2 error the database may raise: at connect, at the n-th
   * cursor.execute of the transaction (counted from 0), or at commit.
   */
  datatype Fault = NoFault | ConnectFails | ExecuteFails(statement: nat) | CommitFails

  /** The fault is an execute error at one of the statements from, ..., to - 1. */
  predicate FailsAmong(fault: Fault, from: nat, to: nat)
  {
    fault.ExecuteFails? && from <= fault.statement < to
  }

  /**
   * The statements a batch that raises nothing of its own executes: one
   * INSERT per distinct labeler, then a SELECT and an INSERT per item.
   */
  function Statements(labelers: nat, items: nat): nat
  {
    labelers + 2 * items
  }

  /** The fault fires in a transaction of the given number of statements. */
  predicate Fires(fault: Fault, statements: nat)
  {
    fault.ConnectFails? || fault.CommitFails? || FailsAmong(fault, 0, statements)
  }

  /** The distinct labeler names of the items (empty when collecting them raises). */
  function LabelerSet(structured: seq<Value>): set<Value>
  {
    if LabelerNames(structured).Some? then set x | x in LabelerNames(structured).value else {}
  }

  // ---- the database ----------------------------------------------------------------

  /**
   * The two tables the script writes, and the serial sequence behind
   * labelers.id. As in PostgreSQL, the sequence is not transactional: every
   * insert attempt draws a value, even one that conflicts or is rolled back.
   */
  class Database {
    var labelerIds: map<Value, nat>
    var nextLabelerId: nat
    var drugs: map<Value, Drug>

    /** Every labeler id was issued by the sequence, and no two labelers share one. */
    predicate Valid()
      reads this
    {
      && (forall n :: n in labelerIds ==> labelerIds[n] < nextLabelerId)
      && (forall a, b :: a in labelerIds && b in labelerIds && a != b ==> labelerIds[a] != labelerIds[b])
    }

    constructor ()
      ensures labelerIds == map[] && drugs == map[] && nextLabelerId == 1
      ensures Valid()
    {
      labelerIds := map[];
      nextLabelerId := 1;
      drugs := map[];
    }

    /**
     * INSERT INTO labelers ... ON CONFLICT DO NOTHING: the serial default
     * draws the next value either way; a new name gets it as its id, a known
     * one is left alone.
     */
    method InsertLabeler(name: Value)
      requires Valid()
      modifies this
      ensures Valid()
      ensures name in old(labelerIds) ==> labelerIds == old(labelerIds)
      ensures name !in old(labelerIds) ==> labelerIds == old(labelerIds)[name := old(nextLabelerId)]
      ensures nextLabelerId == old(nextLabelerId) + 1
      ensures drugs == old(drugs)
    {
      if name !in labelerIds {
        labelerIds := labelerIds[name := nextLabelerId];
      }
      nextLabelerId := nextLabelerId + 1;
    }

    /**
     * Lines 52-53: every name of the set is inserted, in the set's own
     * iteration order, as statements 0, 1, ...; an execute error among them
     * stops the loop (ok is false) with the names inserted so far in place.
     */
    method InsertLabelers(unique: set<Value>, fault: Fault) returns (ok: bool)
      requires Valid()
      modifies this
      ensures Valid()
      ensures ok <==> !FailsAmong(fault, 0, |unique|)
      ensures ok ==> labelerIds.Keys == old(labelerIds).Keys + unique
      ensures forall n :: n in old(labelerIds) ==> n in labelerIds && labelerIds[n] == old(labelerIds)[n]
      ensures nextLabelerId >= old(nextLabelerId)
      ensures drugs == old(drugs)
    {
      var order := IterationOrder(unique);
      var stop := if fault.ExecuteFails? && fault.statement < |order| then fault.statement else |order|;
      InsertInOrder(order, stop);
      ok := stop == |order|;
      if ok {
        assert order[..stop] == order;
      }
    }

    /** The first count names of the order are inserted one statement each, in order. */
    method InsertInOrder(order: seq<Value>, count: nat)
      requires Valid()
      requires count <= |order|
      modifies this
      ensures Valid()
      ensures forall n :: n in labelerIds <==> n in old(labelerIds) || n in order[..count]
      ensures forall n :: n in old(labelerIds) ==> n in labelerIds && labelerIds[n] == old(labelerIds)[n]
      ensures nextLabelerId == old(nextLabelerId) + count
      ensures drugs == old(drugs)
    {
      var i := 0;
      while i < count
        invariant 0 <= i <= count
        invariant Valid()
        invariant nextLabelerId == old(nextLabelerId) + i
        invariant forall n :: n in labelerIds <==> n in old(labelerIds) || n in order[..i]
        invariant forall n :: n in old(labelerIds) ==> n in labelerIds && labelerIds[n] == old(labelerIds)[n]
        invariant drugs == old(drugs)
      {
        InsertLabeler(order[i]);
        assert order[..i + 1] == order[..i] + [order[i]];
        i := i + 1;
      }
    }

    /** One pass of the row loop: build the row, look up its labeler's id, insert or update by id. */
    method UpsertRow(s: Value, q: Value) returns (row: Option<Row>)
      requires LabelerName(s).Some? ==> LabelerName(s).value in labelerIds
      modifies this
      ensures row == BuildRow(s, q)
      ensures labelerIds == old(labelerIds) && nextLabelerId == old(nextLabelerId)
      ensures row.None? ==> drugs == old(drugs)
      ensures row.Some? ==> (row.value.labeler in labelerIds &&
        drugs == old(drugs)[row.value.id := Drug(row.value, labelerIds[row.value.labeler])])
    {
      row := BuildRow(s, q);
      if row.Some? {
        var r := row.value;
        var labelerId := labelerIds[r.labeler];
        drugs := drugs[r.id := Drug(r, labelerId)];
      }
    }

    /**
     * Lines 58-181: one insert-or-update per pair, in order; pair i runs
     * statements base + 2i (the labeler SELECT) and base + 2i + 1 (the drug
     * INSERT), so an execute error stops the loop at the pass that runs
     * the failing statement. When no pair raises and no execute fails, the
     * table is the old one with every row upserted; otherwise the rows
     * written so far stay until the caller rolls back.
     */
    method UpsertRows(qItems: seq<Value>, structured: seq<Value>, fault: Fault, base: nat) returns (ok: bool)
      requires NamesKnown(structured, labelerIds)
      modifies this
      ensures labelerIds == old(labelerIds) && nextLabelerId == old(nextLabelerId)
      ensures ok <==> Rows(qItems, structured).Some? && !FailsAmong(fault, base, base + 2 * |structured|)
      ensures ok ==> (Rows(qItems, structured).Some? &&
        LabelersKnown(Rows(qItems, structured).value, labelerIds) &&
        drugs == Upserted(old(drugs), Rows(qItems, structured).value, labelerIds))
    {
      var failing := if FailsAmong(fault, base, base + 2 * |structured|) then (fault.statement - base) / 2 else |structured|;
      ghost var rows: seq<Row> := [];
      var i := 0;
      while i < failing
        invariant 0 <= i <= failing <= |structured| && i <= |qItems|
        invariant Rows(qItems, structured[..i]) == Some(rows)
        invariant LabelersKnown(rows, labelerIds)
        invariant drugs == Upserted(old(drugs), rows, labelerIds)
        invariant labelerIds == old(labelerIds) && nextLabelerId == old(nextLabelerId)
      {
        if i >= |qItems| {
          RowsFail(qItems, structured, i);
          return false;
        }
        assert LabelerName(structured[i]).Some? ==> LabelerName(structured[i]).value in labelerIds;
        var row := UpsertRow(structured[i], qItems[i]);
        if row.None? {
          RowsFail(qItems, structured, i);
          return false;
        }
        var r := row.value;
        RowsStep(qItems, structured, i, rows, r);
        UpsertedStep(old(drugs), rows, r, labelerIds);
        rows := rows + [r];
        i := i + 1;
      }
      if failing < |structured| {
        return false;
      }
      assert structured[..|structured|] == structured;
      return true;
    }

    /**
     * Lines 37-181, the statements of the transaction before its commit:
     * they go through exactly when no item raises and no execute fails, and
     * then every named labeler has an id and every row is upserted in
     * order. Either way the old labelers keep their ids.
     */
    method RunStatements(qItems: seq<Value>, structured: seq<Value>, fault: Fault) returns (ok: bool)
      requires Valid()
      modifies this
      ensures Valid()
      ensures ok <==>
        Rows(qItems, structured).Some? && !FailsAmong(fault, 0, Statements(|LabelerSet(structured)|, |structured|))
      ensures nextLabelerId >= old(nextLabelerId)
      ensures forall n :: n in old(labelerIds) ==> n in labelerIds && labelerIds[n] == old(labelerIds)[n]
      ensures ok ==> (LabelerNames(structured).Some? && labelerIds.Keys == old(labelerIds).Keys + LabelerSet(structured))
      ensures ok ==> (Rows(qItems, structured).Some? &&
        LabelersKnown(Rows(qItems, structured).value, labelerIds) &&
        drugs == Upserted(old(drugs), Rows(qItems, structured).value, labelerIds))
    {
      var unique := CollectLabelers(structured);
      if unique.None? {
        LabelerNamesMembers(structured);
        var i :| 0 <= i < |structured| && LabelerName(structured[i]).None?;
        assert BuildRow(structured[i], if i < |qItems| then qItems[i] else Json.Null).None?;
        RowsFail(qItems, structured, i);
        return false;
      }
      assert unique.value == LabelerSet(structured);
      ok := InsertLabelers(unique.value, fault);
      if ok {
        LabelerNamesMembers(structured);
        ok := UpsertRows(qItems, structured, fault, |unique.value|);
      }
    }

    /**
     * upsert_items_to_postgres: commits exactly when no step raises and the
     * database raises no error (at connect, at an execute or at commit), so
     * never when a structured item's labeler is not a string. Then every
     * named labeler has an id (old ones keep theirs) and the drugs table is
     * the old one with every row upserted in order; otherwise both tables
     * are as they were, while the values the sequence gave out stay used.
     */
    method Upsert(qItems: seq<Value>, structured: seq<Value>, fault: Fault) returns (committed: bool)
      requires Valid()
      modifies this
      ensures Valid()
      ensures committed <==>
        Rows(qItems, structured).Some? && !Fires(fault, Statements(|LabelerSet(structured)|, |structured|))
      ensures fault.ConnectFails? ==> nextLabelerId == old(nextLabelerId)
      ensures committed ==> forall i :: 0 <= i < |structured| ==>
        LabelerName(structured[i]).Some? && LabelerName(structured[i]).value.Str?
      ensures !committed ==> labelerIds == old(labelerIds) && drugs == old(drugs)
      ensures nextLabelerId >= old(nextLabelerId)
      ensures committed ==> (LabelerNames(structured).Some? &&
        labelerIds.Keys == old(labelerIds).Keys + (set x | x in LabelerNames(structured).value))
      ensures committed ==> forall n :: n in old(labelerIds) ==> labelerIds[n] == old(labelerIds)[n]
      ensures committed ==> (Rows(qItems, structured).Some? &&
        LabelersKnown(Rows(qItems, structured).value, labelerIds) &&
        drugs == Upserted(old(drugs), Rows(qItems, structured).value, labelerIds))
    {
      if fault == ConnectFails {
        return false;
      }
      var savedIds, savedDrugs := labelerIds, drugs;
      ghost var savedNext := nextLabelerId;
      committed := RunStatements(qItems, structured, fault);
      if committed && fault == CommitFails {
        committed := false;
      }
      if !committed {
        assert forall n :: n in savedIds ==> savedIds[n] < savedNext <= nextLabelerId;
        labelerIds, drugs := savedIds, savedDrugs;
      } else {
        RowsTextLabelers(qItems, structured);
      }
    }
  }

  /** An order in which a loop over the set visits its elements: each element exactly once. */
  method IterationOrder(s: set<Value>) returns (order: seq<Value>)
    ensures |order| == |s|
    ensures forall x :: x in order <==> x in s
  {
    order := [];
    var remaining := s;
    while remaining != {}
      invariant |order| + |remaining| == |s|
      invariant forall x :: x in s <==> x in order || x in remaining
      invariant forall x :: x in order ==> x !in remaining
      decreases remaining
    {
      var x :| x in remaining;
      order := order + [x];
      remaining := remaining - {x};
    }
  }

  /** Lines 38-41: the set of labeler names, or None when building it raises. */
  method CollectLabelers(structured: seq<Value>) returns (r: Option<set<Value>>)
    ensures r.Some? <==> LabelerNames(structured).Some?
    ensures r.Some? ==> r.value == set x | x in LabelerNames(structured).value
  {
    var unique: set<Value> := {};
    ghost var names: seq<Value> := [];
    var i := 0;
    while i < |structured|
      invariant 0 <= i <= |structured|
      invariant LabelerNames(structured[..i]) == Some(names)
      invariant unique == set x | x in names
    {
      var name := LabelerName(structured[i]);
      if name.None? {
        LabelerNamesMembers(structured);
        return None;
      }
      assert structured[..i + 1][..i] == structured[..i];
      unique := unique + {name.value};
      names := names + [name.value];
      i := i + 1;
    }
    assert structured[..|structured|] == structured;
    return Some(unique);
  }
}
