/**
 * FilterMedicationsDto: the query parameters of the medication listing as
 * class-transformer and class-validator turn them into a typed object. The
 * five tag fields share one transform (a comma-separated string becomes its
 * trimmed pieces; anything else passes through) and must then be arrays of
 * strings; limit is converted with Number and must be an integer in [1, 100],
 * 20 when absent; cursor must be a string. All fields are optional.
 */
module FilterDto {
  import opened Wrappers
  import Text

  /** A query-string value as the request parser hands it over: a string, an array, or a nested object. */
  datatype Raw = RawString(s: string) | RawArray(items: seq<Raw>) | RawObject

  /** The value Number(...) gives the raw limit. */
  datatype NumberValue = NaN | PosInfinity | NegInfinity | Finite(x: real)

  const DefaultLimit: int := 20
  const MinLimit: int := 1
  const MaxLimit: int := 100

  /** The tag fields, in declaration order. */
  const TagFields: seq<string> :=
    ["tags_condition", "tags_substance", "tags_indications", "tags_strengths_concentrations", "tags_population"]

  function Count(s: string, c: char): (n: nat)
    ensures n <= |s|
    decreases |s|
  {
    if s == [] then 0 else (if s[0] == c then 1 else 0) + Count(s[1..], c)
  }

  /** The @Transform of every tag field: value.split(',').map(item => item.trim()) for a string. */
  function TransformTags(v: Raw): (r: Raw)
    ensures !v.RawString? ==> r == v
    ensures v.RawString? ==> (r.RawArray? && |r.items| == |Text.Split(v.s, ',')|
      && forall k :: 0 <= k < |r.items| ==> r.items[k] == RawString(Text.JsTrim(Text.Split(v.s, ',')[k])))
  {
    match v
    case RawString(s) =>
      var pieces := Text.Split(s, ',');
      RawArray(seq(|pieces|, k requires 0 <= k < |pieces| => RawString(Text.JsTrim(pieces[k]))))
    case _ => v
  }

  function Strings(items: seq<Raw>): (r: Option<seq<string>>)
    ensures r.Some? <==> forall k :: 0 <= k < |items| ==> items[k].RawString?
    ensures r.Some? ==> |r.value| == |items| && forall k :: 0 <= k < |items| ==> items[k] == RawString(r.value[k])
    decreases |items|
  {
    if items == [] then Some([])
    else if !items[0].RawString? then None
    else match Strings(items[1..])
      case None => None
      case Some(rest) => Some([items[0].s] + rest)
  }

  /**
   * One tag field: absent stays absent (@IsOptional); otherwise the transformed
   * value must be an array (@IsArray) of strings (@IsString each).
   */
  function ValidateTags(v: Option<Raw>): (r: Result<Option<seq<string>>, string>)
    ensures v.None? ==> r == Ok(None)
    ensures v.Some? ==> (r.Ok? <==> (TransformTags(v.value).RawArray? &&
      forall k :: 0 <= k < |TransformTags(v.value).items| ==> TransformTags(v.value).items[k].RawString?))
    ensures v.Some? && r.Ok? ==> (r.value.Some? && |r.value.value| == |TransformTags(v.value).items| &&
      forall k :: 0 <= k < |r.value.value| ==> TransformTags(v.value).items[k] == RawString(r.value.value[k]))
  {
    match v
    case None => Ok(None)
    case Some(raw) =>
      var t := TransformTags(raw);
      if !t.RawArray? then Err("must be an array")
      else match Strings(t.items)
        case None => Err("each value must be a string")
        case Some(tags) => Ok(Some(tags))
  }

  /** A string value always passes: its tags are the trimmed comma-separated pieces, blanks included. */
  lemma StringTagsValid(s: string)
    ensures ValidateTags(Some(RawString(s))).Ok?
    ensures var tags := ValidateTags(Some(RawString(s))).value.value;
      |tags| == |Text.Split(s, ',')| && forall k :: 0 <= k < |tags| ==> tags[k] == Text.JsTrim(Text.Split(s, ',')[k])
  {
  }

  /** The constraints @IsInt, @Min(1) and @Max(100) that a converted limit fails. */
  function LimitFailures(n: NumberValue): (r: set<string>)
    ensures r == {} <==> n.Finite? && n.x.Floor as real == n.x && MinLimit as real <= n.x <= MaxLimit as real
  {
    match n
    case NaN => {"isInt", "min", "max"}
    case PosInfinity => {"isInt", "max"}
    case NegInfinity => {"isInt", "min"}
    case Finite(x) =>
      (if x.Floor as real == x then {} else {"isInt"})
      + (if x >= MinLimit as real then {} else {"min"})
      + (if x <= MaxLimit as real then {} else {"max"})
  }

  /** limit: 20 when absent, else the converted number when it passes all three constraints. */
  function ValidateLimit(n: Option<NumberValue>): (r: Result<int, set<string>>)
    ensures n.None? ==> r == Ok(DefaultLimit)
    ensures r.Ok? ==> MinLimit <= r.value <= MaxLimit
    ensures n.Some? ==> (r.Ok? <==> LimitFailures(n.value) == {})
    ensures n.Some? && r.Ok? ==> r.value as real == n.value.x
    ensures r.Err? ==> r.error != {}
  {
    match n
    case None => Ok(DefaultLimit)
    case Some(v) =>
      var failures := LimitFailures(v);
      if failures == {} then Ok(v.x.Floor) else Err(failures)
  }

  /** The raw query: one optional raw value per field. */
  datatype RawQuery = RawQuery(tags: seq<Option<Raw>>, limit: Option<NumberValue>, cursor: Option<Raw>)

  datatype Filters = Filters(tags: seq<Option<seq<string>>>, limit: int, cursor: Option<string>)

  function ValidateAll(vs: seq<Option<Raw>>): (r: Option<seq<Option<seq<string>>>>)
    ensures r.Some? <==> forall k :: 0 <= k < |vs| ==> ValidateTags(vs[k]).Ok?
    ensures r.Some? ==> |r.value| == |vs| && forall k :: 0 <= k < |vs| ==> r.value[k] == ValidateTags(vs[k]).value
    decreases |vs|
  {
    if vs == [] then Some([])
    else match (ValidateTags(vs[0]), ValidateAll(vs[1..]))
      case (Ok(t), Some(rest)) => Some([t] + rest)
      case _ => None
  }

  /**
   * The whole object: valid iff every tag field, the limit and the cursor are;
   * the same transform and check apply to each of the five tag fields.
   */
  function Validate(q: RawQuery): (r: Option<Filters>)
    requires |q.tags| == |TagFields|
    ensures r.Some? <==>
      (forall k :: 0 <= k < |q.tags| ==> ValidateTags(q.tags[k]).Ok?)
      && ValidateLimit(q.limit).Ok?
      && (q.cursor.None? || q.cursor.value.RawString?)
    ensures r.Some? ==>
      |r.value.tags| == |TagFields|
      && (forall k :: 0 <= k < |TagFields| ==> r.value.tags[k] == ValidateTags(q.tags[k]).value)
      && r.value.limit == ValidateLimit(q.limit).value
      && (r.value.cursor.Some? <==> q.cursor.Some?)
      && (r.value.cursor.Some? ==> q.cursor.value == RawString(r.value.cursor.value))
  {
    match (ValidateAll(q.tags), ValidateLimit(q.limit), q.cursor)
    case (Some(tags), Ok(limit), None) => Some(Filters(tags, limit, None))
    case (Some(tags), Ok(limit), Some(RawString(c))) => Some(Filters(tags, limit, Some(c)))
    case _ => None
  }

  // ---- properties of the transform ------------------------------------------------

  lemma {:induction false} SplitCount(s: string, sep: char)
    ensures |Text.Split(s, sep)| == Count(s, sep) + 1
    decreases |s|
  {
    if s != [] {
      SplitCount(s[1..], sep);
    }
  }

  /** A string with n commas yields n + 1 tags: empty pieces are kept, not dropped. */
  lemma PieceCount(s: string)
    ensures |TransformTags(RawString(s)).items| == Count(s, ',') + 1
  {
    SplitCount(s, ',');
  }

  /** "x, ,y" keeps its blank middle piece as an empty tag between x and y. */
  lemma EmptyPieceKept(x: char, y: char)
    requires x != ',' && y != ',' && !Text.JsIsSpace(x) && !Text.JsIsSpace(y)
    ensures TransformTags(RawString([x, ',', ' ', ',', y])) == RawArray([RawString([x]), RawString(""), RawString([y])])
  {
    SplitThree(x, y);
    TrimTrimmed([x]);
    TrimTrimmed([y]);
    assert Text.AllSpace(" ", Text.JsIsSpace);
    var t := TransformTags(RawString([x, ',', ' ', ',', y]));
    assert |t.items| == 3;
    assert t.items[0] == RawString([x]);
    assert t.items[1] == RawString("");
    assert t.items[2] == RawString([y]);
  }

  lemma SplitThree(x: char, y: char)
    requires x != ',' && y != ','
    ensures Text.Split([x, ',', ' ', ',', y], ',') == [[x], " ", [y]]
  {
    Text.SplitAfterPart([x], ',', " ," + [y]);
    assert [x, ',', ' ', ',', y] == [x] + [','] + (" ," + [y]);
    Text.SplitAfterPart(" ", ',', [y]);
    assert " ," + [y] == " " + [','] + [y];
    Text.SplitNoSep([y], ',');
  }

  /** Every tag the transform yields is trimmed at both ends. */
  lemma TagsTrimmed(s: string)
    ensures forall k :: 0 <= k < |TransformTags(RawString(s)).items| ==>
      var t := TransformTags(RawString(s)).items[k].s;
      t == [] || (!Text.JsIsSpace(t[0]) && !Text.JsIsSpace(t[|t| - 1]))
  {
  }

  lemma TrimTrimmed(t: string)
    requires t == [] || (!Text.JsIsSpace(t[0]) && !Text.JsIsSpace(t[|t| - 1]))
    ensures Text.JsTrim(t) == t
  {
  }

  /**
   * Writing trimmed, comma-free tags as one comma-separated value and passing
   * it through the transform gives the same tags back.
   */
  lemma JoinTransform(tags: seq<string>)
    requires |tags| >= 1 && Text.FreeOf(tags, ',')
    requires forall k :: 0 <= k < |tags| ==>
      tags[k] == [] || (!Text.JsIsSpace(tags[k][0]) && !Text.JsIsSpace(tags[k][|tags[k]| - 1]))
    ensures TransformTags(RawString(Text.Join(tags, ","))) == RawArray(seq(|tags|, k requires 0 <= k < |tags| => RawString(tags[k])))
  {
    Text.SplitJoin(tags, ',');
    forall k | 0 <= k < |tags|
      ensures Text.JsTrim(tags[k]) == tags[k]
    {
      TrimTrimmed(tags[k]);
    }
  }
}
