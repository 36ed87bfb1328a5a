/**
 * SearchBar: a text input holding the query. Submitting (the form's submit
 * or the Enter key) calls onSearch with the trimmed query unless that is
 * empty; the input itself keeps whatever was typed.
 */
module SearchBar {
  import opened Wrappers
  import Text

  /** What handleSubmit hands to onSearch for this query: the trimmed text, or nothing when it is blank. */
  function Submitted(query: string): (r: Option<string>)
    ensures r.None? <==> Text.AllSpace(query, Text.JsIsSpace)
    ensures r.Some? ==> r.value != [] && !Text.JsIsSpace(r.value[0]) && !Text.JsIsSpace(r.value[|r.value| - 1])
  {
    var t := Text.JsTrim(query);
    if t != [] then Some(t) else None
  }

  /** The search text is the query with blank margins cut off and nothing else changed. */
  lemma SubmittedSlice(query: string)
    requires Submitted(query).Some?
    ensures var t := Submitted(query).value; var i := Text.LeadLen(query, Text.JsIsSpace);
      i + |t| <= |query| && t == query[i..i + |t|]
      && Text.AllSpace(query[..i], Text.JsIsSpace) && Text.AllSpace(query[i + |t|..], Text.JsIsSpace)
  {
    assert Submitted(query).value == Text.Trim(query, Text.JsIsSpace);
    Text.TrimSlice(query, Text.JsIsSpace);
  }

  /** A query with no blank margins, special characters and all, is searched for verbatim. */
  lemma VerbatimQuery(query: string)
    requires query != [] && !Text.JsIsSpace(query[0]) && !Text.JsIsSpace(query[|query| - 1])
    ensures Submitted(query) == Some(query)
  {
    Text.TrimUnchanged(query, Text.JsIsSpace);
  }

  /** Searching again for what was searched gives the same search. */
  lemma SubmitTrimmed(query: string)
    requires Submitted(query).Some?
    ensures Submitted(Submitted(query).value) == Submitted(query)
  {
    VerbatimQuery(Submitted(query).value);
  }

  class Bar {
    var query: string

    /** The query starts at initialValue, "" when that prop is not given. */
    constructor (initialValue: Option<string>)
      ensures query == initialValue.GetOr("")
    {
      query := initialValue.GetOr("");
    }

    /** The input's onChange: the query becomes the typed text. */
    method Change(text: string)
      modifies this
      ensures query == text
    {
      query := text;
    }

    /** handleSubmit: the onSearch call it makes, if any; the query is not cleared. */
    method HandleSubmit() returns (searched: Option<string>)
      ensures searched == Submitted(query)
    {
      var t := Text.JsTrim(query);
      if t != [] {
        searched := Some(t);
      } else {
        searched := None;
      }
    }

    /** handleKeyPress: Enter submits by the same rule; any other key does nothing. */
    method HandleKeyPress(key: string) returns (searched: Option<string>)
      ensures key == "Enter" ==> searched == Submitted(query)
      ensures key != "Enter" ==> searched == None
    {
      if key == "Enter" {
        searched := HandleSubmit();
      } else {
        searched := None;
      }
    }
  }
}
