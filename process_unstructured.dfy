/**
 * The cleaning step of the process_unstructured_drug_information activity:
 * re.sub('<.*?>', '\n\n', text) on every string of a JSON-like value, and
 * json.dumps of every other scalar. The pattern matches a '<', then as few
 * characters other than a newline as possible, then a '>'.
 */
module ProcessUnstructured {
  import opened Wrappers
  import Json

  /** Where the lazy '.*?>' ends: the index of the first '>' in s, if no newline comes before it. */
  function Close(s: string): (r: Option<nat>)
    ensures r.Some? ==> r.value < |s| && s[r.value] == '>'
    decreases |s|
  {
    if s == [] then None
    else if s[0] == '>' then Some(0)
    else if s[0] == '\n' then None
    else match Close(s[1..])
      case None => None
      case Some(j) => Some(j + 1)
  }

  /** The match ends at the first '>'; there is none when every '>' has a newline before it. */
  lemma {:induction false} CloseSpec(s: string)
    ensures var r := Close(s);
      r.Some? ==> forall k :: 0 <= k < r.value ==> s[k] != '>' && s[k] != '\n'
    ensures Close(s).None? <==> forall k :: 0 <= k < |s| && s[k] == '>' ==> exists m :: 0 <= m < k && s[m] == '\n'
    decreases |s|
  {
    if s != [] && s[0] != '>' && s[0] != '\n' {
      CloseSpec(s[1..]);
      forall k | 1 <= k < |s|
        ensures s[k] == s[1..][k - 1]
      {
      }
    }
  }

  /** remove_html_tags on a string: each match, scanning left to right, becomes two newlines. */
  function StripTags(s: string): (r: string)
    decreases |s|
  {
    if s == [] then []
    else if s[0] == '<' && Close(s[1..]).Some? then
      var j := Close(s[1..]).value;
      "\n\n" + StripTags(s[j + 2..])
    else [s[0]] + StripTags(s[1..])
  }

  /** No match of the pattern is left in s. */
  predicate NoTag(s: string)
  {
    forall k :: 0 <= k < |s| && s[k] == '<' ==> Close(s[k + 1..]).None?
  }

  /** remove_html_tags: a non-string value is returned as it is. */
  function RemoveHtmlTags(v: Json.Json): (r: Json.Json)
    ensures !v.Str? ==> r == v
    ensures v.Str? ==> r.Str? && NoTag(r.s)
  {
    if v.Str? then
      StripTagsNoTag(v.s);
      Json.Str(StripTags(v.s))
    else v
  }

  /** clean_json_html's treatment of one scalar: strings stripped of their tags, anything else its JSON text. */
  function CleanLeaf(v: Json.Json): (r: Json.Json)
    ensures Json.IsScalar(v) ==> r.Str?
    ensures v.Str? ==> NoTag(r.s)
    ensures v.Null? || v.Bool? || v.Num? ==> r == Json.Str(Json.PyDumpsScalar(v))
  {
    match v
    case Str(s) => StripTagsNoTag(s); Json.Str(StripTags(s))
    case Null => Json.Str(Json.PyDumpsScalar(v))
    case Bool(_) => Json.Str(Json.PyDumpsScalar(v))
    case Num(_) => Json.Str(Json.PyDumpsScalar(v))
    case _ => v
  }

  /**
   * clean_json_html: same keys and list lengths; every scalar, at any depth,
   * becomes CleanLeaf of itself.
   */
  function CleanJsonHtml(obj: Json.Json): (r: Json.Json)
    ensures Json.SameShape(obj, r)
    ensures Json.Leafwise(obj, r, CleanLeaf)
    ensures obj.Str? ==> r == Json.Str(StripTags(obj.s))
    ensures obj == Json.Null ==> r == Json.Str("null")
    ensures obj.Bool? ==> r == Json.Str(if obj.b then "true" else "false")
  {
    Json.MapLeavesLeafwise(obj, CleanLeaf);
    Json.MapLeaves(obj, CleanLeaf)
  }

  // ---- properties of the tag stripper ---------------------------------------------

  /** Text with no closable '<' is left alone; in particular the activity's plain text passes unchanged. */
  lemma {:induction false} StripNoTag(s: string)
    requires NoTag(s)
    ensures StripTags(s) == s
    decreases |s|
  {
    if s != [] {
      assert NoTag(s[1..]) by {
        forall k | 0 <= k < |s[1..]| && s[1..][k] == '<'
          ensures Close(s[1..][k + 1..]).None?
        {
          assert s[1..][k + 1..] == s[k + 2..];
        }
      }
      StripNoTag(s[1..]);
    }
  }

  /** A span '<' t '>' after tag-free text a is replaced by two newlines, and scanning resumes after it. */
  lemma SpanReplaced(a: string, t: string, b: string)
    requires '<' !in a
    requires '>' !in t && '\n' !in t
    ensures StripTags(a + "<" + t + ">" + b) == a + "\n\n" + StripTags(b)
  {
    var s := "<" + t + ">" + b;
    assert s[0] == '<' && s[1..] == t + ">" + b;
    CloseAfter(t, b);
    assert s[|t| + 2..] == b;
    assert StripTags(s) == "\n\n" + StripTags(b);
    assert a + "<" + t + ">" + b == a + s;
    PlainPrefix(a, s);
  }

  /** A '<' with no '>' after it on its line survives, and scanning goes on right after it. */
  lemma UnclosedSurvives(a: string, t: string)
    requires '<' !in a
    requires Close(t).None?
    ensures StripTags(a + "<" + t) == a + "<" + StripTags(t)
  {
    PlainPrefix(a, "<" + t);
    assert ("<" + t)[1..] == t;
    assert a + "<" + t == a + ("<" + t);
  }

  lemma {:induction false} CloseAfter(t: string, b: string)
    requires '>' !in t && '\n' !in t
    ensures Close(t + ">" + b) == Some(|t|)
    decreases |t|
  {
    if t == [] {
      assert (t + ">" + b)[0] == '>';
    } else {
      assert (t + ">" + b)[1..] == t[1..] + ">" + b;
      CloseAfter(t[1..], b);
    }
  }

  lemma {:induction false} PlainPrefix(a: string, s: string)
    requires '<' !in a
    ensures StripTags(a + s) == a + StripTags(s)
    decreases |a|
  {
    if a != [] {
      assert (a + s)[0] == a[0];
      assert (a + s)[1..] == a[1..] + s;
      PlainPrefix(a[1..], s);
    } else {
      assert a + s == s;
    }
  }

  /** Two newlines in front keep a string tag-free. */
  lemma NoTagPrefix(p: string, t: string)
    requires '<' !in p && NoTag(t)
    ensures NoTag(p + t)
  {
    forall k | 0 <= k < |p + t| && (p + t)[k] == '<'
      ensures Close((p + t)[k + 1..]).None?
    {
      assert k >= |p|;
      assert (p + t)[k + 1..] == t[k - |p| + 1..];
    }
  }

  lemma NoTagCons(c: char, t: string)
    requires NoTag(t) && (c == '<' ==> Close(t).None?)
    ensures NoTag([c] + t)
  {
    var r := [c] + t;
    forall k | 0 <= k < |r| && r[k] == '<'
      ensures Close(r[k + 1..]).None?
    {
      if k == 0 {
        assert r[1..] == t;
      } else {
        assert r[k + 1..] == t[k..];
      }
    }
  }

  /** A kept '<' stays unmatched: stripping the rest keeps the newline that stopped it, or adds no '>'. */
  lemma {:induction false} StripKeepsUnclosed(s: string)
    requires Close(s).None?
    ensures Close(StripTags(s)).None?
    decreases |s|
  {
    if s != [] {
      assert s[0] != '>';
      if s[0] == '\n' {
        assert StripTags(s)[0] == '\n';
      } else {
        assert Close(s[1..]).None?;
        StripKeepsUnclosed(s[1..]);
        var r := StripTags(s);
        assert r == [s[0]] + StripTags(s[1..]);
        assert r[1..] == StripTags(s[1..]);
      }
    }
  }

  /** Stripping is complete: no match survives, so a second pass changes nothing. */
  lemma {:induction false} StripTagsNoTag(s: string)
    ensures NoTag(StripTags(s))
    decreases |s|
  {
    if s != [] {
      if s[0] == '<' && Close(s[1..]).Some? {
        var j := Close(s[1..]).value;
        StripTagsNoTag(s[j + 2..]);
        NoTagPrefix("\n\n", StripTags(s[j + 2..]));
      } else {
        StripTagsNoTag(s[1..]);
        if s[0] == '<' {
          StripKeepsUnclosed(s[1..]);
        }
        NoTagCons(s[0], StripTags(s[1..]));
      }
    }
  }

  /** Stripping twice is stripping once. */
  lemma StripIdempotent(s: string)
    ensures StripTags(StripTags(s)) == StripTags(s)
  {
    StripTagsNoTag(s);
    StripNoTag(StripTags(s));
  }

  /** The activity passes its text argument straight in: the result is that text stripped. */
  lemma ActivityInput(text: string)
    ensures CleanJsonHtml(Json.Str(text)) == Json.Str(StripTags(text))
  {
  }
}
