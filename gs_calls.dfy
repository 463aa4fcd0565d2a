/** The request building of the GraphSearch client: search filters, the document
    payload of a create or update call, the per-concept facets and the date sort.
    The HTTP calls themselves are not modelled: a built request is the result. */
module GsCalls {
  import opened Wrappers
  import opened Json
  import opened DateFormat

  const CreateSuffix := "/GraphSearch/api/content/create"
  const UpdateSuffix := "/GraphSearch/api/content/update"
  const SearchSuffix := "/GraphSearch/api/search"

  /** Text longer than this is cut when the text limit is on ... */
  const TextTrigger := 12048
  /** ... down to this many characters. */
  const TextKept := 12000

  const FacetPrefix := "dyn_flt_"
  const AllConceptsField := "dyn_uri_all_concepts"
  const ImageField := "dyn_txt_image"
  const FacetsField := "facets"

  const StartSentinel := "1970-01-01T23:00:00.000Z"
  const FinishSentinel := "NOW"

  /** A request as handed to the session: the full URL and the JSON body. */
  datatype Request = Request(url: string, body: map<string, Json>)

  /** `len(None)` raises: the text limit is on and no text was given. */
  datatype CreateError = TextIsNone

  // ---------------------------------------------------------------------------
  // Search filters

  /** One search filter: a dict with `field`, `value` and, for full text only, `optional`. */
  datatype Filter = Filter(field: string, value: string, optional: Option<bool>)

  function FilterToJson(f: Filter): Json
  {
    JObject(map["field" := JStr(f.field), "value" := JStr(f.value)]
            + (if f.optional.Some? then map["optional" := JBool(f.optional.value)] else map[]))
  }

  function FilterFullText(query: string): seq<Filter>
  {
    [Filter("full_text_search", query, Some(false))]
  }

  function FilterCpt(cptUri: string): seq<Filter>
  {
    [Filter("dyn_uri_all_concepts", cptUri, None)]
  }

  function FilterAuthor(author: string): seq<Filter>
  {
    [Filter("dyn_lit_author", author, None)]
  }

  function FilterId(id: string): seq<Filter>
  {
    [Filter("identifier", id, None)]
  }

  /** A date range `[start TO finish]`; a missing start is the 1970 sentinel, a missing finish is `NOW`. */
  function FilterDate(start: Option<DateTime> := None, finish: Option<DateTime> := None): seq<Filter>
  {
    var s := if start.Some? then FormatMillis(start.value) else StartSentinel;
    var f := if finish.Some? then FormatSeconds(finish.value) else FinishSentinel;
    [Filter("date", "[" + s + " TO " + f + "]", None)]
  }

  /** Each single-field constructor gives one filter on its own field, with the argument as value;
      only the full-text one says whether it is optional. */
  lemma SingleFilterConstructors(query: string, cptUri: string, author: string, id: string)
    ensures |FilterFullText(query)| == 1 && FilterFullText(query)[0] == Filter("full_text_search", query, Some(false))
    ensures |FilterCpt(cptUri)| == 1 && FilterCpt(cptUri)[0] == Filter("dyn_uri_all_concepts", cptUri, None)
    ensures |FilterAuthor(author)| == 1 && FilterAuthor(author)[0] == Filter("dyn_lit_author", author, None)
    ensures |FilterId(id)| == 1 && FilterId(id)[0] == Filter("identifier", id, None)
    ensures FilterCpt(cptUri)[0].field == AllConceptsField
  {
  }

  /** As JSON dicts: every filter has `field` and `value`; only the full-text filter carries
      `optional`, set to false. */
  lemma FilterJsonKeys(query: string, cptUri: string, author: string, id: string)
    ensures var j := FilterToJson(FilterFullText(query)[0]).fields;
      j.Keys == {"field", "value", "optional"} && j["field"] == JStr("full_text_search")
      && j["value"] == JStr(query) && j["optional"] == JBool(false)
    ensures var j := FilterToJson(FilterCpt(cptUri)[0]).fields;
      j.Keys == {"field", "value"} && j["field"] == JStr(AllConceptsField) && j["value"] == JStr(cptUri)
    ensures var j := FilterToJson(FilterAuthor(author)[0]).fields;
      j.Keys == {"field", "value"} && j["field"] == JStr("dyn_lit_author") && j["value"] == JStr(author)
    ensures var j := FilterToJson(FilterId(id)[0]).fields;
      j.Keys == {"field", "value"} && j["field"] == JStr("identifier") && j["value"] == JStr(id)
  {
  }

  /** Without dates the filter's value is the literal range from the sentinel to `NOW`. */
  lemma FilterDateDefault()
    ensures FilterDate()[0].value == "[1970-01-01T23:00:00.000Z TO NOW]"
  {
  }

  /** The start sentinel reads as a date in the milliseconds form: 23:00 on 1 January 1970. */
  lemma StartSentinelReadsBack()
    ensures ParseMillis(StartSentinel) == Some(Fields(1970, 1, 1, 23, 0, 0))
  {
    assert StartSentinel[19..] == ".000Z";
    ParseStampDigits(StartSentinel[..19]);
  }

  lemma RangeSlices(s: string, f: string)
    requires |s| == 24
    ensures var v := "[" + s + " TO " + f + "]";
      |v| == 30 + |f| && v[0] == '[' && v[|v| - 1] == ']' && v[1..25] == s && v[25..29] == " TO "
      && v[29..29 + |f|] == f
  {
  }

  /** The date filter's start: characters 1..25 of its value hold the start in the milliseconds
      form, or the sentinel, 23:00 on 1 January 1970, when there is none. */
  lemma FilterDateStart(start: Option<DateTime>, finish: Option<DateTime>)
    ensures var v := FilterDate(start, finish)[0].value;
      |v| >= 29 && v[0] == '[' && v[25..29] == " TO "
      && ParseMillis(v[1..25]) == Some(if start.Some? then start.value else Fields(1970, 1, 1, 23, 0, 0))
  {
    var s := if start.Some? then FormatMillis(start.value) else StartSentinel;
    var f := if finish.Some? then FormatSeconds(finish.value) else FinishSentinel;
    RangeSlices(s, f);
    if start.Some? {
      FormatMillisRoundTrip(start.value);
    } else {
      StartSentinelReadsBack();
    }
  }

  /** A given finish is written in the plain seconds form after ` TO `, then the closing `]`. */
  lemma FilterDateFinishGiven(start: Option<DateTime>, d: DateTime)
    ensures var v := FilterDate(start, Some(d))[0].value;
      |v| == 50 && v[49] == ']' && ParseSeconds(v[29..49]) == Some(d)
  {
    var s := if start.Some? then FormatMillis(start.value) else StartSentinel;
    RangeSlices(s, FormatSeconds(d));
    FormatSecondsRoundTrip(d);
  }

  /** Without a finish, `NOW` follows ` TO `, then the closing `]`. */
  lemma FilterDateFinishNow(start: Option<DateTime>)
    ensures var v := FilterDate(start, None)[0].value;
      |v| == 33 && v[32] == ']' && v[29..32] == "NOW"
  {
    var s := if start.Some? then FormatMillis(start.value) else StartSentinel;
    RangeSlices(s, FinishSentinel);
  }

  /** The date filter's finish: after ` TO ` comes the finish in the plain seconds form, or `NOW`
      when there is none, and then the closing `]`. */
  lemma FilterDateFinish(start: Option<DateTime>, finish: Option<DateTime>)
    ensures var v := FilterDate(start, finish)[0].value;
      |v| == (if finish.Some? then 50 else 33) && v[|v| - 1] == ']'
      && (finish.Some? ==> ParseSeconds(v[29..49]) == Some(finish.value))
      && (finish.None? ==> v[29..32] == "NOW")
  {
    if finish.Some? {
      FilterDateFinishGiven(start, finish.value);
    } else {
      FilterDateFinishNow(start);
    }
  }

  /** The date filter is one `date` filter, not optional, whose value reads back: the start in
      the milliseconds form (the sentinel when absent), ` TO `, the finish in the plain seconds
      form or `NOW`, and the closing bracket. */
  lemma FilterDateReadsBack(start: Option<DateTime>, finish: Option<DateTime>)
    ensures |FilterDate(start, finish)| == 1 && FilterDate(start, finish)[0].field == "date"
    ensures FilterDate(start, finish)[0].optional == None
    ensures var v := FilterDate(start, finish)[0].value;
      |v| == (if finish.Some? then 50 else 33) && v[0] == '[' && v[|v| - 1] == ']' && v[25..29] == " TO "
      && ParseMillis(v[1..25]) == Some(if start.Some? then start.value else Fields(1970, 1, 1, 23, 0, 0))
      && (finish.Some? ==> ParseSeconds(v[29..49]) == Some(finish.value))
      && (finish.None? ==> v[29..32] == "NOW")
  {
    FilterDateStart(start, finish);
    FilterDateFinish(start, finish);
  }

  // ---------------------------------------------------------------------------
  // The document payload of `_create`

  /** The text of the payload: cut to its first 12000 characters when the limit is on and it is
      longer than 12048. */
  function LimitText(text: string, textLimit: bool): string
  {
    if textLimit && |text| > TextTrigger then text[..TextKept] else text
  }

  /** The limit keeps a prefix of the text, never more than 12048 characters when on,
      and changes the text exactly when it is on and the text is over 12048 characters,
      in which case 12000 are left. */
  lemma LimitTextBounds(text: string, textLimit: bool)
    ensures LimitText(text, textLimit) <= text
    ensures textLimit ==> |LimitText(text, textLimit)| <= TextTrigger
    ensures LimitText(text, textLimit) != text <==> textLimit && |text| > TextTrigger
    ensures LimitText(text, textLimit) != text ==> |LimitText(text, textLimit)| == TextKept
  {
  }

  /** The payload before the extra fields are merged in. */
  function BasePayload(id: string, title: string, author: string, date: DateTime,
                       searchSpaceId: string, text: Option<string>): map<string, Json>
  {
    map["identifier" := JStr(id), "title" := JStr(title), "author" := JStr(author),
        "date" := JStr(FormatSeconds(date)),
        "text" := (if text.Some? then JStr(text.value) else JNull),
        "useExtraction" := JBool(false), "searchSpaceId" := JStr(searchSpaceId)]
  }

  /** The base payload has exactly the seven fields of `_create`. */
  lemma BasePayloadKeys(id: string, title: string, author: string, date: DateTime,
                        searchSpaceId: string, text: Option<string>)
    ensures BasePayload(id, title, author, date, searchSpaceId, text).Keys
      == {"identifier", "title", "author", "date", "text", "useExtraction", "searchSpaceId"}
  {
  }

  /** The base payload's values: the arguments as JSON strings, the date in the seconds form,
      which reads back, the text or null, and extraction always off. */
  lemma BasePayloadFields(id: string, title: string, author: string, date: DateTime,
                          searchSpaceId: string, text: Option<string>)
    ensures var b := BasePayload(id, title, author, date, searchSpaceId, text);
      && b["identifier"] == JStr(id) && b["title"] == JStr(title) && b["author"] == JStr(author)
      && b["date"].JStr? && ParseSeconds(b["date"].s) == Some(date)
      && b["text"] == (if text.Some? then JStr(text.value) else JNull)
      && b["useExtraction"] == JBool(false) && b["searchSpaceId"] == JStr(searchSpaceId)
  {
    FormatSecondsRoundTrip(date);
  }

  /** The extra fields whose key and value are both present, in order. */
  function KeptFields(kwargs: seq<(Option<string>, Json)>): seq<(string, Json)>
  {
    if kwargs == [] then []
    else
      var last := kwargs[|kwargs| - 1];
      KeptFields(kwargs[..|kwargs| - 1])
      + (if last.0.Some? && last.1 != JNull then [(last.0.value, last.1)] else [])
  }

  /** Whether pair `kw[i]` writes key `k` into the payload. */
  predicate Writes(kw: seq<(Option<string>, Json)>, i: int, k: string)
    requires 0 <= i < |kw|
  {
    kw[i].0 == Some(k) && kw[i].1 != JNull
  }

  /** The value of the last extra field that writes key `k`, if one does. */
  function LastWritten(kw: seq<(Option<string>, Json)>, k: string): Option<Json>
  {
    if kw == [] then None
    else if Writes(kw, |kw| - 1, k) then Some(kw[|kw| - 1].1)
    else LastWritten(kw[..|kw| - 1], k)
  }

  /** `LastWritten` finds the last writing field, and only misses when no field writes `k`. */
  lemma {:induction false} LastWrittenIndex(kw: seq<(Option<string>, Json)>, k: string)
    ensures LastWritten(kw, k).None? <==> forall i :: 0 <= i < |kw| ==> !Writes(kw, i, k)
    ensures LastWritten(kw, k).Some? ==>
      exists i :: 0 <= i < |kw| && Writes(kw, i, k) && kw[i].1 == LastWritten(kw, k).value
                  && (forall j :: i < j < |kw| ==> !Writes(kw, j, k))
  {
    if kw != [] {
      var n := |kw| - 1;
      var init := kw[..n];
      LastWrittenIndex(init, k);
      assert forall i :: 0 <= i < n ==> (Writes(init, i, k) <==> Writes(kw, i, k));
      if !Writes(kw, n, k) && LastWritten(init, k).Some? {
        var i :| 0 <= i < n && Writes(init, i, k) && init[i].1 == LastWritten(init, k).value
          && forall j :: i < j < n ==> !Writes(init, j, k);
        assert Writes(kw, i, k) && forall j :: i < j < |kw| ==> !Writes(kw, j, k);
      }
    }
  }

  lemma {:induction false} KeptFieldsLastAssigned(kw: seq<(Option<string>, Json)>, k: string)
    ensures LastAssigned(KeptFields(kw), k) == LastWritten(kw, k)
  {
    if kw != [] {
      var n := |kw| - 1;
      var init := kw[..n];
      KeptFieldsLastAssigned(init, k);
      var kept := KeptFields(kw);
      if kw[n].0.Some? && kw[n].1 != JNull {
        assert kept == KeptFields(init) + [(kw[n].0.value, kw[n].1)];
        assert kept[..|kept| - 1] == KeptFields(init);
      } else {
        assert kept == KeptFields(init);
      }
    }
  }

  /** The merge of the extra fields: a key that some field writes holds the value of the last
      field that writes it, overwriting the base; every other key keeps its base entry, or stays
      absent. */
  lemma ExtraFieldMerge(base: map<string, Json>, kw: seq<(Option<string>, Json)>, k: string)
    ensures LastWritten(kw, k).Some? ==>
      k in UpdateWith(base, KeptFields(kw)) && UpdateWith(base, KeptFields(kw))[k] == LastWritten(kw, k).value
    ensures LastWritten(kw, k).None? ==>
      (k in UpdateWith(base, KeptFields(kw)) <==> k in base)
      && (k in base ==> UpdateWith(base, KeptFields(kw))[k] == base[k])
  {
    KeptFieldsLastAssigned(kw, k);
    UpdateWithLookup(base, KeptFields(kw), k);
  }

  /** The extra fields `create_with_freqs` hands to `_create`: the facets, then the image URL
      (`None` when absent, so that it is left out). */
  function FreqsFields(facets: map<string, Json>, imageUrl: Option<string>): seq<(Option<string>, Json)>
  {
    [(Some(FacetsField), JObject(facets)), (Some(ImageField), if imageUrl.Some? then JStr(imageUrl.value) else JNull)]
  }

  /** Merging those fields sets the facets, sets the image exactly when there is one, and leaves
      the text as it is. */
  lemma FreqsFieldsMerge(base: map<string, Json>, facets: map<string, Json>, imageUrl: Option<string>)
    requires ImageField !in base
    ensures var body := UpdateWith(base, KeptFields(FreqsFields(facets, imageUrl)));
      && FacetsField in body && body[FacetsField] == JObject(facets)
      && (ImageField in body <==> imageUrl.Some?)
      && (imageUrl.Some? ==> body[ImageField] == JStr(imageUrl.value))
      && ("text" in body <==> "text" in base) && ("text" in base ==> body["text"] == base["text"])
  {
    var kw := FreqsFields(facets, imageUrl);
    var init := kw[..1];
    assert init == [kw[0]] && init[..0] == [];
    assert LastWritten(kw, FacetsField) == Some(JObject(facets)) by {
      assert ImageField != FacetsField;
      assert LastWritten(kw, FacetsField) == LastWritten(init, FacetsField);
    }
    assert LastWritten(kw, "text") == None by {
      assert ImageField != "text" && FacetsField != "text";
      assert LastWritten(kw, "text") == LastWritten(init, "text");
      assert LastWritten(init, "text") == LastWritten(init[..0], "text");
    }
    if imageUrl.None? {
      assert FacetsField != ImageField;
      assert LastWritten(kw, ImageField) == LastWritten(init, ImageField);
      assert LastWritten(init, ImageField) == LastWritten(init[..0], ImageField);
    }
    ExtraFieldMerge(base, kw, FacetsField);
    ExtraFieldMerge(base, kw, ImageField);
    ExtraFieldMerge(base, kw, "text");
  }

  // ---------------------------------------------------------------------------
  // The facets of `create_with_freqs`

  /** A concept annotation as the extractor returns it. */
  datatype Concept = Concept(uri: string, frequencyInDocument: int)

  /** `uri.split("/")[-1]`: what follows the last slash, or the whole URI if it has none. */
  function LastSegment(uri: string): string
  {
    if uri == [] || uri[|uri| - 1] == '/' then ""
    else LastSegment(uri[..|uri| - 1]) + [uri[|uri| - 1]]
  }

  /** The last segment is a suffix of the URI without a slash, preceded by a slash unless it is
      the whole URI. */
  lemma {:induction false} LastSegmentIsFinalSegment(uri: string)
    ensures var r := LastSegment(uri);
      |r| <= |uri| && r == uri[|uri| - |r|..] && '/' !in r
      && (|r| < |uri| ==> uri[|uri| - |r| - 1] == '/')
  {
    if uri != [] && uri[|uri| - 1] != '/' {
      var init := uri[..|uri| - 1];
      LastSegmentIsFinalSegment(init);
      var r := LastSegment(uri);
      var ri := LastSegment(init);
      assert r == ri + [uri[|uri| - 1]];
      assert uri[|uri| - |r|..] == init[|init| - |ri|..] + [uri[|uri| - 1]];
    }
  }

  /** The facet key of a concept: the numeric-facet prefix and the URI's final segment. */
  function FacetKey(c: Concept): string
  {
    FacetPrefix + LastSegment(c.uri)
  }

  /** `cpt_freqs` turned into `cpt_facets`: the one-element frequency list of each concept under its
      facet key, left to right, so that a later concept with the same final segment wins. */
  function FrequencyFacets(cpts: seq<Concept>): map<string, Json>
  {
    if cpts == [] then map[]
    else FrequencyFacets(cpts[..|cpts| - 1])[FacetKey(cpts[|cpts| - 1]) := JList([JInt(cpts[|cpts| - 1].frequencyInDocument)])]
  }

  /** `cpt_uris`: the concept URIs, as JSON strings, in input order. */
  function ConceptUris(cpts: seq<Concept>): seq<Json>
  {
    seq(|cpts|, i requires 0 <= i < |cpts| => JStr(cpts[i].uri))
  }

  /** `cpt_facets` after its update: the per-concept facets plus the list of all concept URIs. */
  function EncodeFacets(cpts: seq<Concept>): (r: map<string, Json>)
    ensures AllConceptsField in r && r[AllConceptsField].JList?
    ensures |r[AllConceptsField].items| == |cpts|
    ensures forall i :: 0 <= i < |cpts| ==> r[AllConceptsField].items[i] == JStr(cpts[i].uri)
  {
    FrequencyFacets(cpts)[AllConceptsField := JList(ConceptUris(cpts))]
  }

  /** No facet key collides with the all-concepts field, and distinct segments give distinct keys. */
  lemma FacetKeyDistinct(c: Concept, d: Concept)
    ensures FacetKey(c) != AllConceptsField
    ensures FacetKey(c) == FacetKey(d) <==> LastSegment(c.uri) == LastSegment(d.uri)
  {
    assert FacetKey(c)[4] == 'f';
    assert FacetKey(c)[|FacetPrefix|..] == LastSegment(c.uri);
    assert FacetKey(d)[|FacetPrefix|..] == LastSegment(d.uri);
  }

  /** Concept `i` is the last one with its final segment. */
  predicate LastWithSegment(cpts: seq<Concept>, i: int)
    requires 0 <= i < |cpts|
  {
    forall j :: i < j < |cpts| ==> LastSegment(cpts[j].uri) != LastSegment(cpts[i].uri)
  }

  /** The per-concept facets have a key for each concept and no other. */
  lemma {:induction false} FrequencyFacetsKeys(cpts: seq<Concept>)
    ensures forall k :: k in FrequencyFacets(cpts) <==> exists i :: 0 <= i < |cpts| && k == FacetKey(cpts[i])
  {
    if cpts != [] {
      var n := |cpts| - 1;
      var init := cpts[..n];
      FrequencyFacetsKeys(init);
      var key := FacetKey(cpts[n]);
      assert FrequencyFacets(cpts).Keys == FrequencyFacets(init).Keys + {key};
      forall k | k in FrequencyFacets(cpts) ensures exists i :: 0 <= i < |cpts| && k == FacetKey(cpts[i]) {
        if k != key {
          var i :| 0 <= i < n && k == FacetKey(init[i]);
          assert init[i] == cpts[i];
        }
      }
      forall i | 0 <= i < n ensures FacetKey(cpts[i]) in FrequencyFacets(cpts) {
        assert init[i] == cpts[i];
      }
    }
  }

  /** The facet of a key holds the frequency of the last concept with that final segment. */
  lemma {:induction false} FrequencyFacetsLastWins(cpts: seq<Concept>, i: int)
    requires 0 <= i < |cpts| && LastWithSegment(cpts, i)
    ensures FacetKey(cpts[i]) in FrequencyFacets(cpts)
    ensures FrequencyFacets(cpts)[FacetKey(cpts[i])] == JList([JInt(cpts[i].frequencyInDocument)])
  {
    var n := |cpts| - 1;
    if i < n {
      var init := cpts[..n];
      FacetKeyDistinct(cpts[i], cpts[n]);
      assert init[i] == cpts[i];
      assert LastWithSegment(init, i) by {
        forall j | i < j < n ensures LastSegment(init[j].uri) != LastSegment(init[i].uri) {
          assert init[j] == cpts[j];
        }
      }
      FrequencyFacetsLastWins(init, i);
    }
  }

  /** The facet keys are exactly `dyn_uri_all_concepts` and `dyn_flt_` + each concept's final
      segment; the facet of a segment is the one-element list holding the frequency of the last
      concept with that segment. */
  lemma FacetKeysAndValues(cpts: seq<Concept>)
    ensures forall k :: k in EncodeFacets(cpts) <==>
      k == AllConceptsField || exists i :: 0 <= i < |cpts| && k == FacetKey(cpts[i])
    ensures forall i :: 0 <= i < |cpts| && LastWithSegment(cpts, i) ==>
      FacetKey(cpts[i]) in EncodeFacets(cpts)
      && EncodeFacets(cpts)[FacetKey(cpts[i])] == JList([JInt(cpts[i].frequencyInDocument)])
  {
    FrequencyFacetsKeys(cpts);
    forall i | 0 <= i < |cpts| ensures FacetKey(cpts[i]) != AllConceptsField {
      FacetKeyDistinct(cpts[i], cpts[i]);
    }
    forall i | 0 <= i < |cpts| && LastWithSegment(cpts, i)
      ensures EncodeFacets(cpts)[FacetKey(cpts[i])] == JList([JInt(cpts[i].frequencyInDocument)])
    {
      FrequencyFacetsLastWins(cpts, i);
    }
  }

  // ---------------------------------------------------------------------------
  // Sorting search results by date

  /** A search hit: its `date` string and its other fields. */
  datatype Hit = Hit(date: string, fields: map<string, Json>)

  /** Python's `<=` on strings: code point by code point, a prefix before its extensions. */
  predicate StrLe(a: string, b: string)
  {
    if a == [] then true
    else if b == [] then false
    else if a[0] != b[0] then a[0] < b[0]
    else StrLe(a[1..], b[1..])
  }

  lemma {:induction false} StrLeReflexive(a: string)
    ensures StrLe(a, a)
  {
    if a != [] { StrLeReflexive(a[1..]); }
  }

  lemma {:induction false} StrLeTotal(a: string, b: string)
    ensures StrLe(a, b) || StrLe(b, a)
  {
    if a != [] && b != [] && a[0] == b[0] { StrLeTotal(a[1..], b[1..]); }
  }

  lemma {:induction false} StrLeTransitive(a: string, b: string, c: string)
    requires StrLe(a, b) && StrLe(b, c)
    ensures StrLe(a, c)
  {
    if a != [] && b != [] && c != [] && a[0] == b[0] && b[0] == c[0] {
      StrLeTransitive(a[1..], b[1..], c[1..]);
    }
  }

  predicate SortedByDate(s: seq<Hit>)
  {
    forall i, j :: 0 <= i < j < |s| ==> StrLe(s[i].date, s[j].date)
  }

  /** Puts `h` before the first hit whose date is not below its own. */
  function InsertByDate(h: Hit, s: seq<Hit>): seq<Hit>
  {
    if s == [] then [h]
    else if StrLe(h.date, s[0].date) then [h] + s
    else [s[0]] + InsertByDate(h, s[1..])
  }

  /** Inserting adds exactly the one hit. */
  lemma {:induction false} InsertByDatePermutes(h: Hit, s: seq<Hit>)
    ensures multiset(InsertByDate(h, s)) == multiset(s) + multiset{h}
  {
    if s != [] && !StrLe(h.date, s[0].date) {
      InsertByDatePermutes(h, s[1..]);
      assert s == [s[0]] + s[1..];
    }
  }

  /** The hits after inserting are the inserted one and the ones before. */
  lemma {:induction false} InsertByDateMembers(h: Hit, s: seq<Hit>)
    ensures forall x :: x in InsertByDate(h, s) <==> x == h || x in s
  {
    if s != [] && !StrLe(h.date, s[0].date) {
      InsertByDateMembers(h, s[1..]);
      assert s == [s[0]] + s[1..];
    }
  }

  lemma {:induction false} InsertByDateSorted(h: Hit, s: seq<Hit>)
    requires SortedByDate(s)
    ensures SortedByDate(InsertByDate(h, s))
  {
    if s == [] {
    } else if StrLe(h.date, s[0].date) {
      forall j | 0 < j < |s| + 1 ensures StrLe(h.date, ([h] + s)[j].date) {
        if j > 1 { StrLeTransitive(h.date, s[0].date, s[j - 1].date); }
      }
    } else {
      var rest := InsertByDate(h, s[1..]);
      InsertByDateSorted(h, s[1..]);
      InsertByDateMembers(h, s[1..]);
      StrLeTotal(h.date, s[0].date);
      forall j | 0 <= j < |rest| ensures StrLe(s[0].date, rest[j].date) {
        assert rest[j] in rest;
        if rest[j] != h {
          var k :| 0 <= k < |s[1..]| && s[1..][k] == rest[j];
          assert s[k + 1] == rest[j];
        }
      }
    }
  }

  /** `sorted(results, key=date)`: a stable insertion sort on the date strings. */
  function SortByDate(results: seq<Hit>): (r: seq<Hit>)
    ensures multiset(r) == multiset(results)
    ensures SortedByDate(r)
  {
    if results == [] then []
    else
      assert results == [results[0]] + results[1..];
      var sortedRest := SortByDate(results[1..]);
      InsertByDateSorted(results[0], sortedRest);
      InsertByDatePermutes(results[0], sortedRest);
      InsertByDate(results[0], sortedRest)
  }

  /** The hits of `s` carrying date `d`, in order. */
  function DatedAs(s: seq<Hit>, d: string): seq<Hit>
  {
    if s == [] then [] else (if s[0].date == d then [s[0]] else []) + DatedAs(s[1..], d)
  }

  lemma DatedAsCons(x: Hit, t: seq<Hit>, d: string)
    ensures DatedAs([x] + t, d) == (if x.date == d then [x] else []) + DatedAs(t, d)
  {
    assert ([x] + t)[0] == x && ([x] + t)[1..] == t;
  }

  lemma {:induction false} InsertByDateDatedAs(h: Hit, s: seq<Hit>, d: string)
    ensures DatedAs(InsertByDate(h, s), d) == (if h.date == d then [h] else []) + DatedAs(s, d)
  {
    if s == [] {
      DatedAsCons(h, [], d);
      assert [h] + [] == [h];
    } else if StrLe(h.date, s[0].date) {
      DatedAsCons(h, s, d);
    } else {
      StrLeReflexive(h.date);
      var rest := InsertByDate(h, s[1..]);
      InsertByDateDatedAs(h, s[1..], d);
      DatedAsCons(s[0], rest, d);
      assert s == [s[0]] + s[1..];
      DatedAsCons(s[0], s[1..], d);
      assert s[0].date == d ==> h.date != d;
    }
  }

  /** The sort is stable: hits with the same date keep their input order. */
  lemma {:induction false} SortByDateStable(results: seq<Hit>, d: string)
    ensures DatedAs(SortByDate(results), d) == DatedAs(results, d)
  {
    if results != [] {
      SortByDateStable(results[1..], d);
      InsertByDateDatedAs(results[0], SortByDate(results[1..]), d);
    }
  }

  // ---------------------------------------------------------------------------
  // The client object

  /** The GraphSearch client: a server address (the session is not modelled). */
  class GraphSearch {
    const server: string

    constructor (server: string)
      ensures this.server == server
    {
      this.server := server;
    }

    /** `_create`: the request that creates (or, with `update`, updates) a document. */
    method Create(id: string, title: string, author: string, date: DateTime, searchSpaceId: string,
                  text: Option<string> := None, update: bool := false, textLimit: bool := true,
                  kwargs: seq<(Option<string>, Json)> := [])
      returns (r: Result<Request, CreateError>)
      ensures r.Err? <==> textLimit && text.None?
      ensures r.Ok? ==> r.value.url == server + (if update then UpdateSuffix else CreateSuffix)
      ensures r.Ok? ==> r.value.body == UpdateWith(
        BasePayload(id, title, author, date, searchSpaceId,
                    if text.Some? then Some(LimitText(text.value, textLimit)) else None),
        KeptFields(kwargs))
    {
      var text := text;
      if textLimit {
        if text.None? {
          return Err(TextIsNone);
        }
        if |text.value| > TextTrigger {
          text := Some(text.value[..TextKept]);
        }
      }
      var suffix;
      if !update {
        suffix := CreateSuffix;
      } else {
        suffix := UpdateSuffix;
      }
      var data := BasePayload(id, title, author, date, searchSpaceId, text);
      ghost var base := data;
      var i := 0;
      while i < |kwargs|
        invariant 0 <= i <= |kwargs|
        invariant data == UpdateWith(base, KeptFields(kwargs[..i]))
      {
        var (k, v) := kwargs[i];
        assert kwargs[..i + 1][..i] == kwargs[..i];
        if k.Some? && v != JNull {
          ghost var kept := KeptFields(kwargs[..i + 1]);
          assert kept == KeptFields(kwargs[..i]) + [(k.value, v)];
          assert kept[..|kept| - 1] == KeptFields(kwargs[..i]);
          data := data[k.value := v];
        } else {
          assert KeptFields(kwargs[..i + 1]) == KeptFields(kwargs[..i]);
        }
        i := i + 1;
      }
      assert kwargs[..i] == kwargs;
      return Ok(Request(server + suffix, data));
    }

    /** `create_with_freqs`: a create request carrying the concept facets and the image URL. */
    method CreateWithFreqs(id: string, title: string, author: string, date: DateTime, cpts: seq<Concept>,
                           searchSpaceId: string, imageUrl: Option<string> := None, text: Option<string> := None,
                           update: bool := false)
      returns (r: Result<Request, CreateError>)
      ensures r.Err? <==> text.None?
      ensures r.Ok? ==> r.value.url == server + (if update then UpdateSuffix else CreateSuffix)
      ensures r.Ok? ==> text.Some? && r.value.body == UpdateWith(
        BasePayload(id, title, author, date, searchSpaceId, Some(LimitText(text.value, true))),
        KeptFields(FreqsFields(EncodeFacets(cpts), imageUrl)))
      ensures r.Ok? ==> FacetsField in r.value.body && r.value.body[FacetsField] == JObject(EncodeFacets(cpts))
      ensures r.Ok? ==> (ImageField in r.value.body <==> imageUrl.Some?)
      ensures r.Ok? && imageUrl.Some? ==> r.value.body[ImageField] == JStr(imageUrl.value)
      ensures r.Ok? ==> "text" in r.value.body && r.value.body["text"] == JStr(LimitText(text.value, true))
    {
      var kwargs := FreqsFields(EncodeFacets(cpts), imageUrl);
      r := Create(id, title, author, date, searchSpaceId, text := text, update := update, kwargs := kwargs);
      if r.Ok? {
        var base := BasePayload(id, title, author, date, searchSpaceId, Some(LimitText(text.value, true)));
        FreqsFieldsMerge(base, EncodeFacets(cpts), imageUrl);
      }
    }

    /** `search`: the request for a search space, with optional filters and extra parameters. */
    method Search(searchSpaceId: string, searchFilters: Option<seq<Filter>> := None, locale: string := "en",
                  kwargs: seq<(string, Json)> := [])
      returns (req: Request)
      ensures req.url == server + SearchSuffix
      ensures req.body == UpdateWith(SearchPayload(searchSpaceId, searchFilters, locale), kwargs)
    {
      var data := map["searchSpaceId" := JStr(searchSpaceId), "locale" := JStr(locale),
                       "documentFacets" := JList([JStr("all")])];
      if searchFilters.Some? {
        data := data["searchFilters" := FiltersToJson(searchFilters.value)];
      }
      ghost var base := data;
      assert base == SearchPayload(searchSpaceId, searchFilters, locale);
      var i := 0;
      while i < |kwargs|
        invariant 0 <= i <= |kwargs|
        invariant data == UpdateWith(base, kwargs[..i])
      {
        assert kwargs[..i + 1][..i] == kwargs[..i];
        data := data[kwargs[i].0 := kwargs[i].1];
        i := i + 1;
      }
      assert kwargs[..i] == kwargs;
      req := Request(server + SearchSuffix, data);
    }
  }

  /** The `searchFilters` list: each filter as its JSON dict, in order. */
  function FiltersToJson(fs: seq<Filter>): (r: Json)
    ensures r.JList? && |r.items| == |fs|
    ensures forall i :: 0 <= i < |fs| ==> r.items[i] == FilterToJson(fs[i])
  {
    JList(seq(|fs|, i requires 0 <= i < |fs| => FilterToJson(fs[i])))
  }

  /** The search body before the extra parameters. */
  function SearchPayload(searchSpaceId: string, searchFilters: Option<seq<Filter>>, locale: string): map<string, Json>
  {
    map["searchSpaceId" := JStr(searchSpaceId), "locale" := JStr(locale), "documentFacets" := JList([JStr("all")])]
    + (if searchFilters.Some? then map["searchFilters" := FiltersToJson(searchFilters.value)] else map[])
  }

  /** A search always asks for all document facets and carries the filters exactly when some are
      given, unless an extra parameter of the same name overrides them; extra parameters are
      passed through, the last one of a name winning. */
  lemma SearchPayloadFields(searchSpaceId: string, searchFilters: Option<seq<Filter>>, locale: string,
                            kwargs: seq<(string, Json)>)
    ensures var body := UpdateWith(SearchPayload(searchSpaceId, searchFilters, locale), kwargs);
      (LastAssigned(kwargs, "documentFacets").None? ==>
         "documentFacets" in body && body["documentFacets"] == JList([JStr("all")]))
      && (LastAssigned(kwargs, "searchFilters").None? ==>
            ("searchFilters" in body <==> searchFilters.Some?)
            && (searchFilters.Some? ==> "searchFilters" in body && body["searchFilters"] == FiltersToJson(searchFilters.value)))
      && (LastAssigned(kwargs, "searchSpaceId").None? ==>
            "searchSpaceId" in body && body["searchSpaceId"] == JStr(searchSpaceId))
      && (LastAssigned(kwargs, "locale").None? ==> "locale" in body && body["locale"] == JStr(locale))
      && (forall k :: LastAssigned(kwargs, k).Some? ==> k in body && body[k] == LastAssigned(kwargs, k).value)
  {
    var base := SearchPayload(searchSpaceId, searchFilters, locale);
    UpdateWithLookup(base, kwargs, "searchSpaceId");
    UpdateWithLookup(base, kwargs, "locale");
  }
}
