# pp_api in Dafny

A model of the computational core of `pp_api`, a Python client for the PoolParty
thesaurus server, its GraphSearch index and a Virtuoso SPARQL endpoint. The HTTP traffic is
not modelled. What remains is the code that builds requests and post-processes results:

- **GraphSearch requests** (`gs_calls.dfy`, module `GsCalls`):
  - the `filter_*` search-filter builders, including the `[start TO finish]` date range;
  - the document payload of `_create`: text truncation, choice of the create or update
    endpoint, and the merge of extra fields;
  - the concept facets of `create_with_freqs`;
  - the body of `search`;
  - `sort_by_date`.
  
  `GsCalls.GraphSearch` is a class holding `server`. Its methods return the `Request` (URL and
  JSON body) that the source posts. `date_format.dfy` models the two `strftime` patterns the
  client writes dates with, together with a reader for them. `json.dfy` holds the JSON values
  and Python's `dict.update`.
- **Annotation spans** (`extractor_utils.dfy`, module `ExtractorUtils`):
  - `ppextract2matches` flattens extractor results into `(start, end, tag, content)` edits in
    three nested loops;
  - `remove_overlaps` dedups, groups by start, keeps a longest span per start, sorts, and
    greedily drops spans that start at or before the last kept end.
  
  `RemoveOverlaps` is proved against a specification, `CleanedFrom`: the greedy `Scan` of some
  sorted choice of one longest span per start. Its consequences are proved as lemmas: subset,
  uniqueness, strict order, non-overlap, longest per start, the first survivor, and coverage
  of the input.
- **Similarity and term maps** (`virtuoso_calls.dfy`, module `VirtuosoCalls`):
  - `get_corpus_zscores` fills a pair map from co-occurrence bindings, takes its maximum and
    normalises it in place;
  - the returned `similarity` closure is modelled as a function of the final map;
  - `get_pp_terms` builds two name-keyed maps.
  
  The query results are inputs: sequences of bindings.
- **Dictionary projection** (`utils.dfy`, module `Utils`): `subdict`.

Parameters stand in for what the model does not compute:

- `np.log2` is a parameter `log2: real -> real`.
- Python's `str.format` applied to a tag pattern is a parameter `render`: a function of the
  pattern, the concept and the offsets.
- Python strings are `seq<char>`, compared code point by code point (`StrLe`).
- Python's `None` inside JSON values is `JNull`.
- Python's keyword defaults are Dafny default parameter values:
  - `_create`: `text := None`, `update := false`, `textLimit := true`, no extra fields.
  - `create_with_freqs`: `imageUrl := None`, `text := None`, `update := false`.
  - `filter_date`: `start := None`, `finish := None`.
  - `search`: `searchFilters := None`, `locale := "en"`, no extra parameters.
  - `ppextract2matches`: `tag := None` (the `{prefLabel}` pattern), `overlaps := true`. The
    `render` parameter follows them and is passed by name.
  - `subdict`: `default := JNull`, `force := false`.

## Model

| member | source | states |
|---|---|---|
| `DateFormat.Padded` | pp_api/gs_calls.py:85 | a `%d`-style field is exactly `width` characters, all decimal digits |
| `DateFormat.PaddedRoundTrip` | pp_api/gs_calls.py:85 | a number below 10^width reads back from its zero-padded digits |
| `DateFormat.FormatSeconds` | pp_api/gs_calls.py:85 | the `%Y-%m-%dT%H:%M:%SZ` form is 20 characters and ends in `Z` |
| `DateFormat.FormatMillis` | pp_api/gs_calls.py:234 | the `%Y-%m-%dT%H:%M:%S.000Z` form is 24 characters and ends in `.000Z` |
| `DateFormat.StampRoundTrip` | pp_api/gs_calls.py:85 | the shared `%Y-%m-%dT%H:%M:%S` stamp parses back to the same six date fields |
| `DateFormat.FormatSecondsRoundTrip` | pp_api/gs_calls.py:237 | parsing the seconds form gives back the date: the format loses nothing |
| `DateFormat.ParseStampDigits` | pp_api/gs_calls.py:234-237 | a stamp with the separators of `%Y-%m-%dT%H:%M:%S` and digits elsewhere reads as the values of its digit groups |
| `DateFormat.FormatMillisRoundTrip` | pp_api/gs_calls.py:234 | parsing the milliseconds form gives back the date |
| `Json.LastAssigned` | pp_api/gs_calls.py:178-180 | a key has a last assignment exactly when some pair assigns it |
| `Json.UpdateWith` | pp_api/gs_calls.py:178-180 | specified by `UpdateWithLookup` |
| `Json.UpdateWithLookup` | pp_api/gs_calls.py:178-180 | after `dict.update`, an assigned key holds its last assigned value; every other key is present and valued as in the base, or absent |
| `GsCalls.FilterFullText` | pp_api/gs_calls.py:194-200 | specified by `SingleFilterConstructors` and `FilterJsonKeys`: one `full_text_search` filter on the query, with `optional: False` |
| `GsCalls.FilterCpt` | pp_api/gs_calls.py:203-208 | specified by `SingleFilterConstructors` and `FilterJsonKeys`: one `dyn_uri_all_concepts` filter on the URI, without `optional` |
| `GsCalls.FilterAuthor` | pp_api/gs_calls.py:211-216 | specified by `SingleFilterConstructors` and `FilterJsonKeys`: one `dyn_lit_author` filter on the author, without `optional` |
| `GsCalls.FilterId` | pp_api/gs_calls.py:219-224 | specified by `SingleFilterConstructors` and `FilterJsonKeys`: one `identifier` filter on the id, without `optional` |
| `GsCalls.FilterJsonKeys` | pp_api/gs_calls.py:194-224 | as JSON dicts, each filter has exactly `field` and `value` with the arguments, plus `optional: False` for full text only |
| `GsCalls.FilterToJson` | pp_api/gs_calls.py:195-198 | specified by `FilterJsonKeys`: a filter as its JSON dict with `field`, `value` and, when set, `optional` |
| `GsCalls.FilterDate` | pp_api/gs_calls.py:227-245 | specified by `FilterDateReadsBack`, `FilterDateStart`, `FilterDateFinish` and `FilterDateDefault` |
| `GsCalls.FilterDateDefault` | pp_api/gs_calls.py:227-245 | called with its defaults, the value is exactly `[1970-01-01T23:00:00.000Z TO NOW]` |
| `GsCalls.SingleFilterConstructors` | pp_api/gs_calls.py:193-224 | each single-field builder returns exactly one filter on `full_text_search`, `dyn_uri_all_concepts`, `dyn_lit_author` or `identifier` with the argument as value; only the full-text one carries `optional: False` |
| `GsCalls.StartSentinelReadsBack` | pp_api/gs_calls.py:236 | the start sentinel is a valid milliseconds-form date: 23:00 on 1 January 1970 |
| `GsCalls.RangeSlices` | pp_api/gs_calls.py:240 | the range string is `[`, the 24-character start, ` TO `, the finish and `]`, at fixed offsets |
| `GsCalls.FilterDateStart` | pp_api/gs_calls.py:234-245 | characters 1..25 of the date filter's value read back, in the milliseconds form, as the start, or as 23:00 on 1 January 1970 when there is none |
| `GsCalls.FilterDateFinishGiven` | pp_api/gs_calls.py:237-240 | a given finish date reads back from characters 29..49 of the value, in the seconds form, and `]` closes it |
| `GsCalls.FilterDateFinishNow` | pp_api/gs_calls.py:237-240 | without a finish date the value ends in `NOW]` |
| `GsCalls.FilterDateFinish` | pp_api/gs_calls.py:234-245 | after ` TO ` the date filter's value holds the finish in the seconds form, or `NOW` when there is none, then `]` |
| `GsCalls.FilterDateReadsBack` | pp_api/gs_calls.py:234-245 | exactly one `date` filter; its value is bracketed; the start reads back in the milliseconds form (the sentinel when absent); the finish reads back in the seconds form, or is `NOW` |
| `GsCalls.LimitText` | pp_api/gs_calls.py:75-76 | specified by `LimitTextBounds` |
| `GsCalls.BasePayload` | pp_api/gs_calls.py:81-89 | specified by `BasePayloadKeys` and `BasePayloadFields` |
| `GsCalls.BasePayloadKeys` | pp_api/gs_calls.py:81-89 | the payload has exactly `identifier`, `title`, `author`, `date`, `text`, `useExtraction` and `searchSpaceId` |
| `GsCalls.BasePayloadFields` | pp_api/gs_calls.py:81-89 | the arguments as JSON strings, the date in `%Y-%m-%dT%H:%M:%SZ` form that reads back as the date, the text or null, `useExtraction` false |
| `GsCalls.LimitTextBounds` | pp_api/gs_calls.py:75-76 | the limited text is a prefix of the text; it changes exactly when the limit is on and the text is over 12048 characters, and then it is the first 12000 |
| `GsCalls.LastWrittenIndex` | pp_api/gs_calls.py:90-92 | the last extra field writing a key is found, and is missed only when no field writes the key |
| `GsCalls.KeptFields` | pp_api/gs_calls.py:90-92 | specified by `KeptFieldsLastAssigned` and `LastWrittenIndex`: the extra fields whose key and value are not `None`, in call order |
| `GsCalls.KeptFieldsLastAssigned` | pp_api/gs_calls.py:90-92 | dropping pairs with a `None` key or value leaves, as last assignment of each key, the last pair that writes it |
| `GsCalls.ExtraFieldMerge` | pp_api/gs_calls.py:81-92 | a key written by some non-`None` extra field holds the last such value, overriding the base payload; every other key keeps its base value or stays absent |
| `GsCalls.LastSegment` | pp_api/gs_calls.py:109 | specified by `LastSegmentIsFinalSegment` |
| `GsCalls.LastSegmentIsFinalSegment` | pp_api/gs_calls.py:109 | `uri.split("/")[-1]` is the slash-free suffix of the URI, preceded by a slash unless it is the whole URI |
| `GsCalls.ConceptUris` | pp_api/gs_calls.py:107 | specified by `EncodeFacets`: the concept URIs in input order |
| `GsCalls.EncodeFacets` | pp_api/gs_calls.py:107-116 | `dyn_uri_all_concepts` is always present and lists the concept URIs in input order, one per concept |
| `GsCalls.FacetKeyDistinct` | pp_api/gs_calls.py:112 | no `dyn_flt_` key collides with `dyn_uri_all_concepts`; two concepts share a facet key exactly when their URIs share a final segment |
| `GsCalls.FrequencyFacets` | pp_api/gs_calls.py:108-113 | specified by `FrequencyFacetsKeys` and `FrequencyFacetsLastWins` |
| `GsCalls.FrequencyFacetsKeys` | pp_api/gs_calls.py:108-113 | the per-concept facet keys are exactly `dyn_flt_` plus each concept's final segment |
| `GsCalls.FrequencyFacetsLastWins` | pp_api/gs_calls.py:108-113 | a facet holds the one-element list of the frequency of the last concept with that final segment |
| `GsCalls.FacetKeysAndValues` | pp_api/gs_calls.py:107-116 | the facet map's keys are exactly the all-concepts field and the per-concept keys; each per-concept value is the one-element frequency list of the last concept with that segment |
| `GsCalls.StrLeReflexive` | pp_api/gs_calls.py:301-304 | string order is reflexive |
| `GsCalls.StrLeTotal` | pp_api/gs_calls.py:301-304 | string order is total |
| `GsCalls.StrLeTransitive` | pp_api/gs_calls.py:301-304 | string order is transitive |
| `GsCalls.InsertByDatePermutes` | pp_api/gs_calls.py:301-304 | inserting adds exactly the hit to the multiset of hits |
| `GsCalls.InsertByDateMembers` | pp_api/gs_calls.py:301-304 | after inserting, the hits are the inserted one and those before, no other |
| `GsCalls.InsertByDateSorted` | pp_api/gs_calls.py:301-304 | inserting into a date-sorted list keeps it date-sorted |
| `GsCalls.SortByDate` | pp_api/gs_calls.py:300-305 | the result is a permutation of the results with dates in non-decreasing order |
| `GsCalls.InsertByDateDatedAs` | pp_api/gs_calls.py:301-304 | insertion puts the hit before every hit of its own date |
| `GsCalls.SortByDateStable` | pp_api/gs_calls.py:300-305 | the sort is stable: the hits of each date keep their input order |
| `GsCalls.GraphSearch.constructor` | pp_api/gs_calls.py:8-9 | the client keeps the given server address |
| `GsCalls.GraphSearch.Create` | pp_api/gs_calls.py:63-96 | fails exactly when the limit is on and there is no text; otherwise posts to `server` plus the create or update suffix as `update` says, with the base payload (limited text) updated by the extra fields whose key and value are not `None`, in order |
| `GsCalls.FreqsFields` | pp_api/gs_calls.py:117-122 | specified by `FreqsFieldsMerge`: the `facets=` and `dyn_txt_image=` keyword arguments |
| `GsCalls.FreqsFieldsMerge` | pp_api/gs_calls.py:117-122 | merging `facets=` and `dyn_txt_image=` sets the facets, sets the image exactly when a URL is given, and leaves `text` as `_create` built it |
| `GsCalls.GraphSearch.CreateWithFreqs` | pp_api/gs_calls.py:104-122 | fails exactly when there is no text; otherwise the whole body is `_create`'s base payload, with the text limited, updated by the `facets` and `dyn_txt_image` fields; the body's `facets` is the encoded facet map; `dyn_txt_image` is present exactly when an image URL is given and then holds it; the text is limited |
| `GsCalls.GraphSearch.Search` | pp_api/gs_calls.py:159-184 | posts to `server` + `/GraphSearch/api/search` the base search body updated by the extra parameters |
| `GsCalls.FiltersToJson` | pp_api/gs_calls.py:177-178 | the `searchFilters` value: a list holding each filter's JSON dict, in order |
| `GsCalls.SearchPayload` | pp_api/gs_calls.py:172-178 | specified by `SearchPayloadFields` |
| `GsCalls.SearchPayloadFields` | pp_api/gs_calls.py:171-180 | unless overridden by an extra parameter, the body holds the search space id and the locale, asks for all document facets and carries `searchFilters` exactly when filters are given; each extra parameter's last value is in the body |
| `ExtractorUtils.FlattenAppend` | pp_api/extractor_utils.py:57-68 | flattening a concatenation of concept lists concatenates their edits: input order is kept |
| `ExtractorUtils.ShadowConceptContributesNothing` | pp_api/extractor_utils.py:60-62 | a concept without matchings adds no edits wherever it stands |
| `ExtractorUtils.MatchingEditsCount` | pp_api/extractor_utils.py:64-68 | one concept yields one edit per (matching, position) |
| `ExtractorUtils.FlattenCount` | pp_api/extractor_utils.py:57-68 | there are exactly as many edits as (concept, matching, position) triples |
| `ExtractorUtils.MatchingEditsMembers` | pp_api/extractor_utils.py:64-68 | an edit is produced for a concept exactly when it is the edit of one of its (matching, position) pairs |
| `ExtractorUtils.Flatten` | pp_api/extractor_utils.py:57-68 | specified by `FlattenAppend`, `FlattenCount`, `FlattenMembers` and `ShadowConceptContributesNothing` |
| `ExtractorUtils.FlattenMembers` | pp_api/extractor_utils.py:57-68 | an edit is produced exactly when it copies the start and end of some position, carries the rendered tag and the matching's text |
| `ExtractorUtils.ScanSubset` | pp_api/extractor_utils.py:106-114 | the greedy scan keeps only spans of its input |
| `ExtractorUtils.ScanOffset` | pp_api/extractor_utils.py:106-114 | the scan's offset is -1 before any span is kept and afterwards the end of the last kept span |
| `ExtractorUtils.Scan` | pp_api/extractor_utils.py:106-114 | specified by `ScanSubset`, `ScanOffset`, `ScanOrdered`, `ScanDropped` and `ScanFirst` |
| `ExtractorUtils.ScanOrdered` | pp_api/extractor_utils.py:106-114 | on input strictly ordered by start the kept spans are strictly ordered and each starts after the previous one ended |
| `ExtractorUtils.LastDroppedInside` | pp_api/extractor_utils.py:109-112 | on input strictly ordered by start, a last span the scan drops (start at 0 or later) starts inside the last span kept |
| `ExtractorUtils.ScanDropped` | pp_api/extractor_utils.py:109-112 | on input strictly ordered by start every dropped span starts inside a kept span (after its start, at or before its end), or has a negative start |
| `ExtractorUtils.ScanFirst` | pp_api/extractor_utils.py:107-114 | a first span starting at 0 or later is the first span kept |
| `ExtractorUtils.CleanedProperties` | pp_api/extractor_utils.py:76-116 | a cleaned list is a duplicate-free subset of the input, strictly increasing by start, non-overlapping, with a longest span at each kept start; with non-empty input and non-negative starts it is non-empty and starts at the input's smallest start |
| `ExtractorUtils.FirstSurvivor` | pp_api/extractor_utils.py:104-113 | the first kept span has the smallest start of the input |
| `ExtractorUtils.CleanedCoversInput` | pp_api/extractor_utils.py:106-114 | each input span shares its start with a kept span, starts inside a kept span, or starts below 0 |
| `ExtractorUtils.LastLongest` | pp_api/extractor_utils.py:102 | the kept member of a group is one of its members with the largest end |
| `ExtractorUtils.GroupByStart` | pp_api/extractor_utils.py:90-96 | each group is non-empty and holds exactly the input spans with its start; every input start has a group |
| `ExtractorUtils.KeepLongest` | pp_api/extractor_utils.py:100-102 | the groups keep their keys; a group of several spans becomes the one-element list of its last longest span, and singletons stay |
| `ExtractorUtils.FirstOfEach` | pp_api/extractor_utils.py:104 | one span per group, each its group's first, with distinct starts, covering every group |
| `ExtractorUtils.InsertByStartPermutes` | pp_api/extractor_utils.py:104 | insertion adds exactly the span to the multiset |
| `ExtractorUtils.InsertByStartMembers` | pp_api/extractor_utils.py:104 | after inserting, the spans are the inserted one and those before, no other |
| `ExtractorUtils.InsertByStartOrdered` | pp_api/extractor_utils.py:104 | inserting a span with a new start into a strictly ordered list keeps it strictly ordered |
| `ExtractorUtils.SortByStart` | pp_api/extractor_utils.py:104 | sorting permutes its input |
| `ExtractorUtils.SortByStartOrdered` | pp_api/extractor_utils.py:104 | spans with distinct starts are sorted into strictly increasing starts |
| `ExtractorUtils.SortByStartMembers` | pp_api/extractor_utils.py:104 | sorting keeps exactly the spans it was given |
| `ExtractorUtils.DropOverlapping` | pp_api/extractor_utils.py:106-114 | the loop returns exactly the greedy scan of its input |
| `ExtractorUtils.TrimmedLongest` | pp_api/extractor_utils.py:93-102 | after grouping and trimming, every group's first span starts at its key and is a longest span at that start |
| `ExtractorUtils.FirstsRepresent` | pp_api/extractor_utils.py:104 | the picked spans are longest at their starts and cover every input start |
| `ExtractorUtils.SortedLongest` | pp_api/extractor_utils.py:104 | sorting keeps every span a longest one among those sharing its start |
| `ExtractorUtils.SortedCovers` | pp_api/extractor_utils.py:104 | sorting keeps a span for every start offset of the input |
| `ExtractorUtils.SortedRepresentatives` | pp_api/extractor_utils.py:104 | sorting one longest span per start gives a strictly ordered representative list |
| `ExtractorUtils.RemoveOverlaps` | pp_api/extractor_utils.py:76-116 | the result is the scan of a sorted choice of longest span per start; it is a subset of the input, strictly increasing by start, non-overlapping, and longest at each start |
| `ExtractorUtils.AppendPositions` | pp_api/extractor_utils.py:65-68 | appends one edit per position of a matching, in order |
| `ExtractorUtils.AppendConcept` | pp_api/extractor_utils.py:61-68 | appends a concept's edits matching by matching; a shadow concept (no `matchings`) adds nothing |
| `ExtractorUtils.TagPattern` | pp_api/extractor_utils.py:54-55 | specified by `TagPatternChoice` |
| `ExtractorUtils.TagPatternChoice` | pp_api/extractor_utils.py:54-55 | without a tag the pattern is `{prefLabel}`; a given tag is used unchanged |
| `ExtractorUtils.PpExtractToMatches` | pp_api/extractor_utils.py:54-73 | with `tag` absent the pattern is `{prefLabel}`; with overlaps the result is exactly the flattened edits in nested input order; without, it is a cleaning of them as `remove_overlaps` returns |
| `VirtuosoCalls.Retained` | pp_api/virtuoso_calls.py:37-44 | specified by `RetainedKeys` and `RetainedLastWins` |
| `VirtuosoCalls.RetainedKeys` | pp_api/virtuoso_calls.py:40-44 | a pair is stored exactly when both URIs are terms and some binding carries that ordered pair |
| `VirtuosoCalls.RetainedLastWins` | pp_api/virtuoso_calls.py:40-44 | a stored pair holds the transformed score of its last binding |
| `VirtuosoCalls.MaximumUnique` | pp_api/virtuoso_calls.py:45 | the maximum of the stored values is unique |
| `VirtuosoCalls.Normalised` | pp_api/virtuoso_calls.py:46-47 | normalising keeps every stored pair |
| `VirtuosoCalls.NormalisedByMaximum` | pp_api/virtuoso_calls.py:45-47 | after dividing by the maximum, a pair maps to 1 exactly when it holds the maximum, and some pair does; with a positive maximum nothing exceeds 1, and positive scores stay positive; with a negative maximum everything is at least 1 |
| `VirtuosoCalls.MaxScore` | pp_api/virtuoso_calls.py:45 | returns a stored value no smaller than any stored value |
| `VirtuosoCalls.GetCorpusZscores` | pp_api/virtuoso_calls.py:37-48 | fails with no retained pairs exactly when no binding survives the term filter, and with a zero maximum exactly when the maximum is 0; otherwise returns the retained map divided by its maximum |
| `VirtuosoCalls.SimilaritySymmetric` | pp_api/virtuoso_calls.py:12-20 | the lookup is symmetric when the two directions of a pair are not stored with different values |
| `VirtuosoCalls.SimilarityAsymmetric` | pp_api/virtuoso_calls.py:15-18 | when both directions are stored with different values the lookup is not symmetric |
| `VirtuosoCalls.Similarity` | pp_api/virtuoso_calls.py:12-20 | specified by `SimilarityOfBindings`, `SimilaritySymmetric` and `SimilarityAsymmetric` |
| `VirtuosoCalls.SimilarityOfBindings` | pp_api/virtuoso_calls.py:12-20 | a term against itself scores 1; a pair with a non-term scores 0; otherwise the normalised score of the last (a, b) binding, or failing that of the last (b, a) binding; and 0 when no binding carries either direction |
| `VirtuosoCalls.TermScores` | pp_api/virtuoso_calls.py:73-80 | specified by `TermMapsKeys` and `TermMapsLastWins` |
| `VirtuosoCalls.TermUris` | pp_api/virtuoso_calls.py:73-80 | specified by `TermMapsKeys` and `TermMapsLastWins` |
| `VirtuosoCalls.TermMapsKeys` | pp_api/virtuoso_calls.py:73-81 | the score map and the URI map have the same keys: the names of the bindings |
| `VirtuosoCalls.TermMapsLastWins` | pp_api/virtuoso_calls.py:75-80 | for each name both maps hold the values of its last binding |
| `VirtuosoCalls.GetPpTerms` | pp_api/virtuoso_calls.py:73-81 | the loop builds exactly the two folded maps, whose keys are equal and are the names of the bindings |
| `Utils.Subdict` | pp_api/utils.py:24-33 | every result key is one of the requested fields |
| `Utils.SubdictKeysAndValues` | pp_api/utils.py:31-33 | with no default and no force the keys are the requested fields present in the dictionary; a present field keeps its value; with a default or force every field appears and the missing ones hold the default (`None` when forced) |
| `Utils.SubdictIdempotent` | pp_api/utils.py:31-33 | projecting the result again onto the same fields changes nothing |

## Left out

- HTTP transport is not modelled, and neither is error reporting. That covers `session.post`, `requests.get`, `raise_for_status`, the `print` diagnostics, the status-code `assert`s and `query_sparql_endpoint`. Requests are returned as values and query results are inputs.
- `delete`, `clean`, `in_gs`, `get_fields`, `add_field` and `remove_field` are left out. They only post to the remote service, so their behaviour lives there.
- `extract_and_create`, `extract_and_update` and `add_custom_fields_from_the` are left out. They call the PoolParty client and a thesaurus module, and neither is part of this model.
- `get_session` and `get_auth_data` are left out. They read the environment and set up sessions.
- The `CRS_threshold` filter of `get_pp_terms` is applied by the remote query. The model takes the bindings as the endpoint returns them.
- Floating point is not modelled. Scores are reals, `np.log2` is an uninterpreted parameter, and division is exact.
- `VirtuosoCalls.GetCorpusZscores`: numpy divides by a zero maximum without raising, giving `inf`/`nan` entries. The model returns `Err(ZeroMaximum)` in that case instead of a map.
- `VirtuosoCalls.GetCorpusZscores`: the source never imports `np`, so as written any binding that survives the term filter raises `NameError`. The model assumes the evident import.
- `VirtuosoCalls.GetCorpusZscores`: it returns the normalised map rather than a closure. `similarity` is modelled as `Similarity` applied to that map.
- The lookup tries the `(a, b)` entry first and the `(b, a)` entry only when the first is missing. It is therefore symmetric only when at most one direction of a pair is stored. A claim of unconditional symmetry does not hold of the code. `VirtuosoCalls.SimilarityAsymmetric` exhibits a counterexample.
- `DateFormat.Padded`: `%Y` is always written with four digits. Python's output for years below 1000 depends on the platform.
- `ExtractorUtils.PpExtractToMatches`: Python's `str.format` on the tag pattern is the parameter `render`. The model does not check that the pattern's placeholders exist.
- `ExtractorUtils.RemoveOverlaps`: which of several equally long spans at one start survives depends on set iteration order. The contract states only that one span with the largest end survives.
- `ExtractorUtils.ScanDropped`: the coverage claim excludes spans with negative starts. Such a span can be dropped against the initial offset of -1 without lying inside any kept span.
- `GsCalls.GraphSearch.CreateWithFreqs`: its `text` defaults to `None`, and `_create` then takes `len(None)` with the limit on. A call without text therefore always raises; the model returns `Err(TextIsNone)`.
- `GsCalls.SortByDate`: the `date` values are modelled as strings compared by code point. Results whose dates are of other or mixed types are not modelled.
- `GsCalls.GraphSearch.Create`: the key order of the JSON body is not modelled. Python dicts keep insertion order, but the model uses maps. The merge itself does apply the extra fields in call order, so a later field of the same key wins.
